/** The packet queue of ff_ffplay.c. */
module PacketQueues {
  import opened Common
  import opened NodeLists

  const MIN_PKT_DURATION := 15

  /** flush_pkt, a packet without data, or one with data. */
  datatype Kind = FlushMark | Null | Data

  datatype Packet = Packet(kind: Kind, size: nat, duration: int)

  const FLUSH_PKT := Packet(FlushMark, 0, 0)

  /** A queued packet with the epoch it belongs to. */
  datatype Item = Item(pkt: Packet, serial: int)

  function Bytes(items: seq<Item>, nodeSize: nat): nat {
    if items == [] then 0 else items[0].pkt.size + nodeSize + Bytes(items[1..], nodeSize)
  }

  /** Packets without a duration count with a minimum. */
  function Duration(items: seq<Item>): int {
    if items == [] then 0 else Max(items[0].pkt.duration, MIN_PKT_DURATION) + Duration(items[1..])
  }

  lemma {:induction false} SumsSnoc(items: seq<Item>, item: Item, nodeSize: nat)
    ensures Bytes(items + [item], nodeSize) == Bytes(items, nodeSize) + item.pkt.size + nodeSize
    ensures Duration(items + [item]) == Duration(items) + Max(item.pkt.duration, MIN_PKT_DURATION)
    decreases |items|
  {
    if items == [] {
      assert (items + [item])[1..] == [];
    } else {
      assert (items + [item])[1..] == items[1..] + [item];
      SumsSnoc(items[1..], item, nodeSize);
    }
  }

  lemma SumsCons(item: Item, items: seq<Item>, nodeSize: nat)
    ensures Bytes([item] + items, nodeSize) == item.pkt.size + nodeSize + Bytes(items, nodeSize)
    ensures Duration([item] + items) == Max(item.pkt.duration, MIN_PKT_DURATION) + Duration(items)
    ensures forall serial :: Ascending([item] + items, serial) ==> Ascending(items, serial)
  {
    assert ([item] + items)[1..] == items;
    forall serial | Ascending([item] + items, serial)
      ensures Ascending(items, serial)
    {
      assert forall i :: 0 <= i < |items| ==> items[i] == ([item] + items)[i + 1];
    }
  }

  ghost predicate Ascending(items: seq<Item>, serial: int) {
    && (forall i, j :: 0 <= i < j < |items| ==> items[i].serial <= items[j].serial)
    && (forall i :: 0 <= i < |items| ==> items[i].serial <= serial)
  }

  lemma AscendingSnoc(items: seq<Item>, serial: int, item: Item)
    requires Ascending(items, serial) && serial <= item.serial
    ensures Ascending(items + [item], item.serial)
  {
  }

  class PacketQueue {
    /** the fields first_pkt, last_pkt, nb_packets, recycle_pkt and the counts */
    const list: NodeList<Item>
    /** sizeof(MyAVPacketList) */
    const nodeSize: nat
    var size: int
    var duration: int
    var abortRequest: bool
    var serial: int

    ghost function Items(): seq<Item>
      reads list`nodes, list.nodes`value
    {
      list.Items()
    }

    /** The sums are those of the list, and no packet is of a later epoch. */
    ghost predicate Counted(items: seq<Item>)
      reads this`size, this`duration, this`serial
    {
      size == Bytes(items, nodeSize) && duration == Duration(items) && Ascending(items, serial)
    }

    ghost predicate Valid()
      reads this, list, list.nodes, list.spare
    {
      list.Valid() && Counted(Items())
    }

    /** packet_queue_init. */
    constructor (nodeSize: nat)
      ensures Valid() && abortRequest && Items() == [] && serial == 0 && this.nodeSize == nodeSize && fresh(list)
      ensures list.repr == {}
    {
      list := new NodeList();
      this.nodeSize := nodeSize;
      size, duration, abortRequest, serial := 0, 0, true, 0;
    }

    /** packet_queue_put_private. */
    method Put(pkt: Packet) returns (ret: int)
      requires Valid()
      modifies this`size, this`duration, this`serial, list, list.repr
      ensures Valid()
      ensures ret == if abortRequest then -1 else 0
      ensures serial == old(serial) + if ret == 0 && pkt.kind.FlushMark? then 1 else 0
      ensures Items() == if ret == 0 then old(Items()) + [Item(pkt, serial)] else old(Items())
    {
      hide Bytes, Duration, Ascending;
      if abortRequest { return -1; }
      ghost var items, before := Items(), serial;
      if pkt.kind.FlushMark? {
        serial := serial + 1;
      }
      list.Put(Item(pkt, serial));
      size := size + (pkt.size + nodeSize);
      duration := duration + Max(pkt.duration, MIN_PKT_DURATION);
      SumsSnoc(items, Item(pkt, serial), nodeSize);
      AscendingSnoc(items, before, Item(pkt, serial));
      ret := 0;
    }

    /** packet_queue_flush. */
    method Flush()
      requires Valid()
      modifies this`size, this`duration, list, list.repr
      ensures Valid() && Items() == [] && list.allocCount == old(list.allocCount)
    {
      list.Flush();
      size, duration := 0, 0;
    }

    /** One turn of packet_queue_get: 0 means that the list is empty, and a
        blocking call waits and tries again. */
    method Get() returns (ret: int, pkt: Packet, epoch: int)
      requires Valid()
      modifies this`size, this`duration, list, list.repr
      ensures Valid() && list.allocCount == old(list.allocCount)
      ensures ret == if abortRequest then -1 else if old(Items()) == [] then 0 else 1
      ensures if ret == 1 then old(Items()) == [Item(pkt, epoch)] + Items() else Items() == old(Items())
    {
      hide Counted;
      ret, pkt, epoch := -1, FLUSH_PKT, 0;
      if abortRequest { return; }
      var first := list.Get();
      ret := 0;
      if first.Some? {
        Uncount(first.value);
        ret, pkt, epoch := 1, first.value.pkt, first.value.serial;
      }
    }

    /** Lines 312-313. */
    method Uncount(item: Item)
      requires Counted([item] + Items())
      modifies this`size, this`duration
      ensures Counted(Items())
    {
      hide Bytes, Duration, Ascending;
      SumsCons(item, Items(), nodeSize);
      size := size - (item.pkt.size + nodeSize);
      duration := duration - Max(item.pkt.duration, MIN_PKT_DURATION);
    }

    /** packet_queue_abort. */
    method Abort()
      requires Valid()
      modifies this`abortRequest
      ensures Valid() && abortRequest
    {
      abortRequest := true;
    }

    /** packet_queue_start: a new epoch begins. */
    method Start()
      requires Valid()
      modifies this, list, list.repr
      ensures Valid() && !abortRequest && serial == old(serial) + 1
      ensures Items() == old(Items()) + [Item(FLUSH_PKT, serial)]
    {
      abortRequest := false;
      var _ := Put(FLUSH_PKT);
    }
  }
}
