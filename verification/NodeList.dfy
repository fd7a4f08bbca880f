/** Singly linked lists whose removed nodes are kept for reuse: the common part of
    the packet queues of ff_ffplay.c and the message queue of ff_ffmsg_queue.h. */
module NodeLists {
  import opened Common

  class Node<T> {
    var value: T
    var next: Node?<T>

    constructor (value: T)
      ensures this.value == value && next == null
    {
      this.value, next := value, null;
    }
  }

  ghost function At<T>(nodes: seq<Node<T>>, i: int): Node?<T> {
    if 0 <= i < |nodes| then nodes[i] else null
  }

  /** `nodes` is the list that starts at `first`. */
  ghost predicate IsList<T>(first: Node?<T>, nodes: seq<Node<T>>)
    reads nodes`next
  {
    first == At(nodes, 0) && forall i :: 0 <= i < |nodes| ==> nodes[i].next == At(nodes, i + 1)
  }

  /** `nodes` are the nodes below `top`, the topmost last. */
  ghost predicate IsStack<T>(top: Node?<T>, nodes: seq<Node<T>>)
    reads nodes`next
  {
    top == At(nodes, |nodes| - 1) && forall i :: 0 <= i < |nodes| ==> nodes[i].next == At(nodes, i - 1)
  }

  lemma StackPop<T>(top: Node<T>, nodes: seq<Node<T>>)
    requires IsStack(top, nodes)
    ensures nodes != [] && top == nodes[|nodes| - 1] && IsStack(top.next, nodes[..|nodes| - 1])
  {
  }

  /** A node and the one before it, if there is one. */
  ghost function Pair<T>(prev: Node?<T>, n: Node<T>): set<Node<T>> {
    if prev == null then {n} else {prev, n}
  }

  ghost predicate Distinct<T>(nodes: seq<Node<T>>) {
    forall i, j :: 0 <= i < j < |nodes| ==> nodes[i] != nodes[j]
  }

  lemma DistinctSnoc<T>(nodes: seq<Node<T>>, n: Node<T>)
    requires Distinct(nodes) && n !in nodes
    ensures Distinct(nodes + [n])
  {
  }

  lemma Others<T>(nodes: seq<Node<T>>)
    requires Distinct(nodes) && nodes != []
    ensures forall i :: 0 <= i < |nodes| - 1 ==> nodes[i] != nodes[|nodes| - 1]
  {
  }

  /** A list with its tail, and the spare nodes beside it. */
  ghost predicate Linked<T>(first: Node?<T>, last: Node?<T>, nodes: seq<Node<T>>, recycle: Node?<T>, spare: seq<Node<T>>)
    reads nodes`next, spare`next
  {
    && IsList(first, nodes) && last == At(nodes, |nodes| - 1) && Distinct(nodes)
    && IsStack(recycle, spare) && Distinct(spare)
    && forall n :: n in nodes ==> n !in spare
  }

  ghost function Values<T>(nodes: seq<Node<T>>): (values: seq<T>)
    reads nodes`value
    ensures |values| == |nodes|
  {
    if nodes == [] then []
    else
      var k := |nodes| - 1;
      Values(nodes[..k]) + [nodes[k].value]
  }

  lemma ValuesSnoc<T>(nodes: seq<Node<T>>, n: Node<T>)
    ensures Values(nodes + [n]) == Values(nodes) + [n.value]
  {
    assert (nodes + [n])[..|nodes|] == nodes;
  }

  lemma {:induction false} ValuesTail<T>(nodes: seq<Node<T>>)
    requires nodes != []
    ensures Values(nodes) == [nodes[0].value] + Values(nodes[1..])
    decreases |nodes|
  {
    var k := |nodes| - 1;
    if k > 0 {
      ValuesTail(nodes[..k]);
      assert nodes[..k][1..] == nodes[1..][..k - 1];
    }
  }

  lemma FirstOf<T>(first: Node?<T>, last: Node?<T>, nodes: seq<Node<T>>, recycle: Node?<T>, spare: seq<Node<T>>)
    requires Linked(first, last, nodes, recycle, spare)
    ensures first == At(nodes, 0)
  {
  }

  lemma ListTail<T>(first: Node<T>, nodes: seq<Node<T>>)
    requires IsList(first, nodes) && Distinct(nodes)
    ensures nodes != [] && IsList(first.next, nodes[1..]) && Distinct(nodes[1..]) && first !in nodes[1..]
  {
  }

  lemma FreshSpare<T>(spare: seq<Node<T>>, nodes: seq<Node<T>>, i: nat)
    requires Distinct(nodes) && (forall n :: n in nodes ==> n !in spare) && i < |nodes|
    ensures nodes[i] !in spare + nodes[..i]
    ensures spare + nodes[..i] + [nodes[i]] == spare + nodes[..i + 1]
    ensures forall j :: i < j < |nodes| ==> nodes[j] != nodes[i]
  {
  }

  lemma NoneLinked<T>(recycle: Node?<T>, spare: seq<Node<T>>)
    requires IsStack(recycle, spare) && Distinct(spare)
    ensures Linked(null, null, [], recycle, spare)
  {
  }

  /** The values that are not unwanted, in order. */
  function Filter<T>(unwanted: T -> bool, values: seq<T>): seq<T> {
    if values == [] then []
    else
      var k := |values| - 1;
      Filter(unwanted, values[..k]) + if unwanted(values[k]) then [] else [values[k]]
  }

  /** A list from which the `k`th node was taken out. */
  lemma DistinctWithout<T>(nodes: seq<Node<T>>, k: nat)
    requires Distinct(nodes) && k < |nodes|
    ensures Distinct(nodes[..k] + nodes[k + 1..]) && nodes[k] !in nodes[..k] + nodes[k + 1..]
    ensures forall i :: 0 <= i < |nodes| && i != k ==> nodes[i] != nodes[k]
  {
  }

  lemma DistinctFrom<T>(nodes: seq<Node<T>>, k: int)
    requires Distinct(nodes)
    ensures 0 <= k < |nodes| ==> forall i :: 0 <= i < |nodes| && i != k ==> nodes[i] != nodes[k]
  {
  }

  class NodeList<T> {
    var first: Node?<T>
    var last: Node?<T>
    var count: int
    var recycle: Node?<T>
    var recycleCount: int
    var allocCount: int

    ghost var nodes: seq<Node<T>>
    ghost var spare: seq<Node<T>>
    /** all nodes ever allocated */
    ghost var repr: set<Node<T>>

    ghost function Items(): seq<T>
      reads this`nodes, nodes`value
    {
      Values(nodes)
    }

    ghost predicate Owned()
      reads this`nodes, this`spare, this`repr
    {
      && (forall i :: 0 <= i < |nodes| ==> nodes[i] in repr)
      && (forall i :: 0 <= i < |spare| ==> spare[i] in repr)
    }

    /** The links, the tail and the count are right, and every node ever allocated
        is either in the list or spare. */
    ghost predicate Valid()
      reads this, nodes`next, spare`next
    {
      Linked(first, last, nodes, recycle, spare) && Owned() && count == |nodes| && allocCount == |nodes| + |spare|
    }

    constructor ()
      ensures Valid() && Items() == [] && repr == {}
    {
      first, last, count, recycle, recycleCount, allocCount := null, null, 0, null, 0, 0;
      nodes, spare, repr := [], [], {};
    }

    /** A recycled node, or a new one. */
    method TakeNode(value: T) returns (n: Node<T>)
      requires Linked(first, last, nodes, recycle, spare)
      modifies this`recycle, this`recycleCount, this`allocCount, this`spare
      ensures Linked(first, last, nodes, recycle, spare) && n !in nodes && n !in spare
      ensures fresh(n) || n in old(spare)
      ensures allocCount - |spare| == old(allocCount - |spare|) + 1
      ensures allocCount == old(allocCount) + if old(spare) == [] then 1 else 0
      ensures spare <= old(spare)
      ensures recycleCount == old(recycleCount) + if old(spare) == [] then 0 else 1
    {
      if recycle != null {
        n := recycle;
        StackPop(n, spare);
        recycle := n.next;
        recycleCount := recycleCount + 1;
        spare := spare[..|spare| - 1];
      } else {
        allocCount := allocCount + 1;
        n := new Node(value);
      }
    }

    /** Make a node the tail of the list. */
    method Append(n: Node<T>)
      requires Linked(first, last, nodes, recycle, spare) && n !in nodes && n !in spare && n.next == null
      modifies this`first, this`last, this`nodes, nodes`next
      ensures nodes == old(nodes) + [n] && Linked(first, last, nodes, recycle, spare)
      ensures Values(nodes) == old(Values(nodes)) + [n.value]
    {
      hide Values, Distinct;
      if last == null {
        first := n;
      } else {
        assert last in nodes && last !in spare;
        Others(nodes);
        last.next := n;
      }
      last := n;
      DistinctSnoc(nodes, n);
      ValuesSnoc(nodes, n);
      nodes := nodes + [n];
    }

    method Put(value: T)
      requires Valid()
      modifies this, repr
      ensures Valid() && Items() == old(Items()) + [value]
      ensures old(repr) <= repr && fresh(repr - old(repr))
      ensures allocCount == old(allocCount) + if old(spare) == [] then 1 else 0
    {
      hide Linked, Values;
      var n := TakeNode(value);
      n.value, n.next := value, null;
      Append(n);
      count := count + 1;
      repr := repr + {n};
    }

    /** Put a node on the spare ones. */
    method Recycle(n: Node<T>)
      requires IsStack(recycle, spare) && Distinct(spare) && n !in spare
      modifies this`recycle, this`spare, n`next
      ensures spare == old(spare) + [n] && IsStack(recycle, spare) && Distinct(spare)
    {
      DistinctSnoc(spare, n);
      hide Distinct;
      n.next := recycle;
      recycle := n;
      spare := spare + [n];
    }

    /** The part of the list from the `i`th node on is still linked. */
    ghost predicate LinkedFrom(nodes: seq<Node<T>>, n: Node?<T>, i: nat)
      reads nodes`next
    {
      i <= |nodes| && n == At(nodes, i) && forall j :: i <= j < |nodes| ==> nodes[j].next == At(nodes, j + 1)
    }

    /** What holds between two turns of the loop of a flush. */
    ghost predicate Recycling(before: seq<Node<T>>, n: Node?<T>, i: nat)
      reads this`nodes, this`recycle, this`spare, nodes`next, spare`next
    {
      && LinkedFrom(nodes, n, i) && Distinct(nodes) && (forall m :: m in nodes ==> m !in before)
      && spare == before + nodes[..i] && IsStack(recycle, spare) && Distinct(spare)
    }

    /** One turn of the loop of a flush. */
    method RecycleNext(n: Node<T>, ghost i: nat, ghost before: seq<Node<T>>) returns (next: Node?<T>)
      requires Recycling(before, n, i)
      modifies this`recycle, this`spare, n`next
      ensures i < |nodes| && Recycling(before, next, i + 1)
    {
      hide IsStack;
      FreshSpare(before, nodes, i);
      hide Distinct;
      next := n.next;
      Recycle(n);
    }

    lemma RecyclingEnds(before: seq<Node<T>>, i: nat)
      requires Recycling(before, null, i)
      ensures spare == before + nodes && IsStack(recycle, spare) && Distinct(spare)
    {
      assert nodes[..i] == nodes;
    }

    lemma RecyclingIn(before: seq<Node<T>>, n: Node<T>, i: nat)
      requires Recycling(before, n, i)
      ensures n in nodes && i < |nodes|
    {
    }

    method RecycleAll()
      requires Linked(first, last, nodes, recycle, spare)
      modifies this`recycle, this`spare, nodes`next
      ensures spare == old(spare) + nodes && IsStack(recycle, spare) && Distinct(spare)
    {
      ghost var i: nat := 0;
      var n := first;
      assert spare + nodes[..0] == spare;
      assert Recycling(spare, n, 0);
      hide Recycling;
      while n != null
        invariant Recycling(old(spare), n, i)
        decreases |nodes| - i
      {
        RecyclingIn(old(spare), n, i);
        n := RecycleNext(n, i, old(spare));
        i := i + 1;
      }
      RecyclingEnds(old(spare), i);
    }

    /** packet_queue_flush, msg_queue_flush. */
    method Flush()
      requires Valid()
      modifies this, repr
      ensures Valid() && nodes == [] && Items() == [] && repr == old(repr)
      ensures spare == old(spare + nodes) && allocCount == old(allocCount)
    {
      hide IsStack, Distinct, Linked;
      RecycleAll();
      NoneLinked(recycle, spare);
      last, first, count := null, null, 0;
      nodes := [];
    }

    /** The links of taking the first node. */
    method RemoveFirst()
      requires Linked(first, last, nodes, recycle, spare) && nodes != []
      modifies this`first, this`last, this`nodes, this`recycle, this`spare, nodes`next
      ensures Linked(first, last, nodes, recycle, spare)
      ensures nodes == old(nodes[1..]) && spare == old(spare + [nodes[0]])
    {
      FreshSpare(spare, nodes, 0);
      var n := first;
      first := n.next;
      if first == null {
        last := null;
      }
      ListTail(n, nodes);
      nodes := nodes[1..];
      hide IsList, IsStack;
      Recycle(n);
    }

    /** Take the first value, if there is one. */
    method Get() returns (value: Option<T>)
      requires Valid()
      modifies this, repr
      ensures Valid() && allocCount == old(allocCount) && repr == old(repr)
      ensures value.None? <==> old(Items()) == []
      ensures if value.Some? then old(Items()) == [value.value] + Items() && nodes == old(nodes[1..]) && spare == old(spare + [nodes[0]])
              else Items() == [] && nodes == [] && spare == old(spare)
    {
      hide Linked, Values;
      FirstOf(first, last, nodes, recycle, spare);
      if first == null { return None; }
      ValuesTail(nodes);
      value := Some(first.value);
      RemoveFirst();
      count := count - 1;
    }

    /** Take the node behind `prev` out of the list; `prev` is null at the front. */
    method Unlink(prev: Node?<T>, n: Node<T>, ghost k: nat)
      requires IsList(first, nodes) && Distinct(nodes) && k < |nodes| && prev == At(nodes, k - 1) && n == nodes[k]
      modifies this`first, this`nodes, Pair(prev, n)`next
      ensures nodes == old(nodes[..k] + nodes[k + 1..]) && IsList(first, nodes) && Distinct(nodes)
    {
      DistinctWithout(nodes, k);
      assert k > 0 ==> forall i :: 0 <= i < |nodes| && i != k - 1 ==> nodes[i] != prev by {
        DistinctFrom(nodes, k - 1);
      }
      hide Distinct;
      ghost var all := nodes;
      if prev == null {
        first := first.next;
      } else {
        prev.next := prev.next.next;
      }
      nodes := nodes[..k] + nodes[k + 1..];
      assert forall i :: 0 <= i < k ==> nodes[i] == all[i];
      assert forall i :: k <= i < |nodes| ==> nodes[i] == all[i + 1];
    }

    /** The links without the tail. */
    ghost predicate Loose()
      reads this`first, this`nodes, this`recycle, this`spare, nodes`next, spare`next
    {
      && IsList(first, nodes) && Distinct(nodes)
      && IsStack(recycle, spare) && Distinct(spare) && (forall n :: n in nodes ==> n !in spare)
    }

    /** One turn of the loop of msg_queue_remove that removes the node behind `prev`. */
    method RemoveTurn(prev: Node?<T>, n: Node<T>, ghost k: nat)
      requires Loose() && k < |nodes| && prev == At(nodes, k - 1) && n == nodes[k]
      modifies this`first, this`nodes, this`recycle, this`spare, Pair(prev, n)`next
      ensures Loose() && nodes == old(nodes[..k] + nodes[k + 1..]) && spare == old(spare) + [n]
    {
      hide IsStack;
      DistinctWithout(nodes, k);
      assert n in nodes && (prev != null ==> prev == nodes[k - 1] && prev in nodes);
      assert forall j :: 0 <= j < |spare| ==> spare[j] !in Pair(prev, n);
      Unlink(prev, n, k);
      hide IsList, Distinct;
      Recycle(n);
    }

    /** Of the `all` nodes there were, the first `i` were looked at and `k` of them
        kept; `prev` and `n` are the nodes before and at that place. */
    static ghost predicate Aligned(nodes: seq<Node<T>>, all: seq<Node<T>>, i: nat, k: nat, prev: Node?<T>, n: Node?<T>) {
      && k <= |nodes| && i <= |all| && nodes[k..] == all[i..]
      && prev == At(nodes, k - 1) && n == At(nodes, k)
    }

    lemma NextOf(all: seq<Node<T>>, i: nat, k: nat, prev: Node?<T>, n: Node<T>)
      requires Loose() && Aligned(nodes, all, i, k, prev, n)
      ensures i < |all| && k < |nodes| && all[i] == n == nodes[k] && prev == At(nodes, k - 1)
      ensures Aligned(nodes, all, i + 1, k + 1, n, n.next)
      ensures nodes[..k + 1] == nodes[..k] + [n]
      ensures var rest := nodes[..k] + nodes[k + 1..];
        Aligned(rest, all, i + 1, k, prev, n.next) && rest[..k] == nodes[..k]
    {
      assert nodes[k] == nodes[k..][0] && all[i..][0] == all[i];
    }

    /** One turn of the loop of msg_queue_remove. */
    method LoopTurn(unwanted: T -> bool, prev: Node?<T>, n: Node<T>, ghost all: seq<Node<T>>, ghost i: nat, ghost k: nat)
      returns (prev': Node?<T>, n': Node?<T>, ghost k': nat)
      requires Loose() && Aligned(nodes, all, i, k, prev, n) && count == |nodes|
      modifies this`first, this`nodes, this`recycle, this`spare, this`count, Pair(prev, n)`next
      ensures i < |all| && Loose() && Aligned(nodes, all, i + 1, k', prev', n') && count == |nodes| && k' <= |nodes|
      ensures nodes[..k'] == old(nodes[..k]) + if unwanted(all[i].value) then [] else [all[i]]
      ensures |nodes| + |spare| == old(|nodes| + |spare|) && spare <= old(spare) + [n] && forall m :: m in nodes ==> m in old(nodes)
    {
      NextOf(all, i, k, prev, n);
      hide Loose, Aligned;
      prev', n', k' := prev, n.next, k;
      if unwanted(n.value) {
        RemoveTurn(prev, n, k);
        count := count - 1;
      } else {
        prev', k' := n, k + 1;
      }
    }

    /** What holds between two turns of the loop of msg_queue_remove. */
    ghost predicate Turning(unwanted: T -> bool, before: seq<Node<T>>, all: seq<Node<T>>, values: seq<T>, i: nat, k: nat, prev: Node?<T>, n: Node?<T>)
      reads this`first, this`nodes, this`recycle, this`spare, this`count, nodes`next, spare`next, all`value
    {
      && Loose() && Aligned(nodes, all, i, k, prev, n) && count == |nodes|
      && Values(all) == values && nodes[..k] == KeptNodes(unwanted, all, values, i)
      && (forall m :: m in nodes ==> m in all)
      && (forall m :: m in spare ==> m in before || m in all)
    }

    lemma TurningIn(unwanted: T -> bool, before: seq<Node<T>>, all: seq<Node<T>>, values: seq<T>, i: nat, k: nat, prev: Node?<T>, n: Node<T>)
      requires Turning(unwanted, before, all, values, i, k, prev, n)
      ensures n in all && (prev != null ==> prev in all) && i < |all|
    {
      PairIn(nodes, all, i, k, prev, n);
    }

    method KeepTurn(unwanted: T -> bool, prev: Node?<T>, n: Node<T>, ghost before: seq<Node<T>>, ghost all: seq<Node<T>>, ghost values: seq<T>,
                    ghost i: nat, ghost k: nat) returns (prev': Node?<T>, n': Node?<T>, ghost k': nat)
      requires Turning(unwanted, before, all, values, i, k, prev, n)
      modifies this`first, this`nodes, this`recycle, this`spare, this`count, Pair(prev, n)`next
      ensures i < |all| && Turning(unwanted, before, all, values, i + 1, k', prev', n')
      ensures |nodes| + |spare| == old(|nodes| + |spare|)
    {
      PairIn(nodes, all, i, k, prev, n);
      assert k <= |nodes|;
      hide Values, Loose, Aligned;
      ValueAt(all, i);
      prev', n', k' := LoopTurn(unwanted, prev, n, all, i, k);
    }

    /** The loop of msg_queue_remove; `prev` ends as the last node that is kept. */
    method RemoveLoop(unwanted: T -> bool) returns (prev: Node?<T>)
      requires Loose() && count == |nodes|
      modifies this`first, this`nodes, this`recycle, this`spare, this`count, nodes`next
      ensures Loose() && count == |nodes| && prev == At(nodes, |nodes| - 1)
      ensures |nodes| + |spare| == old(|nodes| + |spare|)
      ensures nodes == KeptNodes(unwanted, old(nodes), old(Values(nodes)), old(|nodes|))
      ensures forall m :: m in nodes ==> m in old(nodes)
      ensures forall m :: m in spare ==> m in old(nodes) || m in old(spare)
    {
      ghost var all, values := nodes, Values(nodes);
      ghost var i: nat, k: nat := 0, 0;
      prev := null;
      var n := first;
      hide Turning, Loose, Values, KeptNodes, Aligned;
      TurningStarts(unwanted);
      while n != null
        invariant Turning(unwanted, old(spare), all, values, i, k, prev, n)
        invariant |nodes| + |spare| == old(|nodes| + |spare|)
        decreases |all| - i
      {
        TurningIn(unwanted, old(spare), all, values, i, k, prev, n);
        prev, n, k := KeepTurn(unwanted, prev, n, old(spare), all, values, i, k);
        i := i + 1;
      }
      TurningEnds(unwanted, old(spare), all, values, i, k, prev);
    }

    lemma TurningStarts(unwanted: T -> bool)
      requires Loose() && count == |nodes|
      ensures Turning(unwanted, spare, nodes, Values(nodes), 0, 0, null, first)
    {
      StartAligned();
      hide Values;
    }

    lemma TurningEnds(unwanted: T -> bool, before: seq<Node<T>>, all: seq<Node<T>>, values: seq<T>, i: nat, k: nat, prev: Node?<T>)
      requires Turning(unwanted, before, all, values, i, k, prev, null)
      ensures Loose() && count == |nodes| && prev == At(nodes, |nodes| - 1)
      ensures |all| == |values| && nodes == KeptNodes(unwanted, all, values, |all|)
      ensures forall m :: m in nodes ==> m in all
      ensures forall m :: m in spare ==> m in all || m in before
    {
      EndAligned(nodes, all, i, k, prev);
      hide Loose;
    }

    lemma StartAligned()
      requires Loose()
      ensures Aligned(nodes, nodes, 0, 0, null, first)
    {
    }

    static lemma EndAligned(nodes: seq<Node<T>>, all: seq<Node<T>>, i: nat, k: nat, prev: Node?<T>)
      requires Aligned(nodes, all, i, k, prev, null)
      ensures k == |nodes| && i == |all| && nodes[..k] == nodes && prev == At(nodes, |nodes| - 1)
    {
      assert nodes[k..] == all[i..];
    }

    static lemma PairIn(nodes: seq<Node<T>>, all: seq<Node<T>>, i: nat, k: nat, prev: Node?<T>, n: Node<T>)
      requires Aligned(nodes, all, i, k, prev, n)
      ensures n in nodes && (prev != null ==> prev in nodes) && i < |all| && n == all[i]
    {
      assert nodes[k] == nodes[k..][0] && all[i..][0] == all[i];
    }

    /** The nodes among the first `i` whose values are not unwanted. */
    static ghost function KeptNodes(unwanted: T -> bool, all: seq<Node<T>>, values: seq<T>, i: nat): seq<Node<T>>
      requires i <= |all| == |values|
    {
      if i == 0 then [] else KeptNodes(unwanted, all, values, i - 1) + if unwanted(values[i - 1]) then [] else [all[i - 1]]
    }

    static lemma {:induction false} ValueAt(nodes: seq<Node<T>>, i: nat)
      requires i < |nodes|
      ensures Values(nodes)[i] == nodes[i].value
      decreases |nodes|
    {
      if i < |nodes| - 1 {
        ValueAt(nodes[..|nodes| - 1], i);
      }
    }

    static lemma {:induction false} KeptValues(unwanted: T -> bool, all: seq<Node<T>>, i: nat)
      requires i <= |all|
      ensures Values(KeptNodes(unwanted, all, Values(all), i)) == Filter(unwanted, Values(all)[..i])
      decreases i
    {
      if i > 0 {
        KeptValues(unwanted, all, i - 1);
        ValueAt(all, i - 1);
        var kept, vs := KeptNodes(unwanted, all, Values(all), i - 1), Values(all)[..i];
        assert vs[..i - 1] == Values(all)[..i - 1];
        ValuesSnoc(kept, all[i - 1]);
        assert kept + [] == kept;
      }
    }

    lemma AllOwned(now: seq<Node<T>>, a: seq<Node<T>>, b: seq<Node<T>>)
      requires forall m :: m in now ==> m in a || m in b
      requires (forall i :: 0 <= i < |a| ==> a[i] in repr) && (forall i :: 0 <= i < |b| ==> b[i] in repr)
      ensures forall i :: 0 <= i < |now| ==> now[i] in repr
    {
      forall i | 0 <= i < |now|
        ensures now[i] in repr
      {
        assert now[i] in now;
      }
    }

    /** msg_queue_remove: the unwanted values are filtered out, the others keep
        their order, and the removed nodes become spare. */
    method Remove(unwanted: T -> bool)
      requires Valid()
      modifies this, repr
      ensures Valid() && Items() == Filter(unwanted, old(Items())) && repr == old(repr)
      ensures allocCount == old(allocCount) && nodes == KeptNodes(unwanted, old(nodes), old(Items()), old(|nodes|))
    {
      hide Values, Filter, IsList, IsStack, Distinct;
      ghost var all, values := nodes, Items();
      var prev := RemoveLoop(unwanted);
      last := prev;
      AllOwned(nodes, all, all);
      AllOwned(spare, all, old(spare));
      KeptValues(unwanted, all, |all|);
      assert values[..|all|] == values;
    }
  }
}
