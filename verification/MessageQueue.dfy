/** The message queue of ff_ffmsg_queue.h. */
module MessageQueues {
  import opened NodeLists

  const FFP_MSG_FLUSH := 0
  const FFP_MSG_PREPARED := 200
  const FFP_MSG_COMPLETED := 300
  const FFP_MSG_SEEK_COMPLETE := 600
  const FFP_REQ_START := 20001
  const FFP_REQ_PAUSE := 20002
  const FFP_REQ_SEEK := 20003

  /** A message without the object it may carry. */
  datatype Message = Message(what: int, arg1: int, arg2: int)

  /** The messages that are not of a kind, in order. */
  function Without(msgs: seq<Message>, what: int): seq<Message> {
    Filter((m: Message) => m.what == what, msgs)
  }

  class MessageQueue {
    /** the fields first_msg, last_msg, nb_messages, recycle_msg and the counts */
    const list: NodeList<Message>
    var abortRequest: bool

    ghost function Items(): seq<Message>
      reads list`nodes, list.nodes`value
    {
      list.Items()
    }

    ghost predicate Valid()
      reads list, list.nodes, list.spare
    {
      list.Valid()
    }

    /** msg_queue_init. */
    constructor ()
      ensures Valid() && abortRequest && Items() == [] && fresh(list) && list.repr == {}
    {
      list := new NodeList();
      abortRequest := true;
    }

    /** msg_queue_put_private. */
    method Put(msg: Message) returns (ret: int)
      requires Valid()
      modifies list, list.repr
      ensures Valid() && ret == if abortRequest then -1 else 0
      ensures Items() == if abortRequest then old(Items()) else old(Items()) + [msg]
      ensures old(list.repr) <= list.repr && fresh(list.repr - old(list.repr))
    {
      if abortRequest { return -1; }
      list.Put(msg);
      ret := 0;
    }

    /** msg_queue_flush. */
    method Flush()
      requires Valid()
      modifies list, list.repr
      ensures Valid() && Items() == [] && list.allocCount == old(list.allocCount)
    {
      list.Flush();
    }

    /** msg_queue_abort. */
    method Abort()
      modifies this
      ensures abortRequest
    {
      abortRequest := true;
    }

    /** msg_queue_start. */
    method Start()
      requires Valid()
      modifies this, list, list.repr
      ensures Valid() && !abortRequest && Items() == old(Items()) + [Message(FFP_MSG_FLUSH, 0, 0)]
    {
      abortRequest := false;
      var _ := Put(Message(FFP_MSG_FLUSH, 0, 0));
    }

    /** One turn of msg_queue_get: 0 means that the queue is empty, and a blocking
        call waits and tries again. */
    method Get() returns (ret: int, msg: Message)
      requires Valid()
      modifies list, list.repr
      ensures Valid() && list.allocCount == old(list.allocCount)
      ensures ret == if abortRequest then -1 else if old(Items()) == [] then 0 else 1
      ensures if ret == 1 then old(Items()) == [msg] + Items() else Items() == old(Items())
      ensures list.repr == old(list.repr)
    {
      ret, msg := -1, Message(0, 0, 0);
      if abortRequest { return; }
      var first := list.Get();
      match first {
        case None => ret := 0;
        case Some(m) => ret, msg := 1, m;
      }
    }

    /** msg_queue_remove: exactly the messages of the kind go, the others keep their
        order, and no node is lost. */
    method Remove(what: int)
      requires Valid()
      modifies list, list.repr
      ensures Valid() && list.allocCount == old(list.allocCount)
      ensures Items() == if abortRequest then old(Items()) else Without(old(Items()), what)
      ensures list.repr == old(list.repr)
    {
      if !abortRequest && list.first != null {
        list.Remove((m: Message) => m.what == what);
      }
    }
  }
}
