/** How many requests of ijkplayer.c can wait in the message queue, in every
    interleaving of the callers, the message loop and the player's threads. */
module Coalescing {
  import opened Common
  import opened MessageQueues
  import opened Player

  /** The caller's section under mp->mutex, between two operations on the queue. */
  datatype Api =
    | Idle
    | RemoveStart(next: Option<int>)  // of ijkmp_start_l and ijkmp_pause_l, and of ijkmp_stop_l, which puts nothing
    | RemovePause(next: Option<int>)
    | PutStartOrPause(what: int)
    | RemoveSeek(msec: int)        // of ijkmp_seek_to_l
    | PutSeek(msec: int)

  /** `resumed` says that the read thread posted its one FFP_REQ_START
      (ff_ffplay.c:3337-3340). */
  datatype State = State(queue: seq<Message>, abort: bool, api: Api, resumed: bool)

  datatype Step =
    | Start | Pause | Stop | Seek(msec: int)
    | Run                          // the caller's next operation
    | Resume                       // the read thread's post
    | Post(msg: Message)           // any other post
    | Take                         // msg_queue_get
    | FlushAll                     // msg_queue_flush
    | Abort                        // msg_queue_abort

  /** After msg_queue_start. */
  function Init(): State {
    State([Message(FFP_MSG_FLUSH, 0, 0)], false, Idle, false)
  }

  function Put(s: State, msg: Message): State {
    s.(queue := if s.abort then s.queue else s.queue + [msg])
  }

  function Remove(s: State, what: int): State {
    s.(queue := if s.abort then s.queue else Without(s.queue, what))
  }

  predicate Enabled(s: State, step: Step) {
    match step
    case Start => s.api.Idle?
    case Pause => s.api.Idle?
    case Stop => s.api.Idle?
    case Seek(_) => s.api.Idle?
    case Resume => !s.resumed
    case Post(msg) => !IsRequest(msg.what)
    case _ => true
  }

  function RunApi(s: State): State {
    match s.api
    case Idle => s
    case RemoveStart(next) => Remove(s, FFP_REQ_START).(api := RemovePause(next))
    case RemovePause(next) => Remove(s, FFP_REQ_PAUSE).(api := if next.Some? then PutStartOrPause(next.value) else Idle)
    case PutStartOrPause(what) => Put(s, Message(what, 0, 0)).(api := Idle)
    case RemoveSeek(msec) => Remove(s, FFP_REQ_SEEK).(api := PutSeek(msec))
    case PutSeek(msec) => Put(s, Message(FFP_REQ_SEEK, msec, 0)).(api := Idle)
  }

  function Next(s: State, step: Step): State {
    match step
    case Start => s.(api := RemoveStart(Some(FFP_REQ_START)))
    case Pause => s.(api := RemoveStart(Some(FFP_REQ_PAUSE)))
    case Stop => s.(api := RemoveStart(None))
    case Seek(msec) => s.(api := RemoveSeek(msec))
    case Run => RunApi(s)
    case Resume => Put(s, Message(FFP_REQ_START, 0, 0)).(resumed := true)
    case Post(msg) => Put(s, msg)
    case Take => s.(queue := if s.abort || s.queue == [] then s.queue else s.queue[1..])
    case FlushAll => s.(queue := [])
    case Abort => s.(abort := true)
  }

  /** How many messages are of a kind. */
  function Count(msgs: seq<Message>, what: int): nat {
    if msgs == [] then 0
    else Count(msgs[..|msgs| - 1], what) + if msgs[|msgs| - 1].what == what then 1 else 0
  }

  lemma CountSnoc(msgs: seq<Message>, m: Message, what: int)
    ensures Count(msgs + [m], what) == Count(msgs, what) + if m.what == what then 1 else 0
  {
    assert (msgs + [m])[..|msgs|] == msgs;
  }

  lemma {:induction false} CountTail(msgs: seq<Message>, what: int)
    requires msgs != []
    ensures Count(msgs[1..], what) <= Count(msgs, what)
    decreases |msgs|
  {
    var k := |msgs| - 1;
    if k > 0 {
      CountTail(msgs[..k], what);
      assert msgs[1..][..k - 1] == msgs[..k][1..];
    }
  }

  /** Removing a kind leaves none of it and all of the others. */
  lemma {:induction false} CountWithout(msgs: seq<Message>, gone: int, what: int)
    ensures Count(Without(msgs, gone), what) == if what == gone then 0 else Count(msgs, what)
    decreases |msgs|
  {
    if msgs != [] {
      var k := |msgs| - 1;
      CountWithout(msgs[..k], gone, what);
      CountSnoc(Without(msgs[..k], gone), msgs[k], what);
      WithoutSnoc(msgs, gone);
      assert Without(msgs[..k], gone) + [] == Without(msgs[..k], gone);
    }
  }

  lemma WithoutSnoc(msgs: seq<Message>, gone: int)
    requires msgs != []
    ensures var k := |msgs| - 1;
      Without(msgs, gone) == Without(msgs[..k], gone) + if msgs[k].what == gone then [] else [msgs[k]]
  {
  }

  function StartsAndPauses(msgs: seq<Message>): nat {
    Count(msgs, FFP_REQ_START) + Count(msgs, FFP_REQ_PAUSE)
  }

  function Resumed(s: State): nat {
    if s.resumed then 1 else 0
  }

  predicate IsStartOrPause(what: int) {
    what == FFP_REQ_START || what == FFP_REQ_PAUSE
  }

  ghost predicate Inv(s: State) {
    var seeks, starts, both := Count(s.queue, FFP_REQ_SEEK), Count(s.queue, FFP_REQ_START), StartsAndPauses(s.queue);
    && seeks <= 1 && both <= 1 + Resumed(s)
    && (s.api.PutSeek? && !s.abort ==> seeks == 0)
    && (s.api.RemovePause? && !s.abort ==> starts <= Resumed(s))
    && (s.api.PutStartOrPause? && !s.abort ==> both <= Resumed(s))
    && ((s.api.RemoveStart? || s.api.RemovePause?) && s.api.next.Some? ==> IsStartOrPause(s.api.next.value))
    && (s.api.PutStartOrPause? ==> IsStartOrPause(s.api.what))
  }

  lemma PutCounts(s: State, msg: Message)
    ensures var s' := Put(s, msg);
      && Count(s'.queue, FFP_REQ_SEEK) == Count(s.queue, FFP_REQ_SEEK) + (if msg.what == FFP_REQ_SEEK && !s.abort then 1 else 0)
      && Count(s'.queue, FFP_REQ_START) == Count(s.queue, FFP_REQ_START) + (if msg.what == FFP_REQ_START && !s.abort then 1 else 0)
      && Count(s'.queue, FFP_REQ_PAUSE) == Count(s.queue, FFP_REQ_PAUSE) + (if msg.what == FFP_REQ_PAUSE && !s.abort then 1 else 0)
  {
    CountSnoc(s.queue, msg, FFP_REQ_SEEK);
    CountSnoc(s.queue, msg, FFP_REQ_START);
    CountSnoc(s.queue, msg, FFP_REQ_PAUSE);
  }

  lemma RemoveCounts(s: State, gone: int)
    ensures forall what :: Count(Remove(s, gone).queue, what) == if what == gone && !s.abort then 0 else Count(s.queue, what)
  {
    forall what
      ensures Count(Remove(s, gone).queue, what) == if what == gone && !s.abort then 0 else Count(s.queue, what)
    {
      CountWithout(s.queue, gone, what);
    }
  }

  lemma StepOk(s: State, step: Step)
    requires Inv(s) && Enabled(s, step)
    ensures Inv(Next(s, step))
  {
    match step {
      case Run => RunOk(s);
      case Resume => PutCounts(s, Message(FFP_REQ_START, 0, 0));
      case Post(msg) => PutCounts(s, msg);
      case Take =>
        if s.queue != [] {
          CountTail(s.queue, FFP_REQ_SEEK);
          CountTail(s.queue, FFP_REQ_START);
          CountTail(s.queue, FFP_REQ_PAUSE);
        }
      case _ =>
    }
    hide Count;
  }

  lemma RunOk(s: State)
    requires Inv(s)
    ensures Inv(RunApi(s))
  {
    match s.api {
      case Idle =>
      case RemoveStart(_) => RemoveCounts(s, FFP_REQ_START);
      case RemovePause(_) => RemoveCounts(s, FFP_REQ_PAUSE);
      case RemoveSeek(_) => RemoveCounts(s, FFP_REQ_SEEK);
      case PutStartOrPause(what) => PutCounts(s, Message(what, 0, 0));
      case PutSeek(msec) => PutCounts(s, Message(FFP_REQ_SEEK, msec, 0));
    }
    hide Count;
  }

  // ----- runs -----

  ghost predicate IsRun(states: seq<State>, steps: seq<Step>) {
    && |states| == |steps| + 1 && states[0] == Init()
    && forall k :: 0 <= k < |steps| ==> IsStep(states[k], steps[k], states[k + 1])
  }

  ghost predicate IsStep(s: State, step: Step, s': State) {
    Enabled(s, step) && s' == Next(s, step)
  }

  lemma {:induction false} RunInv(states: seq<State>, steps: seq<Step>, k: nat)
    requires IsRun(states, steps) && k < |states|
    ensures Inv(states[k])
    decreases k
  {
    if k == 0 {
      assert Init().queue[..0] == [];
    } else {
      RunInv(states, steps, k - 1);
      assert IsStep(states[k - 1], steps[k - 1], states[k]);
      StepOk(states[k - 1], steps[k - 1]);
      hide Inv, Next, Enabled;
    }
  }

  /** In every run at most one seek waits in the queue, and at most one request to
      start or to pause besides the one that the read thread posts itself. */
  lemma RequestsAreCoalesced(states: seq<State>, steps: seq<Step>, k: nat)
    requires IsRun(states, steps) && k < |states|
    ensures var s := states[k];
      && Count(s.queue, FFP_REQ_SEEK) <= 1
      && StartsAndPauses(s.queue) <= 1 + Resumed(s)
  {
    RunInv(states, steps, k);
  }

  /** The state after some operations of the caller that nobody disturbs. */
  function Undisturbed(s: State, operations: nat): State
    decreases operations
  {
    if operations == 0 then s else Undisturbed(Next(s, Run), operations - 1)
  }

  lemma UndisturbedIs(s: State, s': State, n: nat)
    requires RunApi(s) == s' && n > 0
    ensures Undisturbed(s, n) == Undisturbed(s', n - 1) && Undisturbed(s', 0) == s'
  {
  }

  /** An undisturbed start or pause leaves exactly its own request of the kinds it
      replaces, last in the queue, and everything else as it was. */
  lemma CallReplaces(s: State, start: bool)
    requires !s.abort && s.api.Idle?
    ensures var what := if start then FFP_REQ_START else FFP_REQ_PAUSE;
      var s' := Undisturbed(Next(s, if start then Start else Pause), 3);
      && s'.queue == MediaPlayer.Replaced(s.queue, Message(what, 0, 0)) && s'.api.Idle?
      && StartsAndPauses(s'.queue) == 1 && Count(s'.queue, what) == 1
  {
    var what := if start then FFP_REQ_START else FFP_REQ_PAUSE;
    var s1 := Remove(s, FFP_REQ_START);
    var s2 := Remove(s1, FFP_REQ_PAUSE);
    RemoveCounts(s, FFP_REQ_START);
    RemoveCounts(s1, FFP_REQ_PAUSE);
    PutCounts(s2, Message(what, 0, 0));
    hide Count, Without, Undisturbed;
    UndisturbedIs(s.(api := RemoveStart(Some(what))), s1.(api := RemovePause(Some(what))), 3);
    UndisturbedIs(s1.(api := RemovePause(Some(what))), s2.(api := PutStartOrPause(what)), 2);
    UndisturbedIs(s2.(api := PutStartOrPause(what)), Put(s2, Message(what, 0, 0)).(api := Idle), 1);
  }

  /** An undisturbed seek replaces the older one, and nothing else. */
  lemma SeekReplaces(s: State, msec: int)
    requires !s.abort && s.api.Idle?
    ensures var s' := Undisturbed(Next(s, Seek(msec)), 2);
      && s'.queue == MediaPlayer.Replaced(s.queue, Message(FFP_REQ_SEEK, msec, 0)) && s'.api.Idle?
      && Count(s'.queue, FFP_REQ_SEEK) == 1 && StartsAndPauses(s'.queue) == StartsAndPauses(s.queue)
  {
    var s1 := Remove(s, FFP_REQ_SEEK);
    RemoveCounts(s, FFP_REQ_SEEK);
    PutCounts(s1, Message(FFP_REQ_SEEK, msec, 0));
    hide Count, Without, Undisturbed;
    UndisturbedIs(s.(api := RemoveSeek(msec)), s1.(api := PutSeek(msec)), 2);
    UndisturbedIs(s1.(api := PutSeek(msec)), Put(s1, Message(FFP_REQ_SEEK, msec, 0)).(api := Idle), 1);
  }

  /** An undisturbed stop leaves no request to start or to pause behind. */
  lemma StopClears(s: State)
    requires !s.abort && s.api.Idle?
    ensures var s' := Undisturbed(Next(s, Stop), 2);
      s'.api.Idle? && StartsAndPauses(s'.queue) == 0 && Count(s'.queue, FFP_REQ_SEEK) == Count(s.queue, FFP_REQ_SEEK)
  {
    var s1 := Remove(s, FFP_REQ_START);
    RemoveCounts(s, FFP_REQ_START);
    RemoveCounts(s1, FFP_REQ_PAUSE);
    hide Count, Without, Undisturbed;
    UndisturbedIs(s.(api := RemoveStart(None)), s1.(api := RemovePause(None)), 2);
    UndisturbedIs(s1.(api := RemovePause(None)), Remove(s1, FFP_REQ_PAUSE).(api := Idle), 1);
  }
}
