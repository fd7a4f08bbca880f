/** The decoder loop of ff_ffplay.c against one producer, as a state machine:
    which packets a returned frame can come from. */
module Decoder {
  import opened Common
  import opened PacketQueues

  /** A packet in the queue; `at` is its place in the producer's log. */
  datatype Queued = Queued(pkt: Packet, serial: int, at: nat)

  /** `ret` of decoder_decode_frame. */
  datatype Ret = Again | Eof | Good | Bad

  /** What the codec does: a frame, the end, nothing yet, an error. */
  datatype Reply = Frame | End | Nothing | Failure

  datatype Pc =
    | Idle                    // outside decoder_decode_frame
    | Top                     // at the comparison of the serials
    | Receive                 // in the inner loop
    | Fetch                   // about to take a packet
    | Got(p: Queued)          // before the second comparison
    | Use(p: Queued)

  /** The queue is a sequence here; that the linked list is one is shown by
      PacketQueues. `log` is all the producer ever put; `dropped` says that it is
      between packet_queue_flush and putting flush_pkt; `carried` that a subtitle
      was decoded but the first comparison failed afterwards. */
  datatype State = State(
    queue: seq<Queued>, serial: int, abort: bool, log: seq<Item>, dropped: bool,
    codec: seq<Queued>, pktSerial: int, finished: int, pending: Option<Queued>,
    ret: Ret, from: Option<Queued>, carried: bool, pc: Pc)

  datatype Mode = AudioVideo | Subtitle

  /** What decoder_decode_frame returns: nothing new, an abort, the end of an
      epoch, or a frame and the packets it may come from. */
  datatype Event = Silent | Aborted | Ended(epoch: int) | Decoded(sources: seq<Queued>, epoch: int)

  datatype Step =
    | PutPacket(pkt: Packet)
    | PutFlush
    | DropAll                 // packet_queue_flush
    | Abort
    | Call
    | Run(reply: Reply)

  /** After packet_queue_start and decoder_init. */
  function Init(): State {
    State([Queued(FLUSH_PKT, 1, 0)], 1, false, [Item(FLUSH_PKT, 1)], false,
          [], -1, 0, None, Again, None, false, Idle)
  }

  function Put(s: State, pkt: Packet): State {
    var serial := s.serial + if pkt.kind.FlushMark? then 1 else 0;
    if s.abort then s
    else s.(queue := s.queue + [Queued(pkt, serial, |s.log|)], serial := serial, log := s.log + [Item(pkt, serial)])
  }

  function Return(s: State, e: Event): (State, Event) {
    (s.(pc := Idle), e)
  }

  /** One turn of the inner loop (lines 573-613). */
  function RunReceive(m: Mode, s: State, reply: Reply): (State, Event) {
    if s.abort then Return(s, Aborted)
    else
      var ret := if m.Subtitle? then s.ret
                 else match reply case Frame => Good case End => Eof case Nothing => Again case Failure => Bad;
      var s1 := s.(ret := ret);
      match ret
      case Eof => Return(s1.(finished := s.pktSerial, codec := []), Ended(s.pktSerial))
      case Good =>
        var sources := if m.AudioVideo? then s.codec else if s.from.Some? then [s.from.value] else [];
        Return(s1, Decoded(sources, s.pktSerial))
      case Again => (s1.(pc := Fetch), Silent)
      case Bad => (s1, Silent)
  }

  /** Lines 617-625, with packet_queue_get_or_buffering. */
  function RunFetch(buffering: bool, s: State): (State, Event) {
    if s.pending.Some? then (s.(pending := None, pc := Got(s.pending.value)), Silent)
    else if s.abort then Return(s, Aborted)
    else if s.queue == [] then (s, Silent)
    else
      var p := s.queue[0];
      (s.(queue := s.queue[1..], pktSerial := p.serial,
          pc := if buffering && s.finished == p.serial then Fetch else Got(p)), Silent)
  }

  /** Lines 628-654. */
  function RunUse(m: Mode, s: State, p: Queued, reply: Reply): State {
    if p.pkt.kind.FlushMark? then
      s.(codec := [], finished := 0, pc := Top)
    else if m.AudioVideo? then
      // avcodec_send_packet: the codec takes the packet, or asks to try again
      if reply.Nothing? then s.(pending := Some(p), pc := Top) else s.(codec := s.codec + [p], pc := Top)
    else
      var got := reply.Frame?;
      s.(codec := s.codec + [p], pc := Top, carried := false,
         pending := if got && p.pkt.kind.Null? then Some(p) else s.pending,
         from := Some(p),
         ret := if reply.Failure? then Again else if got then Good else if p.pkt.kind.Null? then Eof else Again)
  }

  function RunDecoder(m: Mode, buffering: bool, s: State, reply: Reply): (State, Event) {
    match s.pc
    case Idle => (s, Silent)
    case Top =>
      (s.(pc := if s.serial == s.pktSerial then Receive else Fetch,
          carried := s.carried || (s.serial != s.pktSerial && s.ret != Again)), Silent)
    case Receive => RunReceive(m, s, reply)
    case Fetch => RunFetch(buffering, s)
    case Got(p) => (s.(pc := if s.serial != s.pktSerial then Fetch else Use(p)), Silent)
    case Use(p) => (RunUse(m, s, p, reply), Silent)
  }

  predicate Enabled(s: State, step: Step) {
    match step
    case PutPacket(pkt) => !s.dropped && !pkt.kind.FlushMark?
    case Call => s.pc.Idle?
    case _ => true
  }

  function Next(m: Mode, buffering: bool, s: State, step: Step): (State, Event) {
    match step
    case PutPacket(pkt) => (Put(s, pkt), Silent)
    case PutFlush => (Put(s, FLUSH_PKT).(dropped := s.dropped && s.abort), Silent)
    case DropAll => (s.(queue := [], dropped := true), Silent)
    case Abort => (s.(abort := true), Silent)
    case Call => (s.(pc := Top, ret := Again, carried := false), Silent)
    case Run(reply) => RunDecoder(m, buffering, s, reply)
  }

  // ----- the invariant -----

  predicate IsFlush(p: Queued) {
    p.pkt.kind.FlushMark?
  }

  /** The serial before the `i`th queued packet. */
  function Before(queue: seq<Queued>, first: int, i: int): int {
    if 0 < i <= |queue| then queue[i - 1].serial else first
  }

  /** A new serial begins with a flush packet, and only so. */
  ghost predicate InOrder(queue: seq<Queued>, before: int, serial: int) {
    && before <= serial && 1 <= serial
    && forall i :: 0 <= i < |queue| ==>
      && 1 <= queue[i].serial <= serial
      && Follows(Before(queue, before, i), queue[i].serial, IsFlush(queue[i]))
  }

  predicate Follows(before: int, serial: int, flush: bool) {
    if flush then before < serial else before == serial
  }

  function Tail(queue: seq<Queued>, before: int): int {
    Before(queue, before, |queue|)
  }

  function LogBefore(log: seq<Item>, i: int): int {
    if 0 < i <= |log| then log[i - 1].serial else 0
  }

  /** The log tells the same story from the start. */
  ghost predicate LogOk(log: seq<Item>, serial: int) {
    && log != [] && log[|log| - 1].serial == serial
    && log[0] == Item(FLUSH_PKT, 1)
    && forall i :: 0 < i < |log| ==> Follows(LogBefore(log, i), log[i].serial, log[i].pkt.kind.FlushMark?)
  }

  ghost predicate Logged(log: seq<Item>, p: Queued) {
    p.at < |log| && log[p.at] == Item(p.pkt, p.serial)
  }

  ghost predicate AllLogged(log: seq<Item>, ps: seq<Queued>) {
    forall i :: 0 <= i < |ps| ==> Logged(log, ps[i])
  }

  /** Everything in the codec belongs to the epoch. */
  ghost predicate Clean(codec: seq<Queued>, epoch: int) {
    forall i :: 0 <= i < |codec| ==> codec[i].serial == epoch && !IsFlush(codec[i])
  }

  predicate FlushInHand(pc: Pc) {
    (pc.Got? || pc.Use?) && IsFlush(pc.p)
  }

  ghost predicate CodecInv(s: State) {
    && (Clean(s.codec, s.pktSerial) || s.pktSerial < s.serial || FlushInHand(s.pc))
    && (s.pc.Receive? || (s.pc.Use? && !IsFlush(s.pc.p)) ==> Clean(s.codec, s.pktSerial))
    && AllLogged(s.log, s.codec)
  }

  ghost predicate HandInv(s: State) {
    && (s.pc.Got? || s.pc.Use? ==> s.pc.p.serial == s.pktSerial && Logged(s.log, s.pc.p) && s.pending.None?)
    && (s.pending.Some? ==> s.pending.value.serial == s.pktSerial && !IsFlush(s.pending.value) && Logged(s.log, s.pending.value))
  }

  /** What `ret` says of the last subtitle packet is about the current epoch,
      unless it was carried on. */
  ghost predicate SubInv(s: State) {
    var known := (s.ret.Good? || s.ret.Eof?) && !s.pc.Idle?;
    && (s.from.Some? ==> s.from.value.serial <= s.pktSerial && !IsFlush(s.from.value) && Logged(s.log, s.from.value))
    && s.ret != Bad
    && (known ==> s.from.Some?)
    && (known && !s.carried ==> (s.pc.Top? || s.pc.Receive?) && s.from.value.serial == s.pktSerial)
    && (known && s.carried ==> s.from.value.serial < s.pktSerial || s.pktSerial < s.serial)
    && (known && s.carried && s.pc.Receive? ==> s.from.value.serial < s.pktSerial)
  }

  ghost predicate Inv(m: Mode, s: State) {
    && InOrder(s.queue, s.pktSerial, s.serial)
    && (!s.dropped && !s.abort ==> Tail(s.queue, s.pktSerial) == s.serial)
    && LogOk(s.log, s.serial) && AllLogged(s.log, s.queue)
    && CodecInv(s) && HandInv(s)
    && s.finished <= Max(s.pktSerial, 0)
    && (m.Subtitle? ==> SubInv(s))
  }

  lemma InitInv(m: Mode)
    ensures Inv(m, Init())
  {
    assert Init().queue[0].pkt == FLUSH_PKT;
    assert IsFlush(Init().queue[0]);
  }

  // ----- steps of the producer -----

  lemma InOrderSnoc(queue: seq<Queued>, before: int, serial: int, p: Queued)
    requires InOrder(queue, before, serial) && serial <= p.serial
    requires Follows(Tail(queue, before), p.serial, IsFlush(p))
    ensures InOrder(queue + [p], before, p.serial) && Tail(queue + [p], before) == p.serial
  {
    forall i | 0 <= i <= |queue|
      ensures Before(queue + [p], before, i) == Before(queue, before, i)
    {
    }
  }

  lemma TailBound(queue: seq<Queued>, before: int, serial: int)
    requires InOrder(queue, before, serial)
    ensures Tail(queue, before) <= serial
  {
  }

  lemma LogSnoc(log: seq<Item>, serial: int, item: Item)
    requires LogOk(log, serial) && Follows(serial, item.serial, item.pkt.kind.FlushMark?)
    ensures LogOk(log + [item], item.serial)
    ensures Logged(log + [item], Queued(item.pkt, item.serial, |log|))
    ensures forall p :: Logged(log, p) ==> Logged(log + [item], p)
  {
    forall i | 0 < i <= |log|
      ensures LogBefore(log + [item], i) == log[i - 1].serial
    {
    }
  }

  lemma AllLoggedKept(log: seq<Item>, log': seq<Item>, ps: seq<Queued>)
    requires AllLogged(log, ps) && forall p :: Logged(log, p) ==> Logged(log', p)
    ensures AllLogged(log', ps)
    ensures forall p :: Logged(log', p) ==> AllLogged(log', ps + [p])
  {
    hide Logged;
  }

  lemma PutOk(m: Mode, s: State, pkt: Packet)
    requires Inv(m, s) && (pkt.kind.FlushMark? || !s.dropped)
    ensures Inv(m, Put(s, pkt).(dropped := s.dropped && s.abort))
  {
    var s' := Put(s, pkt);
    if !s.abort {
      var item := Item(pkt, s'.serial);
      TailBound(s.queue, s.pktSerial, s.serial);
      InOrderSnoc(s.queue, s.pktSerial, s.serial, Queued(pkt, s'.serial, |s.log|));
      LogSnoc(s.log, s.serial, item);
      AllLoggedKept(s.log, s'.log, s.queue);
      AllLoggedKept(s.log, s'.log, s.codec);
    }
    hide LogOk, Logged, InOrder, AllLogged, Clean, Tail;
  }

  lemma ProducerOk(m: Mode, buffering: bool, s: State, step: Step)
    requires Inv(m, s) && Enabled(s, step) && (step.DropAll? || step.Abort? || step.Call?)
    ensures Inv(m, Next(m, buffering, s, step).0)
  {
    hide LogOk, Logged, Clean;
  }

  // ----- steps of the decoder -----

  /** What a return may say. */
  ghost predicate EventOk(m: Mode, s: State, e: Event) {
    match e
    case Decoded(sources, epoch) =>
      && epoch == s.pktSerial && AllLogged(s.log, sources)
      && (Clean(sources, epoch) <==> m.AudioVideo? || !s.carried)
    case Ended(epoch) =>
      && epoch == s.pktSerial
      && (m.AudioVideo? ==> Clean(s.codec, epoch))
      && (m.Subtitle? ==> s.from.Some? && (s.from.value.serial == epoch <==> !s.carried))
    case _ => true
  }

  lemma TopOk(m: Mode, buffering: bool, s: State, reply: Reply)
    requires Inv(m, s) && s.pc.Top?
    ensures Inv(m, RunDecoder(m, buffering, s, reply).0)
  {
    assert s.pktSerial <= s.serial;
    hide LogOk, Logged, Clean, InOrder, AllLogged;
  }

  lemma ReceiveOk(m: Mode, s: State, reply: Reply)
    requires Inv(m, s) && s.pc.Receive?
    ensures var (s', e) := RunReceive(m, s, reply);
      Inv(m, s') && EventOk(m, s, e)
  {
    if m.Subtitle? {
      ReceiveSubtitle(s, reply);
    } else {
      hide LogOk, Logged, InOrder;
    }
  }

  lemma ReceiveSubtitle(s: State, reply: Reply)
    requires Inv(Subtitle, s) && s.pc.Receive?
    ensures var (s', e) := RunReceive(Subtitle, s, reply);
      Inv(Subtitle, s') && EventOk(Subtitle, s, e)
  {
    hide Inv, EventOk, RunReceive;
    if s.ret.Eof? && !s.abort {
      ReceiveEnd(s, reply);
    } else if s.ret.Good? && !s.abort {
      ReceiveFrame(s, reply);
    } else {
      ReceiveNothing(s, reply);
    }
  }

  lemma ReceiveFrame(s: State, reply: Reply)
    requires Inv(Subtitle, s) && s.pc.Receive? && s.ret.Good? && !s.abort
    ensures var (s', e) := RunReceive(Subtitle, s, reply);
      Inv(Subtitle, s') && EventOk(Subtitle, s, e)
  {
    assert s.from.Some? by {
      hide LogOk, Logged, InOrder, Clean, CodecInv, HandInv;
    }
    CleanOne(s.from.value, s.pktSerial);
    assert RunReceive(Subtitle, s, reply) == (s.(pc := Idle), Decoded([s.from.value], s.pktSerial));
    hide LogOk, Logged, InOrder, Clean, RunReceive;
  }

  lemma ReceiveNothing(s: State, reply: Reply)
    requires Inv(Subtitle, s) && s.pc.Receive? && (s.abort || s.ret.Again? || s.ret.Bad?)
    ensures var (s', e) := RunReceive(Subtitle, s, reply);
      Inv(Subtitle, s') && EventOk(Subtitle, s, e)
  {
    hide LogOk, Logged, InOrder, Clean, AllLogged;
  }

  lemma ReceiveEnd(s: State, reply: Reply)
    requires Inv(Subtitle, s) && s.pc.Receive? && s.ret.Eof? && !s.abort
    ensures var (s', e) := RunReceive(Subtitle, s, reply);
      Inv(Subtitle, s') && EventOk(Subtitle, s, e)
  {
    assert RunReceive(Subtitle, s, reply) ==
      (s.(finished := s.pktSerial, codec := [], pc := Idle), Ended(s.pktSerial));
    hide LogOk, Logged, InOrder, RunReceive;
  }

  lemma CleanOne(p: Queued, epoch: int)
    requires !IsFlush(p)
    ensures Clean([p], epoch) <==> p.serial == epoch
  {
    assert [p][0] == p;
  }

  lemma FetchOk(m: Mode, buffering: bool, s: State)
    requires Inv(m, s) && s.pc.Fetch?
    ensures Inv(m, RunFetch(buffering, s).0)
  {
    hide LogOk, Logged;
    if s.pending.None? && !s.abort && s.queue != [] {
      assert s.queue[0].serial == s.pktSerial || IsFlush(s.queue[0]);
      TailKept(s.queue, s.pktSerial, s.serial);
      hide InOrder, Tail;
    }
  }

  lemma TailKept(queue: seq<Queued>, before: int, serial: int)
    requires InOrder(queue, before, serial) && queue != []
    ensures InOrder(queue[1..], queue[0].serial, serial)
    ensures Tail(queue[1..], queue[0].serial) == Tail(queue, before)
    ensures before <= queue[0].serial <= serial
  {
  }

  lemma GotOk(m: Mode, buffering: bool, s: State, reply: Reply)
    requires Inv(m, s) && s.pc.Got?
    ensures Inv(m, RunDecoder(m, buffering, s, reply).0)
  {
    assert s.pktSerial <= s.serial;
    hide LogOk, Logged, Clean, InOrder, AllLogged;
  }

  lemma UseOk(m: Mode, s: State, reply: Reply)
    requires Inv(m, s) && s.pc.Use?
    ensures Inv(m, RunUse(m, s, s.pc.p, reply))
  {
    hide LogOk, Logged, InOrder;
  }

  /** Every step of the producer and of the decoder, in every interleaving, keeps
      the invariant, and what is returned is of the decoder's epoch. */
  lemma StepOk(m: Mode, buffering: bool, s: State, step: Step)
    requires Inv(m, s) && Enabled(s, step)
    ensures var (s', e) := Next(m, buffering, s, step);
      Inv(m, s') && EventOk(m, s, e)
  {
    hide Inv;
    match step {
      case PutPacket(pkt) => PutOk(m, s, pkt); assert Put(s, pkt) == Put(s, pkt).(dropped := s.dropped && s.abort) by { PutDropped(s, pkt); }
      case PutFlush => PutOk(m, s, FLUSH_PKT);
      case Run(reply) =>
        match s.pc {
          case Top => TopOk(m, buffering, s, reply);
          case Receive => ReceiveOk(m, s, reply);
          case Fetch => FetchOk(m, buffering, s);
          case Got(_) => GotOk(m, buffering, s, reply);
          case Use(_) => UseOk(m, s, reply);
          case Idle =>
        }
      case _ => ProducerOk(m, buffering, s, step);
    }
  }

  lemma PutDropped(s: State, pkt: Packet)
    requires !s.dropped
    ensures Put(s, pkt) == Put(s, pkt).(dropped := s.dropped && s.abort)
  {
  }

  // ----- runs -----

  ghost predicate IsRun(m: Mode, buffering: bool, states: seq<State>, steps: seq<Step>) {
    && |states| == |steps| + 1 && states[0] == Init()
    && forall k :: 0 <= k < |steps| ==> IsStep(m, buffering, states[k], steps[k], states[k + 1])
  }

  ghost predicate IsStep(m: Mode, buffering: bool, s: State, step: Step, s': State) {
    Enabled(s, step) && s' == Next(m, buffering, s, step).0
  }

  lemma {:induction false} RunInv(m: Mode, buffering: bool, states: seq<State>, steps: seq<Step>, k: nat)
    requires IsRun(m, buffering, states, steps) && k < |states|
    ensures Inv(m, states[k])
    decreases k
  {
    hide Inv, Next, Enabled;
    if k == 0 {
      InitInv(m);
    } else {
      RunInv(m, buffering, states, steps, k - 1);
      assert IsStep(m, buffering, states[k - 1], steps[k - 1], states[k]);
      StepOk(m, buffering, states[k - 1], steps[k - 1]);
    }
  }

  /** `log[i]` was queued in the epoch that the flush packet at `f` started. */
  ghost predicate SinceFlush(log: seq<Item>, f: nat, i: nat, epoch: int) {
    && f < i < |log|
    && log[f].pkt.kind.FlushMark? && log[f].serial == epoch
    && forall j :: f < j <= i ==> !log[j].pkt.kind.FlushMark? && log[j].serial == epoch
  }

  ghost predicate OfEpoch(log: seq<Item>, i: nat, epoch: int) {
    exists f :: SinceFlush(log, f, i, epoch)
  }

  lemma {:induction false} FlushBefore(log: seq<Item>, serial: int, i: nat) returns (f: nat)
    requires LogOk(log, serial) && i < |log| && !log[i].pkt.kind.FlushMark?
    ensures SinceFlush(log, f, i, log[i].serial)
    decreases i
  {
    assert i > 0 && log[i - 1].serial == log[i].serial;
    if log[i - 1].pkt.kind.FlushMark? {
      f := i - 1;
    } else {
      f := FlushBefore(log, serial, i - 1);
    }
  }

  /** Audio and video: a frame that is returned comes only from packets queued
      after the flush packet that started the decoder's epoch, and before the
      next one. No packet from before a seek or a discontinuity is in the codec. */
  lemma FramesOfTheEpoch(buffering: bool, states: seq<State>, steps: seq<Step>, k: nat)
    requires IsRun(AudioVideo, buffering, states, steps) && k < |steps|
    ensures var s := states[k];
      match Next(AudioVideo, buffering, s, steps[k]).1
      case Decoded(sources, epoch) =>
        epoch == s.pktSerial && forall p :: p in sources ==> OfEpoch(s.log, p.at, epoch)
      case Ended(epoch) =>
        epoch == s.pktSerial && forall j :: 0 <= j < |s.codec| ==> s.codec[j].serial == epoch
      case _ => true
  {
    RunInv(AudioVideo, buffering, states, steps, k);
    var s := states[k];
    assert IsStep(AudioVideo, buffering, s, steps[k], states[k + 1]);
    StepOk(AudioVideo, buffering, s, steps[k]);
    var e := Next(AudioVideo, buffering, s, steps[k]).1;
    LogOf(AudioVideo, s);
    hide Next, Inv, LogOk, Enabled, SinceFlush;
    if e.Decoded? {
      forall p | p in e.sources
        ensures OfEpoch(s.log, p.at, e.epoch)
      {
        assert Logged(s.log, p) && !IsFlush(p) && p.serial == e.epoch;
        var f := FlushBefore(s.log, s.serial, p.at);
      }
    }
  }

  lemma LogOf(m: Mode, s: State)
    requires Inv(m, s)
    ensures LogOk(s.log, s.serial)
  {
  }

  /** Subtitles: what is returned, a subtitle or the end of an epoch, is of the
      decoder's epoch exactly when the comparison of the serials that follows the
      decoding of the packet succeeded. */
  lemma SubtitlesExactly(buffering: bool, states: seq<State>, steps: seq<Step>, k: nat)
    requires IsRun(Subtitle, buffering, states, steps) && k < |steps|
    ensures var s := states[k];
      match Next(Subtitle, buffering, s, steps[k]).1
      case Decoded(sources, epoch) =>
        epoch == s.pktSerial && |sources| == 1 && (sources[0].serial == epoch <==> !s.carried)
      case Ended(epoch) =>
        epoch == s.pktSerial && s.from.Some? && (s.from.value.serial == epoch <==> !s.carried)
      case _ => true
  {
    RunInv(Subtitle, buffering, states, steps, k);
    assert IsStep(Subtitle, buffering, states[k], steps[k], states[k + 1]);
    SubtitleHere(buffering, states[k], steps[k]);
    hide Next, Inv, Enabled;
  }

  lemma SubtitleHere(buffering: bool, s: State, step: Step)
    requires Inv(Subtitle, s) && Enabled(s, step)
    ensures match Next(Subtitle, buffering, s, step).1
      case Decoded(sources, epoch) =>
        epoch == s.pktSerial && |sources| == 1 && (sources[0].serial == epoch <==> !s.carried)
      case Ended(epoch) =>
        epoch == s.pktSerial && s.from.Some? && (s.from.value.serial == epoch <==> !s.carried)
      case _ => true
  {
    hide Next, Inv, Enabled, AllLogged, Logged;
    StepOk(Subtitle, buffering, s, step);
    SubtitleSource(buffering, s, step);
    var e := Next(Subtitle, buffering, s, step).1;
    if e.Decoded? && Clean(e.sources, e.epoch) {
      assert e.sources[0].serial == e.epoch;
    }
  }

  lemma SubtitleSource(buffering: bool, s: State, step: Step)
    requires Inv(Subtitle, s) && Enabled(s, step)
    ensures var e := Next(Subtitle, buffering, s, step).1;
      e.Decoded? ==> |e.sources| == 1 && !IsFlush(e.sources[0])
  {
    hide LogOk, Logged, InOrder, Clean;
  }

  /** No flush packet was put since the log had `n` entries. */
  predicate NoFlush(log: seq<Item>, n: nat) {
    forall f :: n <= f < |log| ==> !log[f].pkt.kind.FlushMark?
  }

  /** What the producer alone leaves alone, and how the serial tells what it did. */
  ghost predicate ProducedOnly(s: State, s': State) {
    && s'.pc == s.pc && s'.ret == s.ret && s'.pktSerial == s.pktSerial && s'.carried == s.carried
    && s.log <= s'.log && s.serial <= s'.serial
    && (s'.serial == s.serial <==> NoFlush(s'.log, |s.log|))
  }

  lemma ProducedOnlyTrans(s: State, t: State, u: State)
    requires ProducedOnly(s, t) && ProducedOnly(t, u)
    ensures ProducedOnly(s, u)
  {
    if NoFlush(u.log, |s.log|) {
      forall f | |s.log| <= f < |t.log|
        ensures !t.log[f].pkt.kind.FlushMark?
      {
        assert t.log[f] == u.log[f];
      }
    }
    if s.serial == u.serial {
      forall f | |s.log| <= f < |u.log|
        ensures !u.log[f].pkt.kind.FlushMark?
      {
        if f < |t.log| {
          assert t.log[f] == u.log[f];
        }
      }
    }
  }

  lemma ProducerStep(m: Mode, buffering: bool, s: State, step: Step)
    requires Enabled(s, step) && !step.Run? && !s.pc.Idle?
    ensures ProducedOnly(s, Next(m, buffering, s, step).0)
  {
    if step.PutFlush? && !s.abort {
      assert Put(s, FLUSH_PKT).log[|s.log|].pkt == FLUSH_PKT;
    }
  }

  lemma {:induction false} ProducerSteps(m: Mode, buffering: bool, states: seq<State>, steps: seq<Step>, a: nat, b: nat)
    requires IsRun(m, buffering, states, steps) && a <= b < |states| && !states[a].pc.Idle?
    requires forall k :: a <= k < b ==> !steps[k].Run?
    ensures ProducedOnly(states[a], states[b])
    decreases b
  {
    hide Next, Enabled;
    if a < b {
      ProducerSteps(m, buffering, states, steps, a, b - 1);
      assert IsStep(m, buffering, states[b - 1], steps[b - 1], states[b]);
      ProducerStep(m, buffering, states[b - 1], steps[b - 1]);
      ProducedOnlyTrans(states[a], states[b - 1], states[b]);
    }
    hide ProducedOnly;
  }

  /** When a subtitle is carried on. The decoder compares the serials at `g`,
      decodes the packet at `i` and compares the serials again at `j`; before,
      between and after, the producer does what it likes. The subtitle is carried
      on exactly when it is one, or an end, and a flush packet was put meanwhile. */
  lemma CarriedExactly(buffering: bool, states: seq<State>, steps: seq<Step>, g: nat, i: nat, j: nat)
    requires IsRun(Subtitle, buffering, states, steps) && g < i < j < |steps|
    requires steps[g].Run? && steps[i].Run? && steps[j].Run?
    requires forall k :: g < k < j && k != i ==> !steps[k].Run?
    requires states[g].pc.Got? && !IsFlush(states[g].pc.p) && states[g + 1].pc.Use?
    ensures states[j].pc.Top?
    ensures states[j + 1].carried <==> states[j].ret != Again && !NoFlush(states[j].log, |states[g].log|)
  {
    ProducerSteps(Subtitle, buffering, states, steps, g + 1, i);
    assert IsStep(Subtitle, buffering, states[g], steps[g], states[g + 1]);
    assert IsStep(Subtitle, buffering, states[i], steps[i], states[i + 1]);
    assert IsStep(Subtitle, buffering, states[j], steps[j], states[j + 1]);
    hide IsRun, ProducedOnly;
    GotStep(buffering, states[g], steps[g]);
    UseStep(buffering, states[i], steps[i]);
    ProducerSteps(Subtitle, buffering, states, steps, i + 1, j);
    SinceGot(states[g], states[g + 1], states[i], states[i + 1], states[j]);
  }

  lemma GotStep(buffering: bool, s: State, step: Step)
    requires s.pc.Got? && step.Run? && Next(Subtitle, buffering, s, step).0.pc.Use?
    ensures var s' := Next(Subtitle, buffering, s, step).0;
      s' == s.(pc := Use(s.pc.p)) && s.serial == s.pktSerial
  {
  }

  lemma UseStep(buffering: bool, s: State, step: Step)
    requires s.pc.Use? && !IsFlush(s.pc.p) && step.Run?
    ensures var s' := Next(Subtitle, buffering, s, step).0;
      s'.pc.Top? && !s'.carried && s'.log == s.log && s'.serial == s.serial && s'.pktSerial == s.pktSerial
  {
  }

  lemma SinceGot(s: State, used: State, before: State, after: State, s': State)
    requires used.log == s.log && used.serial == s.serial && ProducedOnly(used, before) && ProducedOnly(after, s')
    requires after.log == before.log && after.serial == before.serial
    ensures s'.serial == s.serial <==> NoFlush(s'.log, |s.log|)
  {
    var start := used.(pc := after.pc, ret := after.ret, pktSerial := after.pktSerial, carried := after.carried);
    assert ProducedOnly(start, after) && ProducedOnly(after, s');
    ProducedOnlyTrans(start, after, s');
  }

  // ----- a stale subtitle -----

  ghost predicate Leads(m: Mode, s: State, steps: seq<Step>, s': State)
    decreases |steps|
  {
    if steps == [] then s == s'
    else Enabled(s, steps[0]) && Leads(m, Next(m, false, s, steps[0]).0, steps[1..], s')
  }

  lemma Leads3(m: Mode, s: State, a: Step, b: Step, d: Step, s': State)
    requires Enabled(s, a)
    requires var s1 := Next(m, false, s, a).0; Enabled(s1, b) && var s2 := Next(m, false, s1, b).0; Enabled(s2, d) && Next(m, false, s2, d).0 == s'
    ensures Leads(m, s, [a, b, d], s')
  {
    hide Next, Enabled;
    var s1 := Next(m, false, s, a).0;
    var s2 := Next(m, false, s1, b).0;
    assert [d][1..] == [] && [b, d][1..] == [d] && [a, b, d][1..] == [b, d];
    assert Leads(m, s2, [d], s');
    assert Leads(m, s1, [b, d], s');
  }

  lemma {:induction false} LeadsOn(m: Mode, s: State, a: seq<Step>, s': State, b: seq<Step>, s'': State)
    requires Leads(m, s, a, s') && Leads(m, s', b, s'')
    ensures Leads(m, s, a + b, s'')
    decreases |a|
  {
    hide Next, Enabled;
    if a == [] {
      assert a + b == b;
    } else {
      assert (a + b)[1..] == a[1..] + b;
      LeadsOn(m, Next(m, false, s, a[0]).0, a[1..], s', b, s'');
    }
  }

  const RUN := Run(Nothing)

  /** A subtitle of the first epoch, at place 1 of the log, and the flush packet
      that starts the second one. */
  const SUBTITLE := Queued(Packet(Data, 7, 40), 1, 1)
  const MARK := Queued(FLUSH_PKT, 2, 2)

  /** The decoder waits for a packet of the first epoch. */
  function Started(): State {
    Init().(queue := [], pktSerial := 1, pc := Fetch)
  }

  /** A seek came while the subtitle was decoded. */
  function Caught(): State {
    Started().(pc := Top, ret := Good, from := Some(SUBTITLE), codec := [SUBTITLE], queue := [MARK], serial := 2,
               log := [Item(FLUSH_PKT, 1), Item(SUBTITLE.pkt, 1), Item(FLUSH_PKT, 2)])
  }

  lemma LegStart()
    ensures Leads(Subtitle, Init(), [Call, RUN, RUN] + ([RUN, RUN, RUN] + [RUN]), Started())
  {
    hide Leads;
    var s1 := Init().(queue := [], pktSerial := 1, pc := Got(Queued(FLUSH_PKT, 1, 0)));
    var s2 := s1.(pc := Receive);
    Leads3(Subtitle, Init(), Call, RUN, RUN, s1);
    Leads3(Subtitle, s1, RUN, RUN, RUN, s2);
    LegFetch(s2);
    LeadsOn(Subtitle, s1, [RUN, RUN, RUN], s2, [RUN], Started());
    LeadsOn(Subtitle, Init(), [Call, RUN, RUN], s1, [RUN, RUN, RUN] + [RUN], Started());
  }

  lemma LegFetch(s: State)
    requires s == Started().(pc := Receive)
    ensures Leads(Subtitle, s, [RUN], Started())
  {
    assert [RUN][1..] == [];
  }

  lemma LegDecode()
    ensures Leads(Subtitle, Started(), [PutPacket(SUBTITLE.pkt), RUN] + [RUN, Run(Frame), PutFlush], Caught())
  {
    hide Leads;
    var s := Started().(pc := Got(SUBTITLE), log := [Item(FLUSH_PKT, 1), Item(SUBTITLE.pkt, 1)]);
    Leads2(Subtitle, Started(), PutPacket(SUBTITLE.pkt), RUN, s);
    LegFlush(s);
    LeadsOn(Subtitle, Started(), [PutPacket(SUBTITLE.pkt), RUN], s, [RUN, Run(Frame), PutFlush], Caught());
  }

  lemma LegFlush(s: State)
    requires s == Started().(pc := Got(SUBTITLE), log := [Item(FLUSH_PKT, 1), Item(SUBTITLE.pkt, 1)])
    ensures Leads(Subtitle, s, [RUN, Run(Frame), PutFlush], Caught())
  {
    hide Leads;
    Leads3(Subtitle, s, RUN, Run(Frame), PutFlush, Caught());
  }

  lemma LegReceive() returns (s: State)
    ensures Leads(Subtitle, Caught(), [RUN, RUN, RUN] + [RUN, RUN], s)
    ensures s == Caught().(queue := [], pktSerial := 2, carried := true, codec := [], pc := Receive)
  {
    hide Leads;
    var s1 := Caught().(pc := Use(MARK), queue := [], pktSerial := 2, carried := true);
    s := s1.(pc := Receive, codec := []);
    Leads3(Subtitle, Caught(), RUN, RUN, RUN, s1);
    Leads2(Subtitle, s1, RUN, RUN, s);
    LeadsOn(Subtitle, Caught(), [RUN, RUN, RUN], s1, [RUN, RUN], s);
  }

  /** A seek comes while a subtitle is decoded: the subtitle of the first epoch is
      returned as one of the second. */
  lemma SubtitleMayBeStale() returns (steps: seq<Step>, s: State)
    ensures Leads(Subtitle, Init(), steps, s)
    ensures var e := Next(Subtitle, false, s, RUN).1;
      e.Decoded? && e.epoch == 2 && |e.sources| == 1 && e.sources[0].serial == 1
  {
    LegStart();
    LegDecode();
    s := LegReceive();
    hide Leads;
    steps := Joined(Subtitle, Init(), [Call, RUN, RUN] + ([RUN, RUN, RUN] + [RUN]), Started(),
                    [PutPacket(SUBTITLE.pkt), RUN] + [RUN, Run(Frame), PutFlush], Caught());
    steps := Joined(Subtitle, Init(), steps, Caught(), [RUN, RUN, RUN] + [RUN, RUN], s);
  }

  lemma Leads2(m: Mode, s: State, a: Step, b: Step, s': State)
    requires Enabled(s, a)
    requires var s1 := Next(m, false, s, a).0; Enabled(s1, b) && Next(m, false, s1, b).0 == s'
    ensures Leads(m, s, [a, b], s')
  {
    hide Next, Enabled;
    assert [b][1..] == [] && [a, b][1..] == [b];
    assert Leads(m, Next(m, false, s, a).0, [b], s');
  }

  lemma Joined(m: Mode, s: State, a: seq<Step>, s': State, b: seq<Step>, s'': State) returns (ab: seq<Step>)
    requires Leads(m, s, a, s') && Leads(m, s', b, s'')
    ensures Leads(m, s, ab, s'')
  {
    LeadsOn(m, s, a, s', b, s'');
    ab := a + b;
  }
}
