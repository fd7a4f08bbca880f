/** What the decoder loop of ff_ffplay.c answers, and that it loses no packet. */
module DecoderRuns {
  import opened Common
  import opened PacketQueues
  import opened Decoder

  function EventOf(m: Mode, buffering: bool, s: State, step: Step): Event {
    Next(m, buffering, s, step).1
  }

  // ----- audio and video: the codec's answer is passed on -----

  /** The inner loop is about to ask the codec. */
  predicate Asks(s: State, step: Step) {
    step.Run? && s.pc.Receive? && !s.abort
  }

  /** A frame is returned exactly when the codec gives one, an end exactly when it is
      at its end, and -1 exactly when the queue is aborted where the loop looks;
      a codec that wants more gets a packet next, and one that fails is asked again. */
  lemma CodecIsAnswered(buffering: bool, s: State, step: Step)
    ensures var (s', e) := Next(AudioVideo, buffering, s, step);
      && (e.Decoded? <==> Asks(s, step) && step.reply.Frame?)
      && (e.Ended? <==> Asks(s, step) && step.reply.End?)
      && (e.Aborted? <==> step.Run? && s.abort && (s.pc.Receive? || (s.pc.Fetch? && s.pending.None?)))
      && (e != Silent ==> s'.pc.Idle?)
      && (e.Decoded? ==> s'.codec == s.codec) && (e.Ended? ==> s'.finished == s.pktSerial)
      && (Asks(s, step) && step.reply.Nothing? ==> s' == s.(ret := Again, pc := Fetch))
      && (Asks(s, step) && step.reply.Failure? ==> s' == s.(ret := Bad))
  {
  }

  /** The codec is asked exactly when the comparison of the serials found the epoch to
      be the newest, and a packet is used exactly when it is of that epoch. */
  lemma NewestIsDecoded(m: Mode, buffering: bool, s: State, reply: Reply)
    requires HandInv(s)
    ensures var s' := RunDecoder(m, buffering, s, reply).0;
      && (s.pc.Top? ==> (s'.pc.Receive? <==> s.pktSerial == s.serial) && (s'.pc.Fetch? <==> s.pktSerial != s.serial))
      && (s.pc.Got? ==> (s'.pc == Use(s.pc.p) <==> s.pc.p.serial == s.serial) && (s'.pc.Fetch? <==> s.pc.p.serial != s.serial))
  {
  }

  /** The loop stands still exactly where it has nothing to take and is not aborted,
      apart from asking a codec again that failed before. */
  lemma WaitsExactly(m: Mode, buffering: bool, s: State, reply: Reply)
    requires !s.pc.Idle?
    ensures RunDecoder(m, buffering, s, reply).0 == s <==>
      || (s.pc.Fetch? && s.pending.None? && !s.abort && s.queue == [])
      || (s.pc.Receive? && !s.abort && s.ret.Bad? && (m.Subtitle? || reply.Failure?))
  {
    if s.pc.Fetch? && s.pending.None? && !s.abort && s.queue != [] {
      assert |RunFetch(buffering, s).0.queue| < |s.queue|;
    }
  }

  // ----- subtitles: the last decoding is passed on -----

  /** A packet, and what the codec said to it. */
  datatype Decoding = Decoding(p: Queued, reply: Reply)

  /** The last decoding of the running call. */
  function LastDecoding(states: seq<State>, steps: seq<Step>, k: nat): Option<Decoding>
    requires k <= |steps| && |states| == |steps| + 1
  {
    if k == 0 then None else DecodingBy(states[k - 1], steps[k - 1], LastDecoding(states, steps, k - 1))
  }

  function DecodingBy(s: State, step: Step, before: Option<Decoding>): Option<Decoding> {
    if step.Call? then None
    else if step.Run? && s.pc.Use? && !IsFlush(s.pc.p) then Some(Decoding(s.pc.p, step.reply))
    else before
  }

  predicate GaveFrame(d: Option<Decoding>) {
    d.Some? && d.value.reply.Frame?
  }

  /** The empty packet at the end of a stream brings no more subtitles. */
  predicate GaveEnd(d: Option<Decoding>) {
    d.Some? && d.value.p.pkt.kind.Null? && (d.value.reply.End? || d.value.reply.Nothing?)
  }

  ghost predicate RetSays(s: State, d: Option<Decoding>) {
    && (s.ret.Good? <==> GaveFrame(d)) && (s.ret.Eof? <==> GaveEnd(d)) && !s.ret.Bad?
    && (d.Some? ==> s.from == Some(d.value.p))
  }

  lemma {:induction false} RetTold(buffering: bool, states: seq<State>, steps: seq<Step>, k: nat)
    requires IsRun(Subtitle, buffering, states, steps) && k < |states|
    ensures RetSays(states[k], LastDecoding(states, steps, k))
    decreases k
  {
    hide RetSays, DecodingBy, Next, Enabled, Init;
    if k == 0 {
      RetInit();
    } else {
      RetTold(buffering, states, steps, k - 1);
      assert IsStep(Subtitle, buffering, states[k - 1], steps[k - 1], states[k]);
      RetStep(buffering, states[k - 1], steps[k - 1], LastDecoding(states, steps, k - 1));
    }
  }

  lemma RetInit()
    ensures RetSays(Init(), None)
  {
  }

  lemma RetStep(buffering: bool, s: State, step: Step, d: Option<Decoding>)
    requires RetSays(s, d)
    ensures RetSays(Next(Subtitle, buffering, s, step).0, DecodingBy(s, step, d))
  {
    if step.Run? && s.pc.Use? {
      RetUse(s, step.reply, d);
      hide *;
    } else {
      hide GaveFrame, GaveEnd, RunUse, Put;
      RetKept(buffering, s, step);
    }
  }

  lemma RetUse(s: State, reply: Reply, d: Option<Decoding>)
    requires RetSays(s, d) && s.pc.Use?
    ensures RetSays(RunUse(Subtitle, s, s.pc.p, reply), DecodingBy(s, Run(reply), d))
    ensures forall buffering :: Next(Subtitle, buffering, s, Run(reply)).0 == RunUse(Subtitle, s, s.pc.p, reply)
  {
  }

  lemma RetKept(buffering: bool, s: State, step: Step)
    requires !(step.Run? && s.pc.Use?)
    ensures var s' := Next(Subtitle, buffering, s, step).0; s'.from == s.from && s'.ret == if step.Call? then Again else s.ret
  {
  }

  /** A subtitle is returned exactly when the last decoding of the call gave one, and
      it comes from that packet; an end exactly when it was the empty packet. */
  lemma DecodingIsAnswered(buffering: bool, states: seq<State>, steps: seq<Step>, k: nat)
    requires IsRun(Subtitle, buffering, states, steps) && k < |steps|
    ensures var d, e := LastDecoding(states, steps, k), EventOf(Subtitle, buffering, states[k], steps[k]);
      && (e.Decoded? <==> Asks(states[k], steps[k]) && GaveFrame(d))
      && (e.Decoded? ==> e.sources == [d.value.p])
      && (e.Ended? <==> Asks(states[k], steps[k]) && GaveEnd(d))
  {
    RetTold(buffering, states, steps, k);
    hide IsRun, LastDecoding;
    AnswerStep(buffering, states[k], steps[k], LastDecoding(states, steps, k));
    hide *;
  }

  lemma AnswerStep(buffering: bool, s: State, step: Step, d: Option<Decoding>)
    requires RetSays(s, d)
    ensures var e := EventOf(Subtitle, buffering, s, step);
      && (e.Decoded? <==> Asks(s, step) && GaveFrame(d))
      && (e.Decoded? ==> e.sources == [d.value.p])
      && (e.Ended? <==> Asks(s, step) && GaveEnd(d))
  {
    hide RunUse, Put;
  }

  // ----- no packet is lost -----

  /** The packets of an epoch, in order. */
  function OfSerial(ps: seq<Queued>, serial: int): seq<Queued> {
    if ps == [] then []
    else OfSerial(ps[..|ps| - 1], serial) + if ps[|ps| - 1].serial == serial then [ps[|ps| - 1]] else []
  }

  lemma {:induction false} OfSerialConcat(a: seq<Queued>, b: seq<Queued>, serial: int)
    ensures OfSerial(a + b, serial) == OfSerial(a, serial) + OfSerial(b, serial)
    decreases |b|
  {
    if b == [] {
      assert a + b == a;
    } else {
      OfSerialConcat(a, b[..|b| - 1], serial);
      assert (a + b)[..|a + b| - 1] == a + b[..|b| - 1];
    }
  }

  /** The packet in hand, or the one that the codec did not take. */
  function Hand(s: State): seq<Queued> {
    (if s.pc.Got? || s.pc.Use? then [s.pc.p] else []) + if s.pending.Some? then [s.pending.value] else []
  }

  /** What the decoder still has to use of the newest epoch. */
  function ToUse(s: State): seq<Queued> {
    OfSerial(Hand(s) + s.queue, s.serial)
  }

  /** What a step puts, and what it uses of the newest epoch. The codec may want a
      packet again: AVERROR(EAGAIN), or an empty packet that still brings subtitles. */
  function PutBy(s: State, step: Step): seq<Queued> {
    if step.PutPacket? && !s.abort then [Queued(step.pkt, s.serial, |s.log|)] else []
  }

  predicate AgainLater(m: Mode, p: Queued, reply: Reply) {
    if m.AudioVideo? then reply.Nothing? else reply.Frame? && p.pkt.kind.Null?
  }

  function UsedBy(m: Mode, s: State, step: Step): seq<Queued> {
    if step.Run? && s.pc.Use? && s.pc.p.serial == s.serial && (IsFlush(s.pc.p) || !AgainLater(m, s.pc.p, step.reply)) then [s.pc.p]
    else []
  }

  /** The packets of an epoch that has ended are skipped while buffering. */
  predicate Skips(buffering: bool, s: State) {
    buffering && s.finished == s.serial
  }

  lemma FlowStep(m: Mode, buffering: bool, s: State, step: Step)
    requires Inv(m, s) && Enabled(s, step) && !step.DropAll? && !step.PutFlush? && !Skips(buffering, s)
    ensures var s' := Next(m, buffering, s, step).0;
      && s'.serial == s.serial
      && ToUse(s) + PutBy(s, step) == UsedBy(m, s, step) + ToUse(s')
  {
    assert HandInv(s) by {
      hide InOrder, LogOk, AllLogged, CodecInv, HandInv, SubInv;
    }
    hide Inv, ToUse, RunDecoder, HandInv, Put;
    match step {
      case PutPacket(pkt) => PutFlow(s, pkt);
      case Run(reply) => RunFlow(m, buffering, s, reply);
      case _ => IdleFlow(m, buffering, s, step);
    }
  }

  lemma IdleFlow(m: Mode, buffering: bool, s: State, step: Step)
    requires step.Abort? || step.Call?
    ensures var s' := Next(m, buffering, s, step).0; s'.serial == s.serial && (s.pc.Idle? || step.Abort? ==> ToUse(s') == ToUse(s))
  {
  }

  lemma PutFlow(s: State, pkt: Packet)
    requires !pkt.kind.FlushMark?
    ensures var s' := Put(s, pkt); s'.serial == s.serial && ToUse(s') == ToUse(s) + PutBy(s, PutPacket(pkt))
  {
    var more := PutBy(s, PutPacket(pkt));
    OfSerialConcat(Hand(s) + s.queue, more, s.serial);
    assert Hand(s) + (s.queue + more) == Hand(s) + s.queue + more;
    assert more != [] ==> more[..0] == [];
  }

  lemma RunFlow(m: Mode, buffering: bool, s: State, reply: Reply)
    requires HandInv(s) && !Skips(buffering, s)
    ensures var s' := RunDecoder(m, buffering, s, reply).0;
      s'.serial == s.serial && ToUse(s) == UsedBy(m, s, Run(reply)) + ToUse(s')
  {
    match s.pc {
      case Receive => ReceiveFlow(m, s, reply);
      case Fetch => FetchFlow(buffering, s);
      case Got(p) => GotFlow(m, buffering, s, reply);
      case Use(p) => UseFlow(m, s, reply);
      case _ =>
    }
    hide ToUse, RunReceive, RunFetch, RunUse;
  }

  lemma ReceiveFlow(m: Mode, s: State, reply: Reply)
    requires s.pc.Receive?
    ensures var s' := RunReceive(m, s, reply).0; s'.serial == s.serial && ToUse(s') == ToUse(s)
  {
    hide OfSerial;
  }

  lemma One(p: Queued, rest: seq<Queued>, serial: int)
    ensures OfSerial([p] + rest, serial) == (if p.serial == serial then [p] else []) + OfSerial(rest, serial)
  {
    OfSerialConcat([p], rest, serial);
    assert [p][..0] == [];
  }

  lemma FetchFlow(buffering: bool, s: State)
    requires s.pc.Fetch? && !Skips(buffering, s)
    ensures var s' := RunFetch(buffering, s).0; s'.serial == s.serial && ToUse(s') == ToUse(s)
  {
    hide OfSerial;
    if s.pending.None? && !s.abort && s.queue != [] {
      var q := s.queue;
      assert Hand(s) + q == [q[0]] + q[1..];
      One(q[0], q[1..], s.serial);
      var s' := RunFetch(buffering, s).0;
      assert Hand(s') + s'.queue == if buffering && s.finished == q[0].serial then q[1..] else [q[0]] + q[1..];
    } else if s.pending.Some? {
      assert Hand(RunFetch(buffering, s).0) == Hand(s);
    }
  }

  lemma GotFlow(m: Mode, buffering: bool, s: State, reply: Reply)
    requires HandInv(s) && s.pc.Got?
    ensures var s' := RunDecoder(m, buffering, s, reply).0; s'.serial == s.serial && ToUse(s') == ToUse(s)
  {
    hide OfSerial;
    One(s.pc.p, s.queue, s.serial);
    assert Hand(s) + s.queue == [s.pc.p] + s.queue;
    var s' := RunDecoder(m, buffering, s, reply).0;
    assert Hand(s') + s'.queue == if s.serial != s.pktSerial then s.queue else [s.pc.p] + s.queue;
  }

  lemma UseFlow(m: Mode, s: State, reply: Reply)
    requires HandInv(s) && s.pc.Use?
    ensures var s' := RunUse(m, s, s.pc.p, reply); s'.serial == s.serial && ToUse(s) == UsedBy(m, s, Run(reply)) + ToUse(s')
  {
    hide OfSerial;
    var p := s.pc.p;
    One(p, s.queue, s.serial);
    assert Hand(s) + s.queue == [p] + s.queue;
    var s' := RunUse(m, s, p, reply);
    assert Hand(s') + s'.queue == if !IsFlush(p) && AgainLater(m, p, reply) then [p] + s.queue else s.queue;
  }

  function PutIn(states: seq<State>, steps: seq<Step>, a: nat, b: nat): seq<Queued>
    requires a <= b <= |steps| && |states| == |steps| + 1
  {
    if a == b then [] else PutIn(states, steps, a, b - 1) + PutBy(states[b - 1], steps[b - 1])
  }

  function UsedIn(m: Mode, states: seq<State>, steps: seq<Step>, a: nat, b: nat): seq<Queued>
    requires a <= b <= |steps| && |states| == |steps| + 1
  {
    if a == b then [] else UsedIn(m, states, steps, a, b - 1) + UsedBy(m, states[b - 1], steps[b - 1])
  }

  /** The decoder notes an epoch as finished only when it has returned its end. */
  lemma {:induction false} FinishedEnded(m: Mode, buffering: bool, states: seq<State>, steps: seq<Step>, k: nat)
    requires IsRun(m, buffering, states, steps) && k < |states| && states[k].finished != 0
    ensures exists j: nat :: j < k && EventOf(m, buffering, states[j], steps[j]) == Ended(states[k].finished)
    decreases k
  {
    if k > 0 {
      assert IsStep(m, buffering, states[k - 1], steps[k - 1], states[k]);
      FinishedStep(m, buffering, states[k - 1], steps[k - 1]);
      hide IsRun, EventOf;
      if EventOf(m, buffering, states[k - 1], steps[k - 1]) != Ended(states[k].finished) {
        FinishedEnded(m, buffering, states, steps, k - 1);
      }
    }
  }

  lemma FinishedStep(m: Mode, buffering: bool, s: State, step: Step)
    ensures var s' := Next(m, buffering, s, step).0;
      s'.finished == 0 || s'.finished == s.finished || EventOf(m, buffering, s, step) == Ended(s'.finished)
  {
  }

  /** While no new epoch begins, every packet that is put is used, once and in the
      order in which it was put, whatever the decoder does in between; what is not
      used yet still waits. Only while buffering are the packets skipped that come
      behind the end of their epoch. */
  lemma {:induction false} NothingIsLost(m: Mode, buffering: bool, states: seq<State>, steps: seq<Step>, a: nat, b: nat)
    requires IsRun(m, buffering, states, steps) && a <= b < |states|
    requires forall k :: a <= k < b ==> !steps[k].DropAll? && !steps[k].PutFlush?
    requires buffering ==> forall j :: 0 <= j < b ==> EventOf(m, buffering, states[j], steps[j]) != Ended(states[a].serial)
    ensures states[b].serial == states[a].serial
    ensures ToUse(states[a]) + PutIn(states, steps, a, b) == UsedIn(m, states, steps, a, b) + ToUse(states[b])
    decreases b
  {
    if a < b {
      NothingIsLost(m, buffering, states, steps, a, b - 1);
      RunInv(m, buffering, states, steps, b - 1);
      SerialPositive(m, states[b - 1]);
      if Skips(buffering, states[b - 1]) {
        FinishedEnded(m, buffering, states, steps, b - 1);
      }
      assert IsStep(m, buffering, states[b - 1], steps[b - 1], states[b]);
      FlowStep(m, buffering, states[b - 1], steps[b - 1]);
      hide *;
      Regroup(ToUse(states[a]), PutIn(states, steps, a, b - 1), UsedIn(m, states, steps, a, b - 1), ToUse(states[b - 1]),
              PutBy(states[b - 1], steps[b - 1]), UsedBy(m, states[b - 1], steps[b - 1]), ToUse(states[b]));
    }
  }

  lemma SerialPositive(m: Mode, s: State)
    requires Inv(m, s)
    ensures s.serial >= 1
  {
    hide LogOk, AllLogged, CodecInv, HandInv, SubInv;
  }

  lemma Regroup(start: seq<Queued>, put: seq<Queued>, used: seq<Queued>, before: seq<Queued>,
                more: seq<Queued>, now: seq<Queued>, after: seq<Queued>)
    ensures start + put == used + before && before + more == now + after ==> start + (put + more) == (used + now) + after
  {
    assert start + (put + more) == (start + put) + more;
    assert used + before + more == used + (before + more);
    assert used + (now + after) == (used + now) + after;
  }

  // ----- what the codec holds -----

  /** What the codec took since it was last emptied: by a flush packet, or at an end. */
  function TakenSince(buffering: bool, states: seq<State>, steps: seq<Step>, k: nat): seq<Queued>
    requires k <= |steps| && |states| == |steps| + 1
  {
    if k == 0 then [] else TakenBy(buffering, states[k - 1], steps[k - 1], TakenSince(buffering, states, steps, k - 1))
  }

  function TakenBy(buffering: bool, s: State, step: Step, before: seq<Queued>): seq<Queued> {
    if EventOf(AudioVideo, buffering, s, step).Ended? then []
    else if !step.Run? || !s.pc.Use? then before
    else if IsFlush(s.pc.p) then []
    else if AgainLater(AudioVideo, s.pc.p, step.reply) then before
    else before + [s.pc.p]
  }

  lemma CodecStep(buffering: bool, s: State, step: Step)
    ensures Next(AudioVideo, buffering, s, step).0.codec == TakenBy(buffering, s, step, s.codec)
  {
    if step.Run? && s.pc.Use? {
      CodecUse(buffering, s, step.reply);
      hide *;
    } else {
      hide RunUse, Put;
      CodecKept(buffering, s, step);
    }
  }

  lemma CodecKept(buffering: bool, s: State, step: Step)
    requires !(step.Run? && s.pc.Use?)
    ensures var (s', e) := Next(AudioVideo, buffering, s, step); s'.codec == if e.Ended? then [] else s.codec
  {
  }

  lemma CodecUse(buffering: bool, s: State, reply: Reply)
    requires s.pc.Use?
    ensures Next(AudioVideo, buffering, s, Run(reply)).0.codec == TakenBy(buffering, s, Run(reply), s.codec)
  {
  }

  /** The codec is emptied at the flush packets and at the ends that are returned, and
      nowhere else, and it gets every packet in between. */
  lemma {:induction false} CodecHolds(buffering: bool, states: seq<State>, steps: seq<Step>, k: nat)
    requires IsRun(AudioVideo, buffering, states, steps) && k < |states|
    ensures states[k].codec == TakenSince(buffering, states, steps, k)
    decreases k
  {
    hide TakenBy, Next, Enabled;
    if k > 0 {
      CodecHolds(buffering, states, steps, k - 1);
      assert IsStep(AudioVideo, buffering, states[k - 1], steps[k - 1], states[k]);
      CodecStep(buffering, states[k - 1], steps[k - 1]);
    }
  }
}
