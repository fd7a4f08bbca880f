/** The rendezvous of the video and the audio thread of ff_ffplay.c after an
    accurate seek: who reports that it is complete, and how often. */
module AccurateSeek {
  import opened Common

  datatype Who = Video | Audio

  /** Where a thread is in the block that handles one frame; `pos` is the seek
      position it read on entering. */
  datatype Pc =
    | Outside
    | Asked                   // the request was seen
    | Passed                  // and no seek, before the position is read
    | Inside(pos: int)
    | ClearGood(pos: int)     // the frame is good, before the mutex
    | ClearBad                // given up, before the mutex
    | Posted(pos: int)        // reported, before the position is compared again, mutex held
    | Waiting(from: Option<int>)  // for the other thread, with a timeout

  datatype Thread = Thread(pc: Pc, req: bool, present: bool)

  /** `asking` says that stream_seek set the position and not yet the request;
      `armed` that the requests were set and neither a new seek, a stop nor an
      abort came since; `posts` and `early` count the reports since then, `early`
      those made for a position that was superseded; `stale` is how many threads
      were about to report a superseded position when the requests were set. */
  datatype State = State(
    video: Thread, audio: Thread, seekPos: int, asking: bool, seekReq: bool, serving: bool, abort: bool,
    armed: bool, stale: nat, posts: nat, early: nat)

  /** What the clock and the frame decide: drop it, take it, or give up. */
  datatype Verdict = Drop | Take | GiveUp

  datatype Step =
    | NewSeek(pos: int)       // stream_seek, up to the position
    | Request                 // and the rest of it
    | SeekDone                // line 3410 of the read thread
    | Arm                     // lines 3430-3442
    | Stop                    // lines 4369-4374
    | Abort
    | Enter(who: Who)         // the test of the request
    | Look(who: Who)          // the test of seek_req
    | Read(who: Who)          // of seek_pos
    | Decide(who: Who, verdict: Verdict)
    | Clear(who: Who)         // the locked section up to the wait or the report
    | Leave(who: Who)         // what follows the report
    | Wake(who: Who)          // signalled or timed out, and the rest of the section

  function Init(video: bool, audio: bool): State {
    State(Thread(Outside, false, video), Thread(Outside, false, audio), 0, false, false, false, false, false, 0, 0, 0)
  }

  function Me(s: State, who: Who): Thread {
    if who.Video? then s.video else s.audio
  }

  function Other(s: State, who: Who): Thread {
    if who.Video? then s.audio else s.video
  }

  function With(s: State, who: Who, t: Thread): State {
    s.(video := if who.Video? then t else s.video, audio := if who.Audio? then t else s.audio)
  }

  /** The locked section that clears the request (lines 1567-1574, 1590-1602 and
      their twins). A superseded position is reported at once. */
  function RunClear(s: State, who: Who): State {
    var t := Me(s, who);
    match t.pc
    case ClearGood(pos) =>
      var current := pos == s.seekPos;
      var wait := current && Other(s, who).req && !s.abort;
      With(s, who, t.(req := false, pc := if wait then Waiting(Some(pos)) else Posted(pos)))
        .(posts := s.posts + (if wait then 0 else 1), early := s.early + (if current then 0 else 1))
    case ClearBad =>
      var wait := Other(s, who).req && !s.abort;
      With(s, who, t.(req := false, pc := if wait then Waiting(None) else Outside))
        .(posts := s.posts + (if wait then 0 else 1))
    case _ => s
  }

  /** A thread that will find another position than it read (line 1575). */
  predicate WillAskAgain(s: State, who: Who) {
    match Me(s, who).pc
    case Posted(pos) => pos != s.seekPos && !s.abort
    case Waiting(from) => from.Some? && from.value != s.seekPos && !s.abort
    case _ => false
  }

  /** Behind the report or the wait: a new position sets the request again. */
  function RunLeave(s: State, who: Who): State {
    With(s, who, Me(s, who).(req := Me(s, who).req || WillAskAgain(s, who), pc := Outside))
  }

  predicate Superseded(s: State, who: Who) {
    Me(s, who).pc.ClearGood? && Me(s, who).pc.pos != s.seekPos
  }

  /** How many threads are about to report a superseded position. */
  function Stale(s: State): nat {
    (if Superseded(s, Video) then 1 else 0) + (if Superseded(s, Audio) then 1 else 0)
  }

  /** A thread is in its locked section between two steps. */
  predicate Locked(s: State) {
    s.video.pc.Posted? || s.audio.pc.Posted?
  }

  predicate Enabled(s: State, step: Step) {
    match step
    case NewSeek(_) => !s.seekReq && !s.asking
    case Request => s.asking
    case SeekDone => s.seekReq && !s.serving
    case Arm => s.serving && !Locked(s)
    case Stop => !Locked(s)
    case Abort => true
    case Enter(who) => Me(s, who).present && Me(s, who).pc.Outside?
    case Look(who) => Me(s, who).pc.Asked?
    case Read(who) => Me(s, who).pc.Passed?
    case Decide(who, _) => Me(s, who).pc.Inside?
    case Clear(who) => (Me(s, who).pc.ClearGood? || Me(s, who).pc.ClearBad?) && !Locked(s)
    case Leave(who) => Me(s, who).pc.Posted?
    case Wake(who) => Me(s, who).pc.Waiting? && !Locked(s)
  }

  function Next(s: State, step: Step): State {
    match step
    case NewSeek(pos) => s.(seekPos := pos, asking := true, armed := false)
    case Request => s.(asking := false, seekReq := true)
    case SeekDone => s.(seekReq := false, serving := true)
    case Arm =>
      s.(serving := false,
         video := s.video.(req := s.video.req || s.video.present), audio := s.audio.(req := s.audio.req || s.audio.present),
         armed := !s.abort && !s.seekReq && !s.asking, posts := 0, early := 0, stale := Stale(s))
    case Stop => s.(video := s.video.(req := false), audio := s.audio.(req := false), armed := false)
    case Abort => s.(abort := true, armed := false)
    case Enter(who) => With(s, who, Me(s, who).(pc := if Me(s, who).req then Asked else Outside))
    case Look(who) => With(s, who, Me(s, who).(pc := if s.seekReq then Outside else Passed))
    case Read(who) => With(s, who, Me(s, who).(pc := Inside(s.seekPos)))
    case Decide(who, verdict) =>
      var t := Me(s, who);
      With(s, who, t.(pc := match verdict
                            case Drop => Outside
                            case Take => if t.pc.Inside? && t.pc.pos == s.seekPos then ClearGood(t.pc.pos) else Outside
                            case GiveUp => ClearBad))
    case Clear(who) => RunClear(s, who)
    case Leave(who) => RunLeave(s, who)
    case Wake(who) => RunLeave(s, who)
  }

  // ----- the invariant -----

  /** The request is set, or will be when the mutex is released. */
  predicate Owes(s: State, who: Who) {
    Me(s, who).req || (Me(s, who).pc.Posted? && WillAskAgain(s, who))
  }

  /** A thread in the block still has its request, and a thread that is absent
      has none. */
  ghost predicate ThreadInv(t: Thread, armed: bool, seekPos: int) {
    && (armed && (t.pc.Asked? || t.pc.Passed? || t.pc.Inside? || t.pc.ClearGood? || t.pc.ClearBad?) ==> t.req)
    && (armed && t.pc.Waiting? && t.pc.from.Some? && t.pc.from.value != seekPos ==> t.req)
    && (armed && t.pc.Posted? ==> !t.req)
    && (!t.present ==> !t.req && t.pc.Outside?)
  }

  ghost predicate Inv(s: State) {
    && ThreadInv(s.video, s.armed, s.seekPos) && ThreadInv(s.audio, s.armed, s.seekPos)
    && !(s.video.pc.Posted? && s.audio.pc.Posted?)
    && (s.armed ==> !s.abort && s.early <= s.posts && s.early + Stale(s) == s.stale)
    && (s.armed && (s.video.present || s.audio.present) ==>
          s.posts - s.early == if Owes(s, Video) || Owes(s, Audio) then 0 else 1)
  }

  /** Which streams there are. */
  function Streams(s: State): (bool, bool) {
    (s.video.present, s.audio.present)
  }

  lemma InitInv(video: bool, audio: bool)
    ensures Inv(Init(video, audio)) && Streams(Init(video, audio)) == (video, audio)
  {
  }

  lemma ClearOk(s: State, who: Who)
    requires Inv(s) && Enabled(s, Clear(who))
    ensures Inv(Next(s, Clear(who))) && Streams(Next(s, Clear(who))) == Streams(s)
  {
    if Me(s, who).pc.ClearBad? {
      ClearBadOk(s, who);
    } else {
      ClearGoodOk(s, who);
    }
    assert Next(s, Clear(who)) == RunClear(s, who);
    hide Inv, RunClear, Streams, Next;
  }

  lemma ClearBadOk(s: State, who: Who)
    requires Inv(s) && Me(s, who).pc.ClearBad? && !Locked(s)
    ensures Inv(RunClear(s, who)) && Streams(RunClear(s, who)) == Streams(s)
  {
  }

  lemma ClearGoodOk(s: State, who: Who)
    requires Inv(s) && Me(s, who).pc.ClearGood? && !Locked(s)
    ensures Inv(RunClear(s, who)) && Streams(RunClear(s, who)) == Streams(s)
  {
  }

  lemma LeaveOk(s: State, who: Who)
    requires Inv(s) && (Enabled(s, Leave(who)) || Enabled(s, Wake(who)))
    ensures Inv(RunLeave(s, who)) && Streams(RunLeave(s, who)) == Streams(s)
  {
  }

  lemma EnterOk(s: State, step: Step)
    requires Inv(s) && Enabled(s, step) && (step.Enter? || step.Look? || step.Read?)
    ensures Inv(Next(s, step)) && Streams(Next(s, step)) == Streams(s)
  {
  }

  lemma DecideOk(s: State, who: Who, verdict: Verdict)
    requires Inv(s) && Enabled(s, Decide(who, verdict))
    ensures Inv(Next(s, Decide(who, verdict))) && Streams(Next(s, Decide(who, verdict))) == Streams(s)
  {
  }

  lemma SeekStepOk(s: State, step: Step)
    requires Inv(s) && Enabled(s, step)
    requires step.NewSeek? || step.Request? || step.SeekDone? || step.Arm? || step.Stop? || step.Abort?
    ensures Inv(Next(s, step)) && Streams(Next(s, step)) == Streams(s)
  {
  }

  lemma StepOk(s: State, step: Step)
    requires Inv(s) && Enabled(s, step)
    ensures Inv(Next(s, step)) && Streams(Next(s, step)) == Streams(s)
  {
    match step {
      case Clear(who) => ClearOk(s, who); hide *;
      case Leave(who) => LeaveOk(s, who); assert Next(s, step) == RunLeave(s, who); hide *;
      case Wake(who) => LeaveOk(s, who); assert Next(s, step) == RunLeave(s, who); hide *;
      case Enter(_) => EnterOk(s, step); hide *;
      case Look(_) => EnterOk(s, step); hide *;
      case Read(_) => EnterOk(s, step); hide *;
      case Decide(who, verdict) => DecideOk(s, who, verdict); hide *;
      case _ => SeekStepOk(s, step); hide *;
    }
  }

  // ----- runs -----

  ghost predicate IsRun(video: bool, audio: bool, states: seq<State>, steps: seq<Step>) {
    && |states| == |steps| + 1 && states[0] == Init(video, audio)
    && forall k :: 0 <= k < |steps| ==> IsStep(states[k], steps[k], states[k + 1])
  }

  ghost predicate IsStep(s: State, step: Step, s': State) {
    Enabled(s, step) && s' == Next(s, step)
  }

  lemma {:induction false} RunInv(video: bool, audio: bool, states: seq<State>, steps: seq<Step>, k: nat)
    requires IsRun(video, audio, states, steps) && k < |states|
    ensures Inv(states[k]) && Streams(states[k]) == (video, audio)
    decreases k
  {
    hide Inv, Next, Enabled, Streams;
    if k == 0 {
      InitInv(video, audio);
    } else {
      RunInv(video, audio, states, steps, k - 1);
      assert IsStep(states[k - 1], steps[k - 1], states[k]);
      StepOk(states[k - 1], steps[k - 1]);
    }
  }

  /** As long as the requests set by a seek are not followed by a new seek, a stop
      or an abort: the completion for its position was reported exactly once when no
      request is left and never before, by one stream or two, whatever frames were
      good, whatever was given up and whatever wait timed out. Reports for
      superseded positions come on top, exactly one for each thread that was about
      to make one when the requests were set: all reports together are one exactly
      when there was no such thread. */
  lemma ReportedExactlyOnce(video: bool, audio: bool, states: seq<State>, steps: seq<Step>, k: nat)
    requires IsRun(video, audio, states, steps) && k < |states| && (video || audio) && states[k].armed
    ensures var s := states[k];
      && s.posts - s.early == (if Owes(s, Video) || Owes(s, Audio) then 0 else 1)
      && s.early + Stale(s) == s.stale
      && (!Owes(s, Video) && !Owes(s, Audio) ==> s.posts == 1 + s.stale && (s.posts == 1 <==> s.stale == 0))
  {
    RunInv(video, audio, states, steps, k);
  }

  /** What a thread decided or cleared last. */
  function LastDone(who: Who, steps: seq<Step>, k: nat): Option<Step>
    requires k <= |steps|
  {
    if k == 0 then None
    else
      match steps[k - 1]
      case Decide(w, _) => if w == who then Some(steps[k - 1]) else LastDone(who, steps, k - 1)
      case Clear(w) => if w == who then Some(steps[k - 1]) else LastDone(who, steps, k - 1)
      case _ => LastDone(who, steps, k - 1)
  }

  /** A thread withdraws its request exactly if its last frame was not dropped: it was
      given up, or good for the position that was current at the decision. */
  lemma {:induction false} VerdictsCount(video: bool, audio: bool, states: seq<State>, steps: seq<Step>, who: Who, k: nat)
    requires IsRun(video, audio, states, steps) && k < |states|
    ensures var pc, last := Me(states[k], who).pc, LastDone(who, steps, k);
      && (pc.ClearBad? <==> last == Some(Decide(who, GiveUp)))
      && (pc.ClearGood? ==> last == Some(Decide(who, Take)))
    ensures k < |steps| && steps[k] == Decide(who, Take) ==>
      (Me(states[k + 1], who).pc.ClearGood? <==> Me(states[k], who).pc == Inside(states[k].seekPos))
    ensures k < |steps| && steps[k] == Clear(who) ==>
      LastDone(who, steps, k) == Some(Decide(who, if Me(states[k], who).pc.ClearBad? then GiveUp else Take))
    decreases k
  {
    if k < |steps| {
      assert IsStep(states[k], steps[k], states[k + 1]);
    }
    if k > 0 {
      VerdictsCount(video, audio, states, steps, who, k - 1);
      assert IsStep(states[k - 1], steps[k - 1], states[k]);
      hide IsRun;
      VerdictStep(states[k - 1], steps[k - 1], who);
    }
  }

  ghost predicate FollowsVerdict(s: State, step: Step, who: Who, s': State) {
    var pc, pc' := Me(s, who).pc, Me(s', who).pc;
    && (pc'.ClearBad? <==> step == Decide(who, GiveUp) || (pc.ClearBad? && step != Clear(who)))
    && (pc'.ClearGood? ==> step == Decide(who, Take) || (pc.ClearGood? && step != Clear(who)))
    && (pc.ClearBad? || pc.ClearGood? ==> forall v :: step != Decide(who, v))
  }

  lemma VerdictStep(s: State, step: Step, who: Who)
    requires Enabled(s, step)
    ensures FollowsVerdict(s, step, who, Next(s, step))
  {
    match step {
      case Clear(w) =>
        assert Next(s, step) == RunClear(s, w);
        VerdictClear(s, w, who);
        hide *;
      case Leave(w) =>
        assert Next(s, step) == RunLeave(s, w);
        VerdictLeave(s, step, w, who);
        hide *;
      case Wake(w) =>
        assert Next(s, step) == RunLeave(s, w);
        VerdictLeave(s, step, w, who);
        hide *;
      case _ =>
        hide RunClear, RunLeave;
    }
  }

  lemma VerdictClear(s: State, w: Who, who: Who)
    requires Enabled(s, Clear(w))
    ensures FollowsVerdict(s, Clear(w), who, RunClear(s, w))
  {
  }

  lemma VerdictLeave(s: State, step: Step, w: Who, who: Who)
    requires Enabled(s, step) && (step == Leave(w) || step == Wake(w))
    ensures FollowsVerdict(s, step, who, RunLeave(s, w))
  {
  }

  /** When a report is made: by the thread that clears its request last, or for a
      superseded position, or after an abort. */
  lemma ReportsExactly(s: State, who: Who)
    requires Enabled(s, Clear(who))
    ensures var s' := Next(s, Clear(who));
      && (s'.posts == s.posts + 1 <==> !Other(s, who).req || s.abort || Superseded(s, who))
      && (s'.posts == s.posts <==> Me(s', who).pc.Waiting?)
      && (s'.early == s.early + 1 <==> Superseded(s, who))
      && Owes(s', who) == (Superseded(s, who) && !s.abort)
  {
    var t := Me(s, who);
    var wait := Other(s, who).req && !s.abort && !Superseded(s, who);
    var from := if t.pc.ClearGood? then Some(t.pc.pos) else None;
    var t' := t.(req := false, pc := if wait then Waiting(from) else if t.pc.ClearGood? then Posted(t.pc.pos) else Outside);
    var posts', early' := s.posts + (if wait then 0 else 1), s.early + (if Superseded(s, who) then 1 else 0);
    Cleared(s, who, t', posts', early');
    MeWith(s.(posts := posts', early := early'), who, t');
    hide Next, With, Locked;
  }

  lemma Cleared(s: State, who: Who, t: Thread, posts: nat, early: nat)
    requires Enabled(s, Clear(who))
    requires var pc, wait := Me(s, who).pc, Other(s, who).req && !s.abort && !Superseded(s, who);
      && posts == s.posts + (if wait then 0 else 1) && early == s.early + (if Superseded(s, who) then 1 else 0)
      && t == Me(s, who).(req := false,
           pc := if wait then Waiting(if pc.ClearGood? then Some(pc.pos) else None)
                 else if pc.ClearGood? then Posted(pc.pos) else Outside)
    ensures Next(s, Clear(who)) == With(s.(posts := posts, early := early), who, t)
  {
  }

  lemma MeWith(s: State, who: Who, t: Thread)
    ensures Me(With(s, who, t), who) == t && With(s, who, t).seekPos == s.seekPos && With(s, who, t).abort == s.abort
    ensures With(s, who, t).posts == s.posts && With(s, who, t).early == s.early
  {
  }

  /** Two seeks in quick succession: the video thread found a good frame for the
      first and reports it after the requests of the second were set. */
  lemma ReportMayBeEarly() returns (states: seq<State>, steps: seq<Step>)
    ensures IsRun(true, true, states, steps)
    ensures var s := states[|steps|];
      s.armed && s.video.req && s.audio.req && s.posts == 1 && s.early == 1
  {
    hide IsStep;
    var a := Init(true, true);
    var b := a.(seekPos := 1, armed := true, video := Thread(Outside, true, true), audio := Thread(Outside, true, true));
    var c := b.(video := Thread(ClearGood(1), true, true));
    var d := c.(seekPos := 2, stale := 1);
    var e := d.(video := Thread(Outside, true, true), posts := 1, early := 1);
    var seek1, steps1 := Sought(a, 1, b);
    var enter, steps2 := Entered(b, 1, c);
    var seek2, steps3 := Sought(c, 2, d);
    var posted := d.(video := Thread(Posted(1), false, true), posts := 1, early := 1);
    Reported(d, posted, e);
    states := [a, seek1[0], seek1[1], seek1[2], b, enter[0], enter[1], enter[2], c, seek2[0], seek2[1], seek2[2], d, posted, e];
    steps := [NewSeek(1), Request, SeekDone, Arm, Enter(Video), Look(Video), Read(Video), Decide(Video, Take),
              NewSeek(2), Request, SeekDone, Arm, Clear(Video), Leave(Video)];
  }

  lemma Reported(s: State, posted: State, s': State)
    requires s.video == Thread(ClearGood(1), true, true) && s.seekPos == 2 && !s.abort && !Locked(s) && s.posts == s.early == 0
    requires posted == s.(video := Thread(Posted(1), false, true), posts := 1, early := 1)
    requires s' == s.(video := Thread(Outside, true, true), posts := 1, early := 1)
    ensures IsStep(s, Clear(Video), posted) && IsStep(posted, Leave(Video), s')
  {
  }

  /** A seek is asked for and served; `between` are the states on the way. */
  lemma Sought(s: State, pos: int, s': State) returns (between: seq<State>, steps: seq<Step>)
    requires !s.seekReq && !s.asking && !s.serving && !s.abort && !Locked(s) && s.posts == s.early == 0
    requires s.video.present && s.audio.present
    requires var t := s.(seekPos := pos);
      s' == t.(armed := true, stale := Stale(t), video := t.video.(req := true), audio := t.audio.(req := true))
    ensures |between| == 3 && steps == [NewSeek(pos), Request, SeekDone, Arm]
    ensures IsStep(s, steps[0], between[0]) && IsStep(between[0], steps[1], between[1])
    ensures IsStep(between[1], steps[2], between[2]) && IsStep(between[2], steps[3], s')
  {
    var s1 := s.(seekPos := pos, asking := true, armed := false);
    var s2 := s1.(asking := false, seekReq := true);
    var s3 := s2.(seekReq := false, serving := true);
    between, steps := [s1, s2, s3], [NewSeek(pos), Request, SeekDone, Arm];
  }

  /** The video thread enters the block and finds its frame good. */
  lemma Entered(s: State, pos: int, s': State) returns (between: seq<State>, steps: seq<Step>)
    requires s.video == Thread(Outside, true, true) && !s.seekReq && s.seekPos == pos
    requires s' == s.(video := Thread(ClearGood(pos), true, true))
    ensures |between| == 3 && steps == [Enter(Video), Look(Video), Read(Video), Decide(Video, Take)]
    ensures IsStep(s, steps[0], between[0]) && IsStep(between[0], steps[1], between[1])
    ensures IsStep(between[1], steps[2], between[2]) && IsStep(between[2], steps[3], s')
  {
    var s1 := s.(video := Thread(Asked, true, true));
    var s2 := s.(video := Thread(Passed, true, true));
    var s3 := s.(video := Thread(Inside(pos), true, true));
    between, steps := [s1, s2, s3], [Enter(Video), Look(Video), Read(Video), Decide(Video, Take)];
  }
}
