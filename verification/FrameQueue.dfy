/** The frame ring of ff_ffplay.c. The decoder pushes and the display takes, each
    updating its own index outside the lock and the shared size inside; the
    methods here are the sections between which the two may alternate. */
module FrameQueues {
  import opened Common

  const FRAME_QUEUE_SIZE := 16

  /** A decoded frame, told apart by a number. */
  datatype Frame = Frame(id: int)

  /** What a display sees: the frame it showed last, if it is kept, and the
      frames that are still to come. */
  datatype View = View(shown: Option<Frame>, pending: seq<Frame>)

  function ViewOf(live: seq<Frame>, shown: bool): View {
    if shown && live != [] then View(Some(live[0]), live[1..]) else View(None, live)
  }

  /** The next pending frame is shown; the one before is given up. */
  function Advanced(v: View, keepLast: bool): View
    requires v.pending != []
  {
    View(if keepLast then Some(v.pending[0]) else None, v.pending[1..])
  }

  /** Where the decoder is in queueing a frame, and the display in showing one. */
  datatype Producer = Waits(f: Frame) | HasSlot(f: Frame) | Filled(f: Frame) | Advancing | Resting
  datatype Consumer = Looks | Leaving

  /** The next half step of the decoder, which takes up `f` when it rests, or of
      the display. */
  datatype Step = Produce(f: Frame) | Consume

  // ----- the two threads on a line of frames -----

  /** The frames from the one that is shown on, without the ring. `size` lags behind
      between the halves of a push and of a step of the display. */
  datatype Line = Line(p: Producer, c: Consumer, live: seq<Frame>, size: int, shown: bool)

  function Produced(z: Line, f: Frame, maxSize: nat): Line {
    match z.p
    case Resting => z.(p := Waits(f))
    case Waits(g) => z.(p := if z.size >= maxSize then z.p else HasSlot(g))
    case HasSlot(g) => z.(p := Filled(g))
    case Filled(g) => z.(p := Advancing, live := z.live + [g])
    case Advancing => z.(p := Resting, size := z.size + 1)
  }

  /** A frame whose push is complete waits to be shown. */
  predicate Ready(z: Line) {
    z.c.Looks? && z.size - (if z.shown then 1 else 0) > 0 && (z.shown ==> |z.live| > 1) && z.live != []
  }

  function Consumed(z: Line, keepLast: bool): Line {
    match z.c
    case Looks =>
      if !Ready(z) then z
      else if keepLast && !z.shown then z.(shown := true)
      else z.(live := z.live[1..], c := Leaving)
    case Leaving => z.(c := Looks, size := z.size - 1)
  }

  /** The decoder stands still exactly while the ring is full, and the display exactly
      while no completely pushed frame waits. */
  lemma StandStillExactly(z: Line, f: Frame, maxSize: nat, keepLast: bool)
    ensures Produced(z, f, maxSize).p != z.p <==> !z.p.Waits? || z.size < maxSize
    ensures Consumed(z, keepLast).c != z.c || Consumed(z, keepLast).shown != z.shown <==> z.c.Leaving? || Ready(z)
  {
  }

  function Moved(z: Line, step: Step, maxSize: nat, keepLast: bool): Line {
    if step.Produce? then Produced(z, step.f, maxSize) else Consumed(z, keepLast)
  }

  function AllMoved(z: Line, steps: seq<Step>, maxSize: nat, keepLast: bool): Line {
    if steps == [] then z
    else Moved(AllMoved(z, steps[..|steps| - 1], maxSize, keepLast), steps[|steps| - 1], maxSize, keepLast)
  }

  /** What a step pushes, and what it shows. */
  function Push(z: Line, step: Step): seq<Frame> {
    if step.Produce? && z.p.Filled? then [z.p.f] else []
  }

  function Show(z: Line, step: Step): seq<Frame> {
    if step.Consume? && Ready(z) then [z.live[if z.shown then 1 else 0]] else []
  }

  function Pushed(z: Line, steps: seq<Step>, maxSize: nat, keepLast: bool): seq<Frame> {
    if steps == [] then []
    else
      var n := |steps| - 1;
      Pushed(z, steps[..n], maxSize, keepLast) + Push(AllMoved(z, steps[..n], maxSize, keepLast), steps[n])
  }

  function ShownBy(z: Line, steps: seq<Step>, maxSize: nat, keepLast: bool): seq<Frame> {
    if steps == [] then []
    else
      var n := |steps| - 1;
      ShownBy(z, steps[..n], maxSize, keepLast) + Show(AllMoved(z, steps[..n], maxSize, keepLast), steps[n])
  }

  /** The frames that the decoder was given. */
  function Offered(steps: seq<Step>): seq<Frame> {
    if steps == [] then []
    else
      var last := steps[|steps| - 1];
      Offered(steps[..|steps| - 1]) + if last.Produce? then [last.f] else []
  }

  predicate IsSubsequence(a: seq<Frame>, b: seq<Frame>)
    decreases |b|
  {
    || a == []
    || (b != [] && IsSubsequence(a, b[..|b| - 1]))
    || (b != [] && a[|a| - 1] == b[|b| - 1] && IsSubsequence(a[..|a| - 1], b[..|b| - 1]))
  }

  lemma SubsequenceMore(a: seq<Frame>, b: seq<Frame>, f: Frame)
    requires IsSubsequence(a, b)
    ensures IsSubsequence(a, b + [f]) && IsSubsequence(a + [f], b + [f])
  {
    assert (a + [f])[..|a|] == a && (b + [f])[..|b|] == b;
  }

  /** The frame that the decoder works on. */
  function InHand(p: Producer): seq<Frame> {
    if p.Waits? || p.HasSlot? || p.Filled? then [p.f] else []
  }

  /** Only frames that the decoder was given are pushed, in the order in which it got
      them; the one in its hand comes next. */
  lemma {:induction false} PushedWereOffered(z: Line, steps: seq<Step>, maxSize: nat, keepLast: bool)
    requires z.p.Resting?
    ensures IsSubsequence(Pushed(z, steps, maxSize, keepLast) + InHand(AllMoved(z, steps, maxSize, keepLast).p), Offered(steps))
    decreases |steps|
  {
    if steps != [] {
      var n := |steps| - 1;
      PushedWereOffered(z, steps[..n], maxSize, keepLast);
      StepOffers(AllMoved(z, steps[..n], maxSize, keepLast), Pushed(z, steps[..n], maxSize, keepLast), Offered(steps[..n]),
                 steps[n], maxSize, keepLast);
      hide IsSubsequence;
    }
  }

  lemma StepOffers(z: Line, pushed: seq<Frame>, offered: seq<Frame>, step: Step, maxSize: nat, keepLast: bool)
    requires IsSubsequence(pushed + InHand(z.p), offered)
    ensures IsSubsequence(pushed + Push(z, step) + InHand(Moved(z, step, maxSize, keepLast).p),
                          offered + if step.Produce? then [step.f] else [])
  {
    hide IsSubsequence;
    var hand, p' := InHand(z.p), Moved(z, step, maxSize, keepLast).p;
    StepHand(z, step, maxSize, keepLast);
    hide Push, InHand, Moved;
    assert pushed + Push(z, step) + InHand(p') == pushed + (Push(z, step) + InHand(p'));
    if step.Produce? {
      SubsequenceMore(pushed + hand, offered, step.f);
      assert pushed + (hand + [step.f]) == pushed + hand + [step.f];
    } else {
      assert offered + [] == offered;
    }
  }

  /** A push empties the decoder's hand, and an empty hand takes up what comes. */
  lemma StepHand(z: Line, step: Step, maxSize: nat, keepLast: bool)
    ensures var hand := Push(z, step) + InHand(Moved(z, step, maxSize, keepLast).p);
      hand == if step.Produce? && z.p.Resting? then InHand(z.p) + [step.f] else InHand(z.p)
  {
  }

  class FrameQueue {
    const queue: array<Option<Frame>>
    const maxSize: nat
    const keepLast: bool
    var rindex: nat
    var windex: nat
    var size: int
    var rindexShown: nat

    /** the frames from rindex on */
    ghost var live: seq<Frame>
    /** windex is advanced and size is not yet */
    ghost var pushing: bool
    /** rindex is advanced and size is not yet */
    ghost var popping: bool
    /** the decoder was given a slot to write */
    ghost var claimed: bool

    function Wrap(i: nat): nat {
      if i < maxSize then i else i - maxSize
    }

    lemma WrapMod(i: nat)
      requires i < 2 * maxSize
      ensures i % maxSize == Wrap(i)
    {
      if i >= maxSize {
        assert i == maxSize * 1 + (i - maxSize);
      }
    }

    /** Where the `i`th live frame is. */
    function Slot(i: nat): nat
      reads this`rindex
    {
      Wrap(rindex + i)
    }

    ghost predicate Stored()
      reads this`rindex, this`live, queue
    {
      && queue.Length == maxSize && rindex < maxSize && |live| <= maxSize
      && forall i :: 0 <= i < |live| ==> queue[Slot(i)] == Some(live[i])
    }

    ghost predicate Valid()
      reads this, queue
    {
      && 0 < maxSize <= FRAME_QUEUE_SIZE && Stored()
      && windex == Slot(|live|) && windex < maxSize
      && |live| + (if popping then 1 else 0) == size + (if pushing then 1 else 0)
      && (rindexShown == 0 || (rindexShown == 1 && keepLast && live != []))
      && (pushing ==> live != [] && |live| > rindexShown)
      && (claimed ==> !pushing && |live| < maxSize)
    }

    ghost function Seen(): View
      reads this
    {
      ViewOf(live, rindexShown == 1)
    }

    /** frame_queue_init. */
    constructor (maxSize: nat, keepLast: bool)
      requires maxSize > 0
      ensures Valid() && live == [] && !pushing && !popping && !claimed && fresh(queue)
      ensures this.maxSize == Min(maxSize, FRAME_QUEUE_SIZE) && this.keepLast == keepLast
    {
      var n: nat := Min(maxSize, FRAME_QUEUE_SIZE);
      this.maxSize, this.keepLast := n, keepLast;
      queue := new Option<Frame>[n](_ => None);
      rindex, windex, size, rindexShown := 0, 0, 0, 0;
      live, pushing, popping, claimed := [], false, false, false;
    }

    /** frame_queue_peek_writable: a slot, or -1 to wait. The slot holds neither a
        frame to come nor the one that is kept. */
    method PeekWritable() returns (slot: int)
      requires Valid() && !pushing && !claimed
      modifies this`claimed
      ensures Valid() && claimed == (slot >= 0)
      ensures slot >= 0 <==> size < maxSize
      ensures slot >= 0 ==> slot == windex && forall i :: 0 <= i < |live| ==> Slot(i) != slot
    {
      if size >= maxSize { return -1; }
      claimed := true;
      return windex;
    }

    /** The decoder writes to the slot it was given. */
    method Fill(f: Frame)
      requires Valid() && claimed
      modifies queue
      ensures Valid() && queue[windex] == Some(f)
    {
      queue[windex] := Some(f);
    }

    /** The first half of frame_queue_push. */
    method PushIndex(ghost f: Frame)
      requires Valid() && claimed && queue[windex] == Some(f)
      modifies this`windex, this`live, this`pushing, this`claimed
      ensures Valid() && pushing && !claimed
      ensures live == old(live) + [f]
      ensures Seen() == View(old(Seen()).shown, old(Seen()).pending + [f])
    {
      windex := windex + 1;
      if windex == maxSize {
        windex := 0;
      }
      live, pushing, claimed := live + [f], true, false;
    }

    /** The locked half of frame_queue_push. */
    method PushSize()
      requires Valid() && pushing
      modifies this`size, this`pushing
      ensures Valid() && !pushing && size == old(size) + 1 && Seen() == old(Seen())
    {
      size := size + 1;
      pushing := false;
    }

    /** frame_queue_nb_remaining counts the frames to come whose push is complete. */
    method NbRemaining() returns (n: int)
      requires Valid() && !popping
      ensures n == |Seen().pending| - (if pushing then 1 else 0) >= 0 && n == size - rindexShown
    {
      n := size - rindexShown;
    }

    /** frame_queue_peek, and the result of frame_queue_peek_readable. */
    method Peek() returns (f: Option<Frame>)
      requires Valid() && !popping && size - rindexShown > 0
      ensures Seen().pending != [] && f == Some(Seen().pending[0])
    {
      WrapMod(rindex + rindexShown);
      f := queue[(rindex + rindexShown) % maxSize];
      assert f == queue[Slot(rindexShown)];
    }

    /** frame_queue_peek_next, asked for when more than one frame remains. */
    method PeekNext() returns (f: Option<Frame>)
      requires Valid() && !popping && size - rindexShown > 1
      ensures |Seen().pending| > 1 && f == Some(Seen().pending[1])
    {
      WrapMod(rindex + rindexShown + 1);
      f := queue[(rindex + rindexShown + 1) % maxSize];
      assert f == queue[Slot(rindexShown + 1)];
    }

    /** frame_queue_peek_last: the frame that is kept. */
    method PeekLast() returns (f: Option<Frame>)
      requires Valid() && !popping
      ensures Seen().shown.Some? ==> f == Seen().shown
      ensures Seen().shown.None? && Seen().pending != [] ==> f == Some(Seen().pending[0])
    {
      f := queue[rindex];
      assert live != [] ==> f == queue[Slot(0)];
    }

    /** frame_queue_unref_item and the step of rindex. */
    method DropFirst()
      requires Stored() && live != [] && maxSize > 0
      modifies this`rindex, this`live, queue
      ensures Stored() && live == old(live[1..]) && Slot(|live|) == old(Slot(|live|))
      ensures forall j :: 0 <= j < maxSize && j != old(rindex) ==> queue[j] == old(queue[j])
    {
      queue[rindex] := None;
      ghost var before := rindex;
      rindex := rindex + 1;
      if rindex == maxSize {
        rindex := 0;
      }
      ghost var all := live;
      live := live[1..];
      forall i | 0 <= i < |live|
        ensures Slot(i) == Wrap(before + (i + 1)) && Slot(i) != before && live[i] == all[i + 1]
      {
      }
    }

    /** The first half of frame_queue_next. The decoder's slot stays its own. */
    method NextIndex() returns (done: bool)
      requires Valid() && !popping && size - rindexShown > 0
      modifies this`rindex, this`rindexShown, this`live, this`popping, queue
      ensures Valid() && popping == !done
      ensures old(Seen()).pending != [] && Seen() == Advanced(old(Seen()), keepLast)
      ensures done == (keepLast && old(rindexShown) == 0) && rindexShown == (if done then 1 else old(rindexShown))
      ensures old(live) != [] && live == if done then old(live) else old(live[1..])
      ensures claimed ==> queue[windex] == old(queue[windex])
    {
      if keepLast && rindexShown == 0 {
        rindexShown := 1;
        return true;
      }
      assert claimed ==> windex != rindex;
      hide Stored, Slot;
      DropFirst();
      popping := true;
      done := false;
    }

    /** The locked half of frame_queue_next. */
    method NextSize()
      requires Valid() && popping
      modifies this`size, this`popping
      ensures Valid() && !popping && size == old(size) - 1 && Seen() == old(Seen())
    {
      size := size - 1;
      popping := false;
    }

    /** The halves of both threads are where the program counters say. */
    ghost predicate At(p: Producer, c: Consumer)
      reads this, queue
    {
      && Valid() && pushing == p.Advancing? && claimed == (p.HasSlot? || p.Filled?) && popping == c.Leaving?
      && (p.Filled? ==> queue[windex] == Some(p.f))
    }

    ghost function AsLine(p: Producer, c: Consumer): Line
      reads this
    {
      Line(p, c, live, size, rindexShown == 1)
    }

    /** One half step of the decoder; `pushed` is what it makes visible. */
    method ProducerStep(p: Producer, f: Frame, ghost c: Consumer) returns (p': Producer, ghost pushed: seq<Frame>)
      requires At(p, c)
      modifies this`windex, this`size, this`live, this`pushing, this`claimed, queue
      ensures At(p', c) && Seen() == View(old(Seen()).shown, old(Seen()).pending + pushed)
      ensures pushed == Push(old(AsLine(p, c)), Produce(f)) && AsLine(p', c) == Produced(old(AsLine(p, c)), f, maxSize)
    {
      pushed := [];
      match p {
        case Resting => p' := Waits(f);
        case Waits(g) =>
          var slot := PeekWritable();
          p' := if slot < 0 then p else HasSlot(g);
        case HasSlot(g) =>
          Fill(g);
          p' := Filled(g);
        case Filled(g) =>
          PushIndex(g);
          p', pushed := Advancing, [g];
        case Advancing =>
          PushSize();
          p' := Resting;
      }
    }

    /** One half step of the display; `shown` is what it shows. */
    method ConsumerStep(ghost p: Producer, c: Consumer) returns (c': Consumer, shown: seq<Frame>)
      requires At(p, c)
      modifies this`rindex, this`rindexShown, this`size, this`live, this`popping, queue
      ensures At(p, c') && old(Seen()).pending == shown + Seen().pending && |shown| <= 1
      ensures if shown == [] then Seen().shown == old(Seen()).shown
              else Seen().shown == if keepLast then Some(shown[0]) else None
      ensures shown == Show(old(AsLine(p, c)), Consume) && AsLine(p, c') == Consumed(old(AsLine(p, c)), keepLast)
    {
      hide Valid, Seen;
      shown := [];
      match c {
        case Looks =>
          ReadyIs(p);
          var n := NbRemaining();
          if n > 0 {
            var f := Peek();
            var done := NextIndex();
            shown := [f.value];
            c' := if done then Looks else Leaving;
          } else {
            c' := Looks;
          }
        case Leaving =>
          NextSize();
          c' := Looks;
      }
    }

    /** The counter tells whether a frame is ready, and which. */
    lemma ReadyIs(p: Producer)
      requires At(p, Looks)
      ensures Ready(AsLine(p, Looks)) <==> size - rindexShown > 0
      ensures Ready(AsLine(p, Looks)) ==> Show(AsLine(p, Looks), Consume) == Seen().pending[..1]
      ensures Ready(AsLine(p, Looks)) ==>
        var done := keepLast && rindexShown == 0;
        Consumed(AsLine(p, Looks), keepLast)
        == Line(p, if done then Looks else Leaving, if done then live else live[1..], size, done || rindexShown == 1)
    {
    }

    /** One half step of one of the threads. */
    method HalfStep(step: Step, p: Producer, c: Consumer) returns (p': Producer, c': Consumer, pushed: seq<Frame>, shown: seq<Frame>)
      requires At(p, c)
      modifies this, queue
      ensures At(p', c') && AsLine(p', c') == Moved(old(AsLine(p, c)), step, maxSize, keepLast)
      ensures pushed == Push(old(AsLine(p, c)), step) && shown == Show(old(AsLine(p, c)), step)
      ensures old(Seen()).pending + pushed == shown + Seen().pending
      ensures keepLast && shown != [] ==> Seen().shown == Some(shown[|shown| - 1])
      ensures shown == [] ==> Seen().shown == old(Seen()).shown
    {
      hide At, ViewOf, Seen, Produced, Consumed, Ready;
      p', c', pushed, shown := p, c, [], [];
      match step {
        case Produce(f) =>
          if p.Filled? {
            pushed := [p.f];
          }
          ghost var visible;
          p', visible := ProducerStep(p, f, c);
        case Consume =>
          c', shown := ConsumerStep(p, c);
      }
    }

    /** Where a sequence of half steps has led that began with `start` to be shown. */
    ghost predicate Kept(z: Line, start: seq<Frame>, steps: seq<Step>, p: Producer, c: Consumer, pushed: seq<Frame>, shown: seq<Frame>)
      reads this, queue
    {
      && At(p, c) && Followed(z, steps, AsLine(p, c), pushed, shown, maxSize, keepLast)
      && start + pushed == shown + Seen().pending
      && (keepLast && shown != [] ==> Seen().shown == Some(shown[|shown| - 1]))
    }

    method SessionStep(ghost z: Line, ghost start: seq<Frame>, steps: seq<Step>, k: nat, p: Producer, c: Consumer,
                       pushed: seq<Frame>, shown: seq<Frame>)
      returns (p': Producer, c': Consumer, pushed': seq<Frame>, shown': seq<Frame>)
      requires k < |steps| && Kept(z, start, steps[..k], p, c, pushed, shown)
      modifies this, queue
      ensures Kept(z, start, steps[..k + 1], p', c', pushed', shown')
    {
      hide At, AsLine, Seen, Moved, Push, Show, Followed;
      FollowedOn(z, steps, k, AsLine(p, c), pushed, shown, maxSize, keepLast);
      ghost var before := Seen().pending;
      var more, now;
      p', c', more, now := HalfStep(steps[k], p, c);
      Regroup(start, pushed, shown, before, more, now, Seen().pending);
      pushed', shown' := pushed + more, shown + now;
    }

    /** Decoder and display in any interleaving of their half steps: every frame is
        shown once, in the order in which it was pushed. What is pushed and shown is
        what the steps push and show of a line of frames; only frames that the
        decoder was given are pushed, in that order. */
    method Session(steps: seq<Step>) returns (pushed: seq<Frame>, shown: seq<Frame>)
      requires At(Resting, Looks)
      modifies this, queue
      ensures pushed == Pushed(old(AsLine(Resting, Looks)), steps, maxSize, keepLast)
      ensures shown == ShownBy(old(AsLine(Resting, Looks)), steps, maxSize, keepLast)
      ensures var z := AllMoved(old(AsLine(Resting, Looks)), steps, maxSize, keepLast);
        At(z.p, z.c) && AsLine(z.p, z.c) == z && IsSubsequence(pushed + InHand(z.p), Offered(steps))
      ensures old(Seen()).pending + pushed == shown + Seen().pending
      ensures keepLast && shown != [] ==> Seen().shown == Some(shown[|shown| - 1])
    {
      pushed, shown := [], [];
      var p, c := Resting, Looks;
      ghost var z, start := AsLine(p, c), Seen().pending;
      assert steps[..0] == [] && steps[..|steps|] == steps;
      hide At, AsLine, Seen, Moved, Push, Show;
      for k := 0 to |steps|
        invariant Kept(z, start, steps[..k], p, c, pushed, shown)
      {
        hide Kept;
        p, c, pushed, shown := SessionStep(z, start, steps, k, p, c, pushed, shown);
      }
      FollowedIs(z, steps, p, c, pushed, shown);
      PushedWereOffered(z, steps, maxSize, keepLast);
    }

    lemma FollowedIs(z: Line, steps: seq<Step>, p: Producer, c: Consumer, pushed: seq<Frame>, shown: seq<Frame>)
      requires Followed(z, steps, AsLine(p, c), pushed, shown, maxSize, keepLast)
      ensures pushed == Pushed(z, steps, maxSize, keepLast) && shown == ShownBy(z, steps, maxSize, keepLast)
      ensures var z' := AllMoved(z, steps, maxSize, keepLast); z'.p == p && z'.c == c && AsLine(p, c) == z'
    {
    }
  }

  lemma Regroup(start: seq<Frame>, pushed: seq<Frame>, shown: seq<Frame>, before: seq<Frame>,
                more: seq<Frame>, now: seq<Frame>, after: seq<Frame>)
    ensures start + pushed == shown + before && before + more == now + after
      ==> start + (pushed + more) == shown + now + after
  {
    if start + pushed == shown + before && before + more == now + after {
      calc {
        start + (pushed + more);
        start + pushed + more;
        shown + before + more;
        shown + (before + more);
        shown + (now + after);
        shown + now + after;
      }
    }
  }

  /** The steps lead from `z` to `z'` and push and show these frames. */
  ghost predicate Followed(z: Line, steps: seq<Step>, z': Line, pushed: seq<Frame>, shown: seq<Frame>, maxSize: nat, keepLast: bool) {
    && z' == AllMoved(z, steps, maxSize, keepLast) && pushed == Pushed(z, steps, maxSize, keepLast)
    && shown == ShownBy(z, steps, maxSize, keepLast)
  }

  lemma FollowedOn(z: Line, steps: seq<Step>, k: nat, z': Line, pushed: seq<Frame>, shown: seq<Frame>, maxSize: nat, keepLast: bool)
    requires k < |steps| && Followed(z, steps[..k], z', pushed, shown, maxSize, keepLast)
    ensures Followed(z, steps[..k + 1], Moved(z', steps[k], maxSize, keepLast), pushed + Push(z', steps[k]),
                     shown + Show(z', steps[k]), maxSize, keepLast)
  {
    assert steps[..k + 1][..k] == steps[..k];
  }
}
