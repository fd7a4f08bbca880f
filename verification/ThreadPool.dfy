/** The worker pool of ijkavutil/ijkthreadpool.c. Every method here is a section
    under the pool's mutex, so workers and callers may alternate at will. */
module ThreadPools {
  const MAX_QUEUE := 1024
  const IJK_IMMEDIATE_SHUTDOWN := 1
  const IJK_LEISURELY_SHUTDOWN := 2
  const IJK_THREADPOOL_QUEUE_FULL := -3
  const IJK_THREADPOOL_SHUTDOWN := -4

  /** A function with its arguments, told apart by a number. */
  datatype Task = Task(id: int)

  function Wrap(i: nat, size: nat): nat {
    if i < size then i else i - size
  }

  /** Where the `i`th task from `head` on is. */
  function Place(head: nat, i: nat, size: nat): nat {
    Wrap(head + i, size)
  }

  lemma WrapMod(i: nat, size: nat)
    requires size > 0 && i < 2 * size
    ensures i % size == Wrap(i, size)
  {
    if i >= size {
      assert i == size * 1 + (i - size);
    }
  }

  /** The ring holds the tasks from `head` on, and `tail` is the place behind. */
  ghost predicate IsRing(queue: seq<Task>, head: nat, tail: nat, tasks: seq<Task>) {
    && head < |queue| && tail < |queue| && |tasks| <= |queue|
    && tail == Place(head, |tasks|, |queue|)
    && forall i :: 0 <= i < |tasks| ==> queue[Place(head, i, |queue|)] == tasks[i]
  }

  function GrownSize(size: nat): nat {
    if size * 2 > MAX_QUEUE then MAX_QUEUE else size * 2
  }

  function Blanks(n: nat, blank: Task): seq<Task> {
    seq(n, _ => blank)
  }

  /** Enlarging a ring that lacks one task moves nothing. It stays right exactly
      when its first task is at the front, or it is not enlarged at all. */
  lemma GrowthExactly(queue: seq<Task>, head: nat, tail: nat, tasks: seq<Task>, more: seq<Task>)
    requires IsRing(queue, head, tail, tasks) && |tasks| == |queue| - 1
    ensures IsRing(queue + more, head, tail, tasks) <==> head == 0 || more == []
  {
    if more == [] {
      assert queue + more == queue;
    } else if head == 0 {
      forall i | 0 <= i < |tasks|
        ensures (queue + more)[i] == tasks[i]
      {
        assert queue[Place(head, i, |queue|)] == tasks[i];
      }
    }
  }

  /** The `n` tasks from `head` on. */
  function OrderOf(queue: seq<Task>, head: nat, n: nat): (order: seq<Task>)
    requires head < |queue|
    ensures |order| == n
    decreases n
  {
    if n == 0 then [] else [queue[head]] + OrderOf(queue, Wrap(head + 1, |queue|), n - 1)
  }

  lemma {:induction false} OrderAt(queue: seq<Task>, head: nat, n: nat, i: nat)
    requires head < |queue| && i < n <= |queue|
    ensures Place(head, i, |queue|) < |queue| && OrderOf(queue, head, n)[i] == queue[Place(head, i, |queue|)]
    decreases n
  {
    if i > 0 {
      OrderAt(queue, Wrap(head + 1, |queue|), n - 1, i - 1);
    }
  }

  /** A right ring gives its tasks in order. */
  lemma RingOrder(queue: seq<Task>, head: nat, tail: nat, tasks: seq<Task>)
    requires IsRing(queue, head, tail, tasks) && head < |queue|
    ensures OrderOf(queue, head, |tasks|) == tasks
  {
    forall i | 0 <= i < |tasks|
      ensures OrderOf(queue, head, |tasks|)[i] == tasks[i]
    {
      OrderAt(queue, head, |tasks|, i);
    }
  }

  /** What a worker does after its locked section. */
  datatype Turn = Wait | Exit | Do(task: Task)

  /** A use of the pool, by a caller or by a worker. */
  datatype Use = DoAdd(task: Task, memory: bool) | DoWork | DoShutdown(flags: int)

  /** The numbers of a pool, without its tasks. */
  datatype Sizes = Sizes(head: nat, pending: int, len: nat, shutdown: int)

  predicate Accepts(z: Sizes) {
    z.pending != z.len && z.shutdown == 0
  }

  predicate Takes(z: Sizes) {
    z.pending != 0 && z.shutdown != IJK_IMMEDIATE_SHUTDOWN
  }

  /** What a use does to the numbers. */
  function Used(z: Sizes, use: Use): Sizes {
    match use
    case DoAdd(_, memory) =>
      z.(len := if z.pending == z.len - 1 && memory then GrownSize(z.len) else z.len,
         pending := z.pending + if Accepts(z) then 1 else 0)
    case DoWork =>
      z.(head := if Takes(z) then Wrap(z.head + 1, z.len) else z.head, pending := z.pending - if Takes(z) then 1 else 0)
    case DoShutdown(flags) => z.(shutdown := if z.shutdown != 0 then z.shutdown else flags)
  }

  function AllUsed(z: Sizes, uses: seq<Use>): Sizes {
    if uses == [] then z else Used(AllUsed(z, uses[..|uses| - 1]), uses[|uses| - 1])
  }

  /** Whenever the ring is enlarged, its first task is at the front. */
  predicate SafeUse(z: Sizes, use: Use) {
    use.DoAdd? && use.memory && z.pending == z.len - 1 && z.len < MAX_QUEUE ==> z.head == 0
  }

  predicate Safe(z: Sizes, uses: seq<Use>) {
    uses != [] ==> Safe(z, uses[..|uses| - 1]) && SafeUse(AllUsed(z, uses[..|uses| - 1]), uses[|uses| - 1])
  }

  /** The tasks that are accepted, and how many are taken. */
  function Added(z: Sizes, uses: seq<Use>): seq<Task> {
    if uses == [] then []
    else
      var last := uses[|uses| - 1];
      Added(z, uses[..|uses| - 1]) + if last.DoAdd? && Accepts(AllUsed(z, uses[..|uses| - 1])) then [last.task] else []
  }

  function Taken(z: Sizes, uses: seq<Use>): nat {
    if uses == [] then 0
    else
      Taken(z, uses[..|uses| - 1]) + if uses[|uses| - 1].DoWork? && Takes(AllUsed(z, uses[..|uses| - 1])) then 1 else 0
  }

  /** A pool that has its final size, or that cannot get memory, or that nobody has
      taken from, is safe. */
  lemma {:induction false} SafeWithoutGrowth(z: Sizes, uses: seq<Use>)
    requires z.len == MAX_QUEUE || (forall u :: u in uses && u.DoAdd? ==> !u.memory) || (z.head == 0 && DoWork !in uses)
    ensures Safe(z, uses)
    ensures z.len == MAX_QUEUE ==> AllUsed(z, uses).len == MAX_QUEUE
    ensures DoWork !in uses ==> AllUsed(z, uses).head == z.head
    decreases |uses|
  {
    if uses != [] {
      SafeWithoutGrowth(z, uses[..|uses| - 1]);
    }
  }

  class ThreadPool {
    var queue: array<Task>
    var head: nat
    var tail: nat
    var pending: int
    var shutdown: int
    var started: int

    /** what should wait, and the history of what was accepted and taken */
    ghost var tasks: seq<Task>
    ghost var accepted: seq<Task>
    ghost var taken: seq<Task>

    /** The numbers fit; the ring need not hold what it should. */
    ghost predicate Sane()
      reads this, queue
    {
      && 0 < queue.Length <= MAX_QUEUE && head < queue.Length && tail < queue.Length
      && 0 <= pending == |tasks| <= queue.Length
      && (shutdown == 0 || shutdown == IJK_IMMEDIATE_SHUTDOWN || shutdown == IJK_LEISURELY_SHUTDOWN)
    }

    ghost predicate Valid()
      reads this, queue
    {
      Sane() && IsRing(queue[..], head, tail, tasks) && accepted == taken + tasks
    }

    /** The tasks that the workers will take, in that order, if no more are added. */
    ghost function Order(): seq<Task>
      requires Sane()
      reads this, queue
    {
      OrderOf(queue[..], head, pending)
    }

    /** An addition now would not move a wrapped ring into a larger one. */
    predicate GrowthSafe()
      reads this, queue
    {
      pending == queue.Length - 1 && queue.Length < MAX_QUEUE ==> head == 0
    }

    /** ijk_threadpool_create. */
    constructor (queueSize: nat, threads: int, blank: Task)
      requires 0 < queueSize <= MAX_QUEUE
      ensures Valid() && tasks == [] && accepted == [] && taken == [] && shutdown == 0 && head == 0 && fresh(queue)
      ensures queue.Length == queueSize && tail == 0
    {
      queue := new Task[queueSize](_ => blank);
      head, tail, pending, shutdown, started := 0, 0, 0, 0, threads;
      tasks, accepted, taken := [], [], [];
    }

    /** Lines 159-166: realloc keeps what was there and does not write the rest,
        which reads as `blank`; it may fail. */
    method Grow(memory: bool, blank: Task)
      requires 0 < queue.Length <= MAX_QUEUE
      modifies this`queue
      ensures queue == old(queue) || fresh(queue)
      ensures queue.Length == (if memory then GrownSize(old(queue.Length)) else old(queue.Length)) >= old(queue.Length)
      ensures queue[..] == old(queue[..]) + Blanks(queue.Length - old(queue.Length), blank)
    {
      if memory {
        var n := queue.Length;
        var grown := new Task[GrownSize(n)](_ => blank);
        for i := 0 to n
          invariant queue == old(queue) && grown.Length == GrownSize(n) && grown[..i] == queue[..i]
          invariant forall j :: n <= j < grown.Length ==> grown[j] == blank
          invariant queue[..] == old(queue[..])
        {
          grown[i] := queue[i];
        }
        assert queue[..n] == queue[..];
        assert grown[..] == queue[..] + Blanks(grown.Length - n, blank);
        queue := grown;
      }
    }

    /** What the ring is after the task was put into it, with `more` slots. */
    ghost predicate Holds(before: seq<Task>, tail0: nat, task: Task, more: nat, blank: Task)
      reads this, queue
    {
      && tail0 < |before| && queue.Length == |before| + more
      && queue[..] == (before + Blanks(more, blank))[tail0 := task] && tail == Wrap(tail0 + 1, queue.Length)
    }

    /** ijk_threadpool_add. The tasks will be taken in the order in which they were
        accepted exactly when the ring was not enlarged while its first task was
        behind the front, unless the new memory happens to read like a task:
        realloc does not move the part of the ring that had wrapped around. */
    method Add(task: Task, memory: bool, blank: Task) returns (err: int)
      requires Sane()
      modifies this, queue
      ensures Sane() && head == old(head) && shutdown == old(shutdown) && taken == old(taken)
      ensures queue == old(queue) || fresh(queue)
      ensures err == if old(|tasks|) == old(queue.Length) then IJK_THREADPOOL_QUEUE_FULL
                     else if shutdown != 0 then IJK_THREADPOOL_SHUTDOWN else 0
      ensures tasks == if err == 0 then old(tasks) + [task] else old(tasks)
      ensures accepted == if err == 0 then old(accepted) + [task] else old(accepted)
      ensures var n := old(queue.Length);
        queue.Length == if old(pending) == n - 1 && memory then GrownSize(n) else n
      ensures err == 0 ==> Holds(old(queue[..]), old(tail), task, queue.Length - old(queue.Length), blank)
      ensures old(Valid()) ==> (Valid() <==> old(GrowthSafe()) || !memory)
      ensures old(Valid()) && err == 0 && blank !in tasks ==> (Order() == tasks <==> old(GrowthSafe()) || !memory)
    {
      hide IsRing, OrderOf;
      ghost var valid, safe, before := Valid(), GrowthSafe(), queue[..];
      if pending == MAX_QUEUE || pending == queue.Length { return IJK_THREADPOOL_QUEUE_FULL; }
      if pending == queue.Length - 1 {
        GrowRing(memory, blank);
      } else {
        assert queue[..] == before + Blanks(0, blank);
      }
      if shutdown != 0 { return IJK_THREADPOOL_SHUTDOWN; }
      ghost var grown := queue.Length - |before|;
      PutTask(task);
      accepted := accepted + [task];
      err := 0;
      if Valid() {
        RingOrder(queue[..], head, tail, tasks);
      } else if valid {
        BlankIsTaken(|before|, grown, blank);
      }
    }

    /** A task that had wrapped around, or the new one, is looked for in memory that
        was never written. */
    lemma BlankIsTaken(n: nat, more: nat, blank: Task)
      requires Sane() && pending == n && more > 0 && 0 < head < n && queue.Length == n + more && queue[n] == blank
      ensures blank !in tasks ==> Order() != tasks
    {
      OrderAt(queue[..], head, pending, n - head);
      assert Order()[n - head] == blank;
      assert n - head < |tasks|;
    }

    /** Lines 168 and 176-181. */
    method PutTask(task: Task)
      requires tail < queue.Length && |tasks| < queue.Length
      modifies this`tail, this`pending, this`tasks, queue
      ensures tasks == old(tasks) + [task] && pending == old(pending) + 1
      ensures tail == Wrap(old(tail) + 1, queue.Length) && queue[..] == old(queue[..])[old(tail) := task]
      ensures old(IsRing(queue[..], head, tail, tasks)) ==> IsRing(queue[..], head, tail, tasks)
      ensures old(tail == head - 1 && head < queue.Length && |tasks| + 1 < queue.Length) ==> !IsRing(queue[..], head, tail, tasks)
    {
      WrapMod(tail + 1, queue.Length);
      var next := (tail + 1) % queue.Length;
      if IsRing(queue[..], head, tail, tasks) {
        PutAtTail(queue[..], head, tail, tasks, task);
      }
      queue[tail] := task;
      tail := next;
      pending := pending + 1;
      tasks := tasks + [task];
    }

    static lemma PutAtTail(queue: seq<Task>, head: nat, tail: nat, tasks: seq<Task>, task: Task)
      requires IsRing(queue, head, tail, tasks) && |tasks| < |queue|
      ensures IsRing(queue[tail := task], head, Wrap(tail + 1, |queue|), tasks + [task])
    {
    }

    method GrowRing(memory: bool, blank: Task)
      requires Sane() && pending == queue.Length - 1
      modifies this`queue
      ensures queue == old(queue) || fresh(queue)
      ensures queue.Length == if memory then GrownSize(old(queue.Length)) else old(queue.Length)
      ensures queue[..] == old(queue[..]) + Blanks(queue.Length - old(queue.Length), blank)
      ensures old(Valid()) ==> (IsRing(queue[..], head, tail, tasks) <==> old(GrowthSafe()) || !memory)
      ensures old(Valid()) && !(old(GrowthSafe()) || !memory) ==> tail == head - 1 && head < old(queue.Length) < queue.Length
    {
      ghost var before, valid := queue[..], Valid();
      Grow(memory, blank);
      if valid {
        GrowthExactly(before, head, tail, tasks, Blanks(queue.Length - |before|, blank));
      }
    }

    /** One locked section of ijk_threadpool_thread. A worker that leaves because of
        a leisurely shutdown leaves nothing behind, and tasks are taken as the ring
        holds them: while it is right, in the order in which they were accepted. */
    method WorkerTurn() returns (turn: Turn)
      requires Sane()
      modifies this
      ensures Sane() && queue == old(queue) && shutdown == old(shutdown) && accepted == old(accepted)
      ensures old(Valid()) ==> Valid()
      ensures turn.Wait? <==> old(tasks) == [] && shutdown == 0
      ensures turn.Exit? <==> shutdown == IJK_IMMEDIATE_SHUTDOWN || (shutdown == IJK_LEISURELY_SHUTDOWN && old(tasks) == [])
      ensures if turn.Do? then old(Order()) == [turn.task] + Order() && tasks == old(tasks)[1..] && taken == old(taken) + [turn.task]
              else Order() == old(Order()) && tasks == old(tasks) && taken == old(taken)
      ensures old(Valid()) && turn.Do? ==> old(tasks) == [turn.task] + tasks
      ensures head == if turn.Do? then Wrap(old(head) + 1, queue.Length) else old(head)
      ensures tail == old(tail)
      ensures started == old(started) - if turn.Exit? then 1 else 0
    {
      hide IsRing;
      if pending == 0 && shutdown == 0 { return Wait; }
      if shutdown == IJK_IMMEDIATE_SHUTDOWN || (shutdown == IJK_LEISURELY_SHUTDOWN && pending == 0) {
        started := started - 1;
        return Exit;
      }
      if Valid() {
        TakeAtHead(queue[..], head, tail, tasks);
      }
      WrapMod(head + 1, queue.Length);
      assert Order() == [queue[head]] + OrderOf(queue[..], Wrap(head + 1, queue.Length), pending - 1);
      hide OrderOf;
      var task := queue[head];
      head := (head + 1) % queue.Length;
      pending := pending - 1;
      taken, tasks := taken + [task], tasks[1..];
      return Do(task);
    }

    static lemma TakeAtHead(queue: seq<Task>, head: nat, tail: nat, tasks: seq<Task>)
      requires IsRing(queue, head, tail, tasks) && tasks != []
      ensures tasks[0] == queue[head]
      ensures IsRing(queue, Wrap(head + 1, |queue|), tail, tasks[1..])
    {
      var head' := Wrap(head + 1, |queue|);
      assert queue[Place(head, 0, |queue|)] == tasks[0];
      forall i | 0 <= i < |tasks| - 1
        ensures Place(head', i, |queue|) == Place(head, i + 1, |queue|)
      {
      }
    }

    /** The locked part of ijk_threadpool_destroy. */
    method Shutdown(flags: int) returns (err: int)
      requires Sane() && (flags == 0 || flags == IJK_IMMEDIATE_SHUTDOWN || flags == IJK_LEISURELY_SHUTDOWN)
      modifies this`shutdown
      ensures Sane() && (old(Valid()) ==> Valid())
      ensures err == if old(shutdown) != 0 then IJK_THREADPOOL_SHUTDOWN else 0
      ensures shutdown == if old(shutdown) != 0 then old(shutdown) else flags
    {
      if shutdown != 0 { return IJK_THREADPOOL_SHUTDOWN; }
      shutdown := flags;
      err := 0;
    }

    ghost function Numbers(): Sizes
      reads this
    {
      Sizes(head, pending, queue.Length, shutdown)
    }

    /** One use, by a caller or by a worker. */
    method UseOnce(use: Use, blank: Task) returns (added: seq<Task>, done: seq<Task>)
      requires Sane() && (use.DoShutdown? ==> IsShutdownFlag(use.flags))
      modifies this, queue
      ensures Sane() && pending >= 0 && (queue == old(queue) || fresh(queue)) && Numbers() == Used(old(Numbers()), use)
      ensures added == if use.DoAdd? && Accepts(old(Numbers())) then [use.task] else []
      ensures |done| == if use.DoWork? && Takes(old(Numbers())) then 1 else 0
      ensures accepted == old(accepted) + added && taken == old(taken) + done
      ensures old(pending) + |added| == |done| + pending
      ensures old(Valid()) && SafeUse(old(Numbers()), use) ==> Valid() && old(tasks) + added == done + tasks
    {
      hide IsRing, OrderOf, Holds;
      added, done := [], [];
      match use {
        case DoAdd(task, memory) =>
          var err := Add(task, memory, blank);
          if err == 0 {
            added := [task];
          }
        case DoWork =>
          var turn := WorkerTurn();
          if turn.Do? {
            done := [turn.task];
          }
        case DoShutdown(flags) =>
          var _ := Shutdown(flags);
      }
    }

    static lemma Regroup(t0: seq<Task>, added: seq<Task>, more: seq<Task>, done: seq<Task>, before: seq<Task>, now: seq<Task>,
                         after: seq<Task>)
      ensures t0 + added == done + before && before + more == now + after ==> t0 + (added + more) == (done + now) + after
    {
      assert t0 + (added + more) == (t0 + added) + more;
      assert done + before + more == done + (before + more);
    }

    /** Callers and workers use the pool in any order. What was there and what is
        accepted is taken from the front, each task once, if no growth finds its
        first task behind the front. Which tasks are accepted, how many are taken
        and whether growth is safe follows from the numbers at the beginning. */
    method Session(uses: seq<Use>, blank: Task) returns (added: seq<Task>, done: seq<Task>)
      requires Valid()
      requires forall k :: 0 <= k < |uses| && uses[k].DoShutdown? ==> IsShutdownFlag(uses[k].flags)
      modifies this, queue
      ensures Sane() && Numbers() == AllUsed(old(Numbers()), uses)
      ensures added == Added(old(Numbers()), uses) && |done| == Taken(old(Numbers()), uses)
      ensures accepted == old(accepted) + added && taken == old(taken) + done
      ensures |old(tasks)| + |added| == |done| + pending
      ensures Safe(old(Numbers()), uses) ==> Valid() && old(tasks) + added == done + tasks
    {
      added, done := [], [];
      ghost var z := Numbers();
      for k := 0 to |uses|
        invariant Sane() && pending >= 0 && (queue == old(queue) || fresh(queue)) && Numbers() == AllUsed(z, uses[..k])
        invariant added == Added(z, uses[..k]) && |done| == Taken(z, uses[..k])
        invariant accepted == old(accepted) + added && taken == old(taken) + done
        invariant |old(tasks)| + |added| == |done| + pending
        invariant Safe(z, uses[..k]) ==> Valid() && old(tasks) + added == done + tasks
      {
        hide IsRing, Sane, AllUsed, Added, Taken, Safe, Used;
        Prefix(z, uses, k);
        ghost var before := tasks;
        var more, now := UseOnce(uses[k], blank);
        Regroup(old(tasks), added, more, done, before, now, tasks);
        added, done := added + more, done + now;
      }
      assert uses[..|uses|] == uses;
    }
  }

  lemma Prefix(z: Sizes, uses: seq<Use>, k: nat)
    requires k < |uses|
    ensures var z', use := AllUsed(z, uses[..k]), uses[k];
      && AllUsed(z, uses[..k + 1]) == Used(z', use)
      && Added(z, uses[..k + 1]) == Added(z, uses[..k]) + (if use.DoAdd? && Accepts(z') then [use.task] else [])
      && Taken(z, uses[..k + 1]) == Taken(z, uses[..k]) + (if use.DoWork? && Takes(z') then 1 else 0)
      && (Safe(z, uses[..k + 1]) <==> Safe(z, uses[..k]) && SafeUse(z', use))
  {
    assert uses[..k + 1][..k] == uses[..k];
  }

  predicate IsShutdownFlag(flags: int) {
    flags == 0 || flags == IJK_IMMEDIATE_SHUTDOWN || flags == IJK_LEISURELY_SHUTDOWN
  }

  /** A pool of two slots: one task is queued and taken, the next one is queued,
      and then a third. The ring is enlarged while its first task is at place 1,
      and the third task is looked for at place 2, which was never written. */
  method GrowthLosesATask(a: Task, b: Task, c: Task, blank: Task) returns (errs: seq<int>, done: seq<Turn>)
    ensures errs == [0, 0, 0] && done == [Do(a), Do(b), Do(blank)]
  {
    hide IsRing, OrderOf;
    var pool := new ThreadPool(2, 1, blank);
    var e1, t1 := AddAndTake(pool, a, blank);
    var e2, e3, t2 := AddTwo(pool, b, c, blank);
    ghost var before := pool.Order();
    var t3 := pool.WorkerTurn();
    assert before[0] == t3.task;
    return [e1, e2, e3], [t1, t2, t3];
  }

  /** A task in an empty pool of two slots is taken at once. */
  method AddAndTake(pool: ThreadPool, a: Task, blank: Task) returns (err: int, turn: Turn)
    requires pool.Valid() && pool.tasks == [] && pool.shutdown == 0 && pool.head == pool.tail == 0 && pool.queue.Length == 2
    modifies pool, pool.queue
    ensures pool.Valid() && pool.tasks == [] && pool.shutdown == 0 && pool.head == pool.tail == 1 && pool.queue.Length == 2
    ensures (pool.queue == old(pool.queue) || fresh(pool.queue)) && err == 0 && turn == Do(a)
  {
    hide IsRing, OrderOf;
    err := pool.Add(a, true, blank);
    ghost var before := pool.tasks;
    turn := pool.WorkerTurn();
    assert before[0] == turn.task;
  }

  /** Two tasks come while the first place is 1, and one is taken. */
  method AddTwo(pool: ThreadPool, b: Task, c: Task, blank: Task) returns (e2: int, e3: int, turn: Turn)
    requires pool.Valid() && pool.tasks == [] && pool.shutdown == 0 && pool.head == pool.tail == 1 && pool.queue.Length == 2
    modifies pool, pool.queue
    ensures pool.Sane() && pool.Order() == [blank] && |pool.tasks| == 1 && pool.shutdown == 0
    ensures e2 == e3 == 0 && turn == Do(b)
  {
    hide IsRing, OrderOf;
    e2 := pool.Add(b, true, blank);
    assert pool.queue[1] == b && pool.tail == 0 by {
      assert pool.queue[..][1] == b;
    }
    e3 := pool.Add(c, true, blank);
    ghost var q := pool.queue[..];
    assert |q| == 4 && q[1] == b && q[2] == blank;
    OrderOfTwo(q);
    turn := pool.WorkerTurn();
    assert [b, blank][0] == turn.task && [b, blank][1..] == pool.Order();
  }

  lemma OrderOfTwo(queue: seq<Task>)
    requires |queue| == 4
    ensures OrderOf(queue, 1, 2) == [queue[1], queue[2]]
  {
    assert OrderOf(queue, 2, 1) == [queue[2]] + OrderOf(queue, 3, 0);
  }
}
