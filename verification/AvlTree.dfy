/** The cache index of ijkavutil/ijktree.c as a function on values: an AVL tree
    whose insertion and deletion are one recursive routine. */
module AvlTree {
  import opened Common

  /** IjkCacheEntry: `size` bytes of the logical stream starting at `logical`
      are stored in the cache file starting at `physical`. */
  datatype Entry = Entry(logical: int, physical: int, size: int)

  /** Index into `child` and `next`. */
  type bit = i: int | 0 <= i <= 1

  datatype Tree = Nil | Node(child0: Tree, elem: Entry, state: int, child1: Tree)

  /** The `next[2]` out-array of a search. */
  datatype Slots = Slots(prev: Option<Entry>, succ: Option<Entry>)
  {
    function Set(i: bit, e: Entry): Slots {
      if i == 0 then this.(prev := Some(e)) else this.(succ := Some(e))
    }

    function At(i: bit): Option<Entry> {
      if i == 0 then prev else succ
    }
  }

  /** FFDIFFSIGN, the comparison every user of the tree passes. */
  function Cmp(x: int, y: int): int {
    (if x > y then 1 else 0) - (if x < y then 1 else 0)
  }

  /** `v >> 31` of the comparison read as an unsigned 32-bit number. */
  function Sign(v: int): bit {
    if v < 0 then 1 else 0
  }

  function Find(t: Tree, key: int, slots: Slots): (Option<Entry>, Slots) {
    match t
    case Nil => (None, slots)
    case Node(l, elem, _, r) =>
      var v := Cmp(key, elem.logical);
      if v != 0 then
        Find(if Sign(v) == 1 then l else r, key, slots.Set(Sign(v), elem))
      else
        var (_, s) := Find(l, key, slots);
        var (_, s') := Find(r, key, s);
        (Some(elem), s')
  }

  /** What a call of ijk_av_tree_insert leaves behind: the new `*tp`, the
      returned element (None for NULL) and whether `*next` is non-NULL. */
  datatype Outcome = Outcome(tree: Tree, ret: Option<Entry>, next: bool)

  /** Child 0 became two levels deeper than child 1; `state` is -2. */
  function Rotate0(l: Tree, e: Entry, state: int, r: Tree): (t: Tree)
    ensures t.Node?
  {
    match l
    case Nil => Node(l, e, state, r)
    case Node(a, x, sx, b) =>
      if sx * 2 == -state && b.Node? then
        Node(Node(a, x, if b.state > 0 then -1 else 0, b.child0), b.elem, 0,
             Node(b.child1, e, if b.state < 0 then 1 else 0, r))
      else
        var s := if sx != 0 then 0 else state / 2;
        Node(a, x, -s, Node(b, e, s, r))
  }

  /** The mirror image: child 1 became two levels deeper; `state` is 2. */
  function Rotate1(l: Tree, e: Entry, state: int, r: Tree): (t: Tree)
    ensures t.Node?
  {
    match r
    case Nil => Node(l, e, state, r)
    case Node(a, x, sx, b) =>
      if sx * 2 == -state && a.Node? then
        Node(Node(l, e, if a.state > 0 then -1 else 0, a.child0), a.elem, 0,
             Node(a.child1, x, if a.state < 0 then 1 else 0, b))
      else
        var s := if sx != 0 then 0 else state / 2;
        Node(Node(l, e, s, a), x, -s, b)
  }

  /** The node with its adjusted `state`, rotated towards side `i` when that
      is neither odd nor zero. */
  function Settle(l: Tree, e: Entry, state: int, r: Tree, i: bit): (t: Tree)
    ensures t.Node?
  {
    if state % 2 == 0 && state != 0 then
      if i == 0 then Rotate0(l, e, state, r) else Rotate1(l, e, state, r)
    else
      Node(l, e, state, r)
  }

  /** The work of a node after the recursive call: `l` and `r` are its
      children, of which the one at side `d` is fresh from the call; `ret` and
      `next` are what the call returned. */
  function Unwind(l: Tree, e: Entry, state: int, r: Tree,
                  d: bit, ret: Option<Entry>, next: bool, key: Entry): Outcome
  {
    if ret.Some? then
      Outcome(Node(l, e, state, r), ret, next)
    else
      var i := if next then 1 - d else d;
      var t := Settle(l, e, state + 2 * i - 1, r, i);
      Outcome(t, if (t.state == 0) != next then Some(key) else None, next)
  }

  /** ijk_av_tree_insert: inserts `key` when `next` (a spare node is supplied),
      removes the element with the same position otherwise. */
  function Insert(t: Tree, key: Entry, next: bool): Outcome
    decreases t
  {
    match t
    case Nil =>
      if next then Outcome(Node(Nil, key, 0, Nil), None, false)
      else Outcome(Nil, Some(key), false)
    case Node(l, e, state, r) =>
      var v := Cmp(e.logical, key.logical);
      if v == 0 then
        if next then
          Outcome(t, Some(e), true)
        else if l.Node? then
          var k := Replacement(l, key.logical, 0, e);
          var o := Insert(l, k, next);
          Unwind(o.tree, k, state, r, 0, o.ret, o.next, k)
        else if r.Node? then
          var k := Replacement(r, key.logical, 1, e);
          var o := Insert(r, k, next);
          Unwind(l, k, state, o.tree, 1, o.ret, o.next, k)
        else
          Outcome(Nil, None, true)
      else if Sign(v) == 0 then
        var o := Insert(l, key, next);
        Unwind(o.tree, e, state, r, 0, o.ret, o.next, key)
      else
        var o := Insert(r, key, next);
        Unwind(l, e, state, o.tree, 1, o.ret, o.next, key)
  }

  /** The neighbour that takes the place of a removed inner element. The search
      always sets its slot in an ordered tree, see FindSpec. */
  function Replacement(c: Tree, key: int, i: bit, unset: Entry): Entry {
    match Find(c, key, Slots(None, None)).1.At(i)
    case Some(e) => e
    case None => unset
  }

  // ----- order -----

  ghost function Elems(t: Tree): set<Entry> {
    match t
    case Nil => {}
    case Node(l, e, _, r) => Elems(l) + {e} + Elems(r)
  }

  ghost predicate AllBelow(s: set<Entry>, key: int) {
    forall e :: e in s ==> e.logical < key
  }

  ghost predicate AllAbove(s: set<Entry>, key: int) {
    forall e :: e in s ==> key < e.logical
  }

  /** Strictly ordered by logical position. */
  ghost predicate Ordered(t: Tree) {
    match t
    case Nil => true
    case Node(l, e, _, r) =>
      Ordered(l) && Ordered(r) && AllBelow(Elems(l), e.logical) && AllAbove(Elems(r), e.logical)
  }

  ghost predicate HasKey(s: set<Entry>, key: int) {
    exists e :: e in s && e.logical == key
  }

  /** `o` is the greatest element of `s` below `key`, or still `unset`. */
  ghost predicate IsPrev(s: set<Entry>, key: int, unset: Option<Entry>, o: Option<Entry>) {
    if AllAboveOrAt(s, key) then o == unset
    else o.Some? && o.value in s && o.value.logical < key &&
         forall e :: e in s && e.logical < key ==> e.logical <= o.value.logical
  }

  ghost predicate AllAboveOrAt(s: set<Entry>, key: int) {
    forall e :: e in s ==> key <= e.logical
  }

  ghost predicate AllBelowOrAt(s: set<Entry>, key: int) {
    forall e :: e in s ==> e.logical <= key
  }

  /** `o` is the least element of `s` above `key`, or still `unset`. */
  ghost predicate IsNext(s: set<Entry>, key: int, unset: Option<Entry>, o: Option<Entry>) {
    if AllBelowOrAt(s, key) then o == unset
    else o.Some? && o.value in s && key < o.value.logical &&
         forall e :: e in s && key < e.logical ==> o.value.logical <= e.logical
  }

  /** A search agrees with search in the ordered set of elements: it returns
      the element with the key, and sets its slots to the neighbours. */
  lemma {:induction false} FindSpec(t: Tree, key: int, slots: Slots)
    requires Ordered(t)
    ensures var (e, s) := Find(t, key, slots);
      && (e.Some? ==> e.value in Elems(t) && e.value.logical == key)
      && (e.None? ==> !HasKey(Elems(t), key))
      && IsPrev(Elems(t), key, slots.prev, s.prev)
      && IsNext(Elems(t), key, slots.succ, s.succ)
    decreases t
  {
    match t
    case Nil =>
    case Node(l, e, _, r) =>
      NeighboursSplit(Elems(l), e, Elems(r), key);
      hide IsPrev, IsNext, HasKey, AllBelow, AllAbove;
      var v := Cmp(key, e.logical);
      if v < 0 {
        FindSpec(l, key, slots.Set(1, e));
      } else if v > 0 {
        FindSpec(r, key, slots.Set(0, e));
      } else {
        FindSpec(l, key, slots);
        FindSpec(r, key, Find(l, key, slots).1);
      }
  }

  /** How the neighbours of `key` in a node follow from those in its children. */
  lemma NeighboursSplit(l: set<Entry>, e: Entry, r: set<Entry>, key: int)
    requires AllBelow(l, e.logical) && AllAbove(r, e.logical)
    ensures key < e.logical ==>
      && (HasKey(l + {e} + r, key) ==> HasKey(l, key))
      && (forall u, o :: IsPrev(l, key, u, o) ==> IsPrev(l + {e} + r, key, u, o))
      && (forall u, o :: IsNext(l, key, Some(e), o) ==> IsNext(l + {e} + r, key, u, o))
    ensures e.logical < key ==>
      && (HasKey(l + {e} + r, key) ==> HasKey(r, key))
      && (forall u, o :: IsPrev(r, key, Some(e), o) ==> IsPrev(l + {e} + r, key, u, o))
      && (forall u, o :: IsNext(r, key, u, o) ==> IsNext(l + {e} + r, key, u, o))
    ensures key == e.logical ==>
      && (forall u, v, o :: IsPrev(l, key, u, v) && IsPrev(r, key, v, o) ==> IsPrev(l + {e} + r, key, u, o))
      && (forall u, v, o :: IsNext(l, key, u, v) && IsNext(r, key, v, o) ==> IsNext(l + {e} + r, key, u, o))
  {
    assert e in l + {e} + r;
  }

  // ----- balance -----

  ghost function Height(t: Tree): nat {
    match t
    case Nil => 0
    case Node(l, _, _, r) => 1 + Max(Height(l), Height(r))
  }

  /** Every `state` is the height of the right minus the height of the left
      subtree, and is -1, 0 or 1. */
  ghost predicate Balanced(t: Tree) {
    match t
    case Nil => true
    case Node(l, _, s, r) =>
      Balanced(l) && Balanced(r) && s == Height(r) - Height(l) && -1 <= s <= 1
  }

  /** The height a subtree of height `h` has after a call, as its result tells
      the caller: insertion consumed the node, deletion released one. */
  ghost function HeightTold(h: nat, ret: Option<Entry>, next: bool): int {
    if ret.None? then (if next then h - 1 else h + 1) else h
  }

  lemma RotateBalanced0(l: Tree, e: Entry, r: Tree)
    requires Balanced(l) && Balanced(r) && Height(l) == Height(r) + 2
    ensures var t := Rotate0(l, e, -2, r);
      Balanced(t) && Height(t) == Height(l) + (if t.state == 0 then 0 else 1)
  {
    var Node(a, x, sx, b) := l;
    if sx == 1 {
      var Node(b0, y, sy, b1) := b;
      assert Balanced(Node(a, x, if sy > 0 then -1 else 0, b0));
      assert Balanced(Node(b1, e, if sy < 0 then 1 else 0, r));
    } else {
      assert Balanced(Node(b, e, if sx != 0 then 0 else -1, r));
    }
  }

  lemma RotateBalanced1(l: Tree, e: Entry, r: Tree)
    requires Balanced(l) && Balanced(r) && Height(r) == Height(l) + 2
    ensures var t := Rotate1(l, e, 2, r);
      Balanced(t) && Height(t) == Height(r) + (if t.state == 0 then 0 else 1)
  {
    var Node(a, x, sx, b) := r;
    if sx == -1 {
      var Node(a0, y, sy, a1) := a;
      assert Balanced(Node(l, e, if sy > 0 then -1 else 0, a0));
      assert Balanced(Node(a1, x, if sy < 0 then 1 else 0, b));
    } else {
      assert Balanced(Node(l, e, if sx != 0 then 0 else 1, a));
    }
  }

  lemma SettleBalanced(l: Tree, e: Entry, state: int, r: Tree, i: bit)
    requires Balanced(l) && Balanced(r) && state == Height(r) - Height(l)
    requires if i == 0 then -2 <= state <= 0 else 0 <= state <= 2
    ensures var t := Settle(l, e, state, r, i);
      && Balanced(t)
      && Height(t) == 1 + Max(Height(l), Height(r)) - (if t.state == 0 && state != 0 then 1 else 0)
  {
    hide Rotate0, Rotate1, Balanced, Height;
    JoinBalanced(l, e, state, r);
    if state == -2 {
      RotateBalanced0(l, e, r);
    } else if state == 2 {
      RotateBalanced1(l, e, r);
    }
  }

  lemma JoinBalanced(l: Tree, e: Entry, state: int, r: Tree)
    requires Balanced(l) && Balanced(r) && state == Height(r) - Height(l)
    ensures Balanced(Node(l, e, state, r)) <==> -1 <= state <= 1
    ensures Height(Node(l, e, state, r)) == 1 + Max(Height(l), Height(r))
  {
  }

  /** `a` and `b` are the heights of the children before the call. */
  lemma UnwindBalanced(l: Tree, e: Entry, state: int, r: Tree,
                       d: bit, ret: Option<Entry>, next: bool, key: Entry, a: nat, b: nat)
    requires Balanced(l) && Balanced(r)
    requires state == b - a && -1 <= state <= 1
    requires Height(l) == if d == 0 then HeightTold(a, ret, next) else a
    requires Height(r) == if d == 1 then HeightTold(b, ret, next) else b
    ensures var o := Unwind(l, e, state, r, d, ret, next, key);
      && Balanced(o.tree) && o.next == next && (o.ret.None? ==> ret.None?)
      && Height(o.tree) == HeightTold(1 + Max(a, b), o.ret, o.next)
  {
    hide Rotate0, Rotate1;
    if ret.None? {
      var i := if next then 1 - d else d;
      SettleBalanced(l, e, state + 2 * i - 1, r, i);
    }
  }

  /** A rotation finds the nodes it dereferences. */
  ghost predicate CanRotate(l: Tree, state: int, r: Tree, i: bit) {
    state % 2 == 0 && state != 0 ==>
      if i == 0 then l.Node? && (l.state * 2 == -state ==> l.child1.Node?)
      else r.Node? && (r.state * 2 == -state ==> r.child0.Node?)
  }

  lemma UnwindCanRotate(l: Tree, state: int, r: Tree, d: bit, ret: Option<Entry>, next: bool, a: nat, b: nat)
    requires Balanced(l) && Balanced(r)
    requires state == b - a && -1 <= state <= 1 && ret.None?
    requires Height(l) == if d == 0 then HeightTold(a, ret, next) else a
    requires Height(r) == if d == 1 then HeightTold(b, ret, next) else b
    ensures var i := if next then 1 - d else d; CanRotate(l, state + 2 * i - 1, r, i)
  {
  }

  /** Insertion and deletion keep the tree balanced, and return NULL exactly
      when the height changed. */
  lemma {:induction false} InsertBalanced(t: Tree, key: Entry, next: bool)
    requires Balanced(t)
    ensures var o := Insert(t, key, next);
      && Balanced(o.tree)
      && Height(o.tree) == HeightTold(Height(t), o.ret, o.next)
      && (o.ret.None? ==> o.next == !next)
    decreases t
  {
    hide Unwind, Replacement;
    match t
    case Nil =>
    case Node(l, e, s, r) =>
      var v := Cmp(e.logical, key.logical);
      if v == 0 {
        if !next && l.Node? {
          var k := Replacement(l, key.logical, 0, e);
          var o := Insert(l, k, next);
          InsertBalanced(l, k, next);
          UnwindBalanced(o.tree, k, s, r, 0, o.ret, o.next, k, Height(l), Height(r));
        } else if !next && r.Node? {
          var k := Replacement(r, key.logical, 1, e);
          var o := Insert(r, k, next);
          InsertBalanced(r, k, next);
          UnwindBalanced(l, k, s, o.tree, 1, o.ret, o.next, k, Height(l), Height(r));
        }
      } else if v > 0 {
        var o := Insert(l, key, next);
        InsertBalanced(l, key, next);
        UnwindBalanced(o.tree, e, s, r, 0, o.ret, o.next, key, Height(l), Height(r));
      } else {
        var o := Insert(r, key, next);
        InsertBalanced(r, key, next);
        UnwindBalanced(l, e, s, o.tree, 1, o.ret, o.next, key, Height(l), Height(r));
      }
  }

  ghost function Pow2(n: nat): nat {
    if n == 0 then 1 else 2 * Pow2(n - 1)
  }

  ghost function Count(t: Tree): nat {
    match t
    case Nil => 0
    case Node(l, _, _, r) => Count(l) + 1 + Count(r)
  }

  /** The height is logarithmic in the number of elements. */
  lemma {:induction false} HeightLogarithmic(t: Tree)
    requires Balanced(t)
    ensures Pow2(Height(t) / 2) <= Count(t) + 1
    decreases Height(t)
  {
    if Height(t) >= 2 {
      var high := if Height(t.child0) >= Height(t.child1) then t.child0 else t.child1;
      var low := if Height(t.child0) >= Height(t.child1) then t.child1 else t.child0;
      HeightLogarithmic(high);
      HeightLogarithmic(low);
      assert Height(low) >= Height(t) - 2;
      Pow2Monotone((Height(t) - 2) / 2, Height(low) / 2);
      Pow2Monotone((Height(t) - 2) / 2, Height(high) / 2);
      assert Height(t) / 2 == (Height(t) - 2) / 2 + 1;
    }
  }

  lemma {:induction false} Pow2Monotone(a: nat, b: nat)
    requires a <= b
    ensures Pow2(a) <= Pow2(b)
  {
    if a < b {
      Pow2Monotone(a, b - 1);
    }
  }

  // ----- contents -----

  /** The elements between two bounds, the common case of an ordered subtree. */
  lemma OrderedJoin(l: Tree, e: Entry, s: int, r: Tree)
    requires Ordered(l) && Ordered(r)
    requires AllBelow(Elems(l), e.logical) && AllAbove(Elems(r), e.logical)
    ensures Ordered(Node(l, e, s, r))
    ensures Elems(Node(l, e, s, r)) == Elems(l) + {e} + Elems(r)
  {
  }

  lemma RotateElems0(l: Tree, e: Entry, s: int, r: Tree)
    requires Ordered(Node(l, e, s, r))
    ensures Elems(Rotate0(l, e, s, r)) == Elems(l) + {e} + Elems(r)
    ensures Ordered(Rotate0(l, e, s, r))
  {
    hide AllBelow, AllAbove;
    if l.Node? {
      var Node(a, x, sx, b) := l;
      assert Elems(l) == Elems(a) + {x} + Elems(b);
      if sx * 2 == -s && b.Node? {
        DoubleOrdered0(a, x, b, e, r);
      } else {
        SingleOrdered0(a, x, b, e, r, if sx != 0 then 0 else s / 2);
      }
      hide Ordered, Elems;
    }
  }

  lemma RotateElems1(l: Tree, e: Entry, s: int, r: Tree)
    requires Ordered(Node(l, e, s, r))
    ensures Elems(Rotate1(l, e, s, r)) == Elems(l) + {e} + Elems(r)
    ensures Ordered(Rotate1(l, e, s, r))
  {
    hide AllBelow, AllAbove;
    if r.Node? {
      var Node(a, x, sx, b) := r;
      assert Elems(r) == Elems(a) + {x} + Elems(b);
      if sx * 2 == -s && a.Node? {
        DoubleOrdered1(l, e, a, x, b);
      } else {
        SingleOrdered1(l, e, a, x, b, if sx != 0 then 0 else s / 2);
      }
      hide Ordered, Elems;
    }
  }

  lemma SingleOrdered0(a: Tree, x: Entry, b: Tree, e: Entry, r: Tree, s: int)
    requires Ordered(a) && Ordered(b) && Ordered(r)
    requires AllBelow(Elems(a), x.logical) && AllAbove(Elems(b), x.logical)
    requires AllBelow(Elems(a) + {x} + Elems(b), e.logical) && AllAbove(Elems(r), e.logical)
    ensures var t := Node(a, x, -s, Node(b, e, s, r));
      Ordered(t) && Elems(t) == (Elems(a) + {x} + Elems(b)) + {e} + Elems(r)
  {
    hide AllBelow, AllAbove;
    RegroupSets(Elems(a), x, Elems(b), e, Elems(r));
    OrderedJoin(b, e, s, r);
  }

  lemma SingleOrdered1(l: Tree, e: Entry, a: Tree, x: Entry, b: Tree, s: int)
    requires Ordered(l) && Ordered(a) && Ordered(b)
    requires AllBelow(Elems(l), e.logical) && AllAbove(Elems(a) + {x} + Elems(b), e.logical)
    requires AllBelow(Elems(a), x.logical) && AllAbove(Elems(b), x.logical)
    ensures var t := Node(Node(l, e, s, a), x, -s, b);
      Ordered(t) && Elems(t) == Elems(l) + {e} + (Elems(a) + {x} + Elems(b))
  {
    hide AllBelow, AllAbove;
    RegroupSets(Elems(l), e, Elems(a), x, Elems(b));
    OrderedJoin(l, e, s, a);
  }

  lemma DoubleOrdered0(a: Tree, x: Entry, b: Tree, e: Entry, r: Tree)
    requires b.Node? && Ordered(a) && Ordered(b) && Ordered(r)
    requires AllBelow(Elems(a), x.logical) && AllAbove(Elems(b), x.logical)
    requires AllBelow(Elems(a) + {x} + Elems(b), e.logical) && AllAbove(Elems(r), e.logical)
    ensures forall s0, s, s1 :: var t := Node(Node(a, x, s0, b.child0), b.elem, s, Node(b.child1, e, s1, r));
      Ordered(t) && Elems(t) == (Elems(a) + {x} + Elems(b)) + {e} + Elems(r)
  {
    hide AllBelow, AllAbove;
    var Node(c, y, _, d) := b;
    RegroupElems(Elems(a), x, Elems(c), y, Elems(d), e, Elems(r));
  }

  lemma DoubleOrdered1(l: Tree, e: Entry, a: Tree, x: Entry, b: Tree)
    requires a.Node? && Ordered(l) && Ordered(a) && Ordered(b)
    requires AllBelow(Elems(l), e.logical) && AllAbove(Elems(a) + {x} + Elems(b), e.logical)
    requires AllBelow(Elems(a), x.logical) && AllAbove(Elems(b), x.logical)
    ensures forall s0, s, s1 :: var t := Node(Node(l, e, s0, a.child0), a.elem, s, Node(a.child1, x, s1, b));
      Ordered(t) && Elems(t) == Elems(l) + {e} + (Elems(a) + {x} + Elems(b))
  {
    hide AllBelow, AllAbove;
    var Node(c, y, _, d) := a;
    RegroupElems(Elems(l), e, Elems(c), y, Elems(d), x, Elems(b));
  }

  /** Three subtrees and two elements in order, grouped around either element. */
  lemma RegroupSets(a: set<Entry>, x: Entry, b: set<Entry>, z: Entry, c: set<Entry>)
    ensures a + {x} + (b + {z} + c) == (a + {x} + b) + {z} + c
    ensures AllBelow(a + {x} + b, z.logical) && AllAbove(c, z.logical) && AllAbove(b, x.logical) ==>
      AllBelow(b, z.logical) && AllAbove(b + {z} + c, x.logical)
    ensures AllAbove(b + {z} + c, x.logical) && AllBelow(a, x.logical) && AllBelow(b, z.logical) ==>
      AllAbove(b, x.logical) && AllBelow(a + {x} + b, z.logical)
  {
  }

  /** Four subtrees and three elements in order, grouped around the middle one. */
  lemma RegroupElems(a: set<Entry>, x: Entry, b: set<Entry>, y: Entry, c: set<Entry>, z: Entry, d: set<Entry>)
    ensures (a + {x} + b) + {y} + (c + {z} + d) == (a + {x} + (b + {y} + c)) + {z} + d
    ensures (a + {x} + b) + {y} + (c + {z} + d) == a + {x} + ((b + {y} + c) + {z} + d)
    ensures AllBelow(a + {x} + (b + {y} + c), z.logical) && AllAbove(b + {y} + c, x.logical) ==>
      AllAbove(b, x.logical) && x.logical < y.logical < z.logical && AllBelow(c, z.logical)
    ensures AllAbove((b + {y} + c) + {z} + d, x.logical) && AllBelow(b + {y} + c, z.logical) ==>
      AllAbove(b, x.logical) && x.logical < y.logical < z.logical && AllBelow(c, z.logical)
    ensures AllBelow(a, x.logical) && AllBelow(b, y.logical) && x.logical < y.logical ==> AllBelow(a + {x} + b, y.logical)
    ensures AllAbove(c, y.logical) && AllAbove(d, z.logical) && y.logical < z.logical ==> AllAbove(c + {z} + d, y.logical)
  {
  }

  lemma UnwindElems(l: Tree, e: Entry, state: int, r: Tree, d: bit, ret: Option<Entry>, next: bool, key: Entry)
    requires Ordered(l) && Ordered(r)
    requires AllBelow(Elems(l), e.logical) && AllAbove(Elems(r), e.logical)
    ensures var o := Unwind(l, e, state, r, d, ret, next, key);
      && Elems(o.tree) == Elems(l) + {e} + Elems(r)
      && Ordered(o.tree)
      && o.next == next
  {
    hide Elems, Ordered, Settle, AllBelow, AllAbove;
    OrderedJoin(l, e, state, r);
    var i := if next then 1 - d else d;
    SettleElems(l, e, state + 2 * i - 1, r, i);
  }

  lemma SettleElems(l: Tree, e: Entry, state: int, r: Tree, i: bit)
    requires Ordered(l) && Ordered(r)
    requires AllBelow(Elems(l), e.logical) && AllAbove(Elems(r), e.logical)
    ensures var t := Settle(l, e, state, r, i); Ordered(t) && Elems(t) == Elems(l) + {e} + Elems(r)
  {
    OrderedJoin(l, e, state, r);
    RotateElems0(l, e, state, r);
    RotateElems1(l, e, state, r);
    hide Rotate0, Rotate1, Elems, Ordered, AllBelow, AllAbove;
  }

  /** What a call makes of the elements `s`. */
  ghost function After(s: set<Entry>, key: Entry, next: bool): set<Entry> {
    if !next then set e | e in s && e.logical != key.logical
    else if HasKey(s, key.logical) then s
    else s + {key}
  }

  lemma AfterSplit(l: set<Entry>, e: Entry, r: set<Entry>, key: Entry, next: bool)
    requires e.logical != key.logical
    requires AllBelow(l, e.logical) && AllAbove(r, e.logical)
    ensures key.logical < e.logical ==>
      && HasKey(l + {e} + r, key.logical) == HasKey(l, key.logical)
      && After(l + {e} + r, key, next) == After(l, key, next) + {e} + r
      && AllBelow(After(l, key, next), e.logical)
    ensures e.logical < key.logical ==>
      && HasKey(l + {e} + r, key.logical) == HasKey(r, key.logical)
      && After(l + {e} + r, key, next) == l + {e} + After(r, key, next)
      && AllAbove(After(r, key, next), e.logical)
  {
    if key.logical < e.logical {
      assert HasKey(l, key.logical) ==> HasKey(l + {e} + r, key.logical);
    } else {
      assert HasKey(r, key.logical) ==> HasKey(l + {e} + r, key.logical);
    }
  }

  /** Insertion adds exactly the key unless it is present; deletion removes
      exactly the key. `next` afterwards tells whether the spare node is still
      there (insertion) or a node was released (deletion). */
  lemma {:induction false} InsertElems(t: Tree, key: Entry, next: bool)
    requires Ordered(t)
    ensures var o := Insert(t, key, next);
      && Ordered(o.tree)
      && Elems(o.tree) == After(Elems(t), key, next)
      && o.next == HasKey(Elems(t), key.logical)
    decreases t, 1
  {
    hide Unwind, Replacement;
    match t
    case Nil =>
    case Node(l, e, s, r) =>
      hide After;
      var v := Cmp(e.logical, key.logical);
      if v == 0 {
        FoundElems(t, key, next);
      } else if v > 0 {
        var o := Insert(l, key, next);
        InsertElems(l, key, next);
        AfterSplit(Elems(l), e, Elems(r), key, next);
        UnwindElems(o.tree, e, s, r, 0, o.ret, o.next, key);
      } else {
        var o := Insert(r, key, next);
        InsertElems(r, key, next);
        AfterSplit(Elems(l), e, Elems(r), key, next);
        UnwindElems(l, e, s, o.tree, 1, o.ret, o.next, key);
      }
  }

  /** The key is at the root: deletion of an inner element puts its neighbour
      in its place. */
  lemma {:induction false} FoundElems(t: Tree, key: Entry, next: bool)
    requires t.Node? && Ordered(t) && t.elem.logical == key.logical
    ensures var o := Insert(t, key, next);
      && Ordered(o.tree)
      && Elems(o.tree) == After(Elems(t), key, next)
      && o.next == HasKey(Elems(t), key.logical)
    decreases t, 0
  {
    hide Unwind, Replacement;
    var Node(l, e, s, r) := t;
    assert e in Elems(t);
    if !next && l.Node? {
      var k := Replacement(l, key.logical, 0, e);
      ReplacementSpec(l, key.logical, 0, e);
      InsertElems(l, k, next);
      AfterReplaced(Elems(l), e, Elems(r), k, key);
      hide Elems, After, HasKey, AllBelow, AllAbove;
      var o := Insert(l, k, next);
      UnwindElems(o.tree, k, s, r, 0, o.ret, o.next, k);
    } else if !next && r.Node? {
      var k := Replacement(r, key.logical, 1, e);
      ReplacementSpec(r, key.logical, 1, e);
      InsertElems(r, k, next);
      AfterReplaced(Elems(l), e, Elems(r), k, key);
      hide Elems, After, HasKey, AllBelow, AllAbove;
      var o := Insert(r, k, next);
      UnwindElems(l, k, s, o.tree, 1, o.ret, o.next, k);
    }
  }

  /** What a call returns apart from NULL. Insertion: the element that has the
      position, or the inserted one. Deletion: the given element where none has the
      position; otherwise the given one, or the neighbour that was moved. */
  ghost predicate Returned(s: set<Entry>, key: Entry, next: bool, ret: Option<Entry>) {
    if HasKey(s, key.logical) then
      if next then ret.Some? && ret.value in s && ret.value.logical == key.logical
      else ret.Some? ==> ret.value == key || (ret.value in s && ret.value.logical != key.logical)
    else if next then ret.Some? ==> ret.value == key
    else ret == Some(key)
  }

  lemma {:induction false} InsertReturns(t: Tree, key: Entry, next: bool)
    requires Ordered(t)
    ensures Returned(Elems(t), key, next, Insert(t, key, next).ret)
    decreases t
  {
    hide Unwind, Replacement;
    match t
    case Nil =>
    case Node(l, e, s, r) =>
      var v := Cmp(e.logical, key.logical);
      if v == 0 {
        assert e in Elems(t);
        if !next && l.Node? {
          var k := Replacement(l, key.logical, 0, e);
          var o := Insert(l, k, next);
          ReplacementSpec(l, key.logical, 0, e);
          InsertReturns(l, k, next);
          UnwindReturns(o.tree, k, s, r, 0, o.ret, o.next, k);
        } else if !next && r.Node? {
          var k := Replacement(r, key.logical, 1, e);
          var o := Insert(r, k, next);
          ReplacementSpec(r, key.logical, 1, e);
          InsertReturns(r, k, next);
          UnwindReturns(l, k, s, o.tree, 1, o.ret, o.next, k);
        }
      } else if v > 0 {
        var o := Insert(l, key, next);
        InsertReturns(l, key, next);
        UnwindReturns(o.tree, e, s, r, 0, o.ret, o.next, key);
        AfterSplit(Elems(l), e, Elems(r), key, next);
      } else {
        var o := Insert(r, key, next);
        InsertReturns(r, key, next);
        UnwindReturns(l, e, s, o.tree, 1, o.ret, o.next, key);
        AfterSplit(Elems(l), e, Elems(r), key, next);
      }
  }

  lemma UnwindReturns(l: Tree, e: Entry, state: int, r: Tree, d: bit, ret: Option<Entry>, next: bool, key: Entry)
    ensures var o := Unwind(l, e, state, r, d, ret, next, key);
      o.ret == ret || (ret.None? && o.ret == Some(key))
  {
  }

  lemma AfterReplaced(l: set<Entry>, e: Entry, r: set<Entry>, k: Entry, key: Entry)
    requires AllBelow(l, e.logical) && AllAbove(r, e.logical) && e.logical == key.logical
    ensures HasKey(l + {e} + r, key.logical)
    ensures Extreme(l, k, 0) ==>
      && HasKey(l, k.logical)
      && After(l, k, false) + {k} + r == After(l + {e} + r, key, false)
      && AllBelow(After(l, k, false), k.logical) && AllAbove(r, k.logical)
    ensures Extreme(r, k, 1) ==>
      && HasKey(r, k.logical)
      && l + {k} + After(r, k, false) == After(l + {e} + r, key, false)
      && AllBelow(l, k.logical) && AllAbove(After(r, k, false), k.logical)
  {
    assert e in l + {e} + r;
  }

  /** `k` is the greatest (side 0) or the least (side 1) element of `s`. */
  ghost predicate Extreme(s: set<Entry>, k: Entry, i: bit) {
    k in s && forall e :: e in s ==>
      && (e.logical == k.logical ==> e == k)
      && (if i == 0 then e.logical <= k.logical else k.logical <= e.logical)
  }

  /** The replacement is the greatest element below (side 0) or the least
      element above (side 1) the removed key, and keys are unique. */
  lemma ReplacementSpec(c: Tree, key: int, i: bit, unset: Entry)
    requires Ordered(c) && c.Node?
    requires if i == 0 then AllBelow(Elems(c), key) else AllAbove(Elems(c), key)
    ensures Extreme(Elems(c), Replacement(c, key, i, unset), i)
  {
    FindSpec(c, key, Slots(None, None));
    assert c.elem in Elems(c);
    KeysDistinct(c, Replacement(c, key, i, unset));
  }

  lemma {:induction false} KeysDistinct(t: Tree, k: Entry)
    requires Ordered(t) && k in Elems(t)
    ensures forall e :: e in Elems(t) && e.logical == k.logical ==> e == k
    decreases t
  {
    if k in Elems(t.child0) {
      KeysDistinct(t.child0, k);
    } else if k in Elems(t.child1) {
      KeysDistinct(t.child1, k);
    }
  }

  // ----- enumeration -----

  /** The elements ijk_av_tree_enumerate hands to its callback, in order. */
  function Enumerate(t: Tree, cmp: Entry -> int): seq<Entry> {
    match t
    case Nil => []
    case Node(l, e, _, r) =>
      var v := cmp(e);
      (if v >= 0 then Enumerate(l, cmp) else [])
      + (if v == 0 then [e] else [])
      + (if v <= 0 then Enumerate(r, cmp) else [])
  }

  /** `cmp` tells on which side of a range an element is, in the tree's order. */
  ghost predicate IsRange(cmp: Entry -> int) {
    forall a: Entry, b: Entry {:trigger cmp(a), cmp(b)} :: a.logical < b.logical ==> Cmp(cmp(a), 0) <= Cmp(cmp(b), 0)
  }

  ghost predicate StrictlySorted(s: seq<Entry>) {
    forall i, j :: 0 <= i < j < |s| ==> s[i].logical < s[j].logical
  }

  /** Enumeration visits exactly the elements in the range, in order, each once. */
  lemma {:induction false} EnumerateSpec(t: Tree, cmp: Entry -> int)
    requires Ordered(t) && IsRange(cmp)
    ensures StrictlySorted(Enumerate(t, cmp))
    ensures forall e :: e in Enumerate(t, cmp) <==> e in Elems(t) && cmp(e) == 0
    decreases t
  {
    match t
    case Nil =>
    case Node(l, e, _, r) =>
      hide IsRange, Enumerate;
      EnumerateSpec(l, cmp);
      EnumerateSpec(r, cmp);
      OutsideRange(Elems(l), e, Elems(r), cmp);
      EnumerateParts(t, cmp);
      var a := if cmp(e) >= 0 then Enumerate(l, cmp) else [];
      var m := if cmp(e) == 0 then [e] else [];
      var b := if cmp(e) <= 0 then Enumerate(r, cmp) else [];
      assert forall x :: x in a + m + b <==> x in a || x in m || x in b;
      assert forall x :: x in a ==> x in Elems(l);
      assert forall x :: x in b ==> x in Elems(r);
      SortedJoin(a, e, m, b);
  }

  lemma EnumerateParts(t: Tree, cmp: Entry -> int)
    requires t.Node?
    ensures Enumerate(t, cmp) ==
      (if cmp(t.elem) >= 0 then Enumerate(t.child0, cmp) else []) + (if cmp(t.elem) == 0 then [t.elem] else []) +
      (if cmp(t.elem) <= 0 then Enumerate(t.child1, cmp) else [])
  {
  }

  /** A node before the range has nothing of it on its left, one behind it nothing
      on its right. */
  lemma OutsideRange(l: set<Entry>, e: Entry, r: set<Entry>, cmp: Entry -> int)
    requires AllBelow(l, e.logical) && AllAbove(r, e.logical) && IsRange(cmp)
    ensures cmp(e) < 0 ==> forall x :: x in l ==> cmp(x) != 0
    ensures cmp(e) > 0 ==> forall x :: x in r ==> cmp(x) != 0
  {
  }

  lemma SortedJoin(a: seq<Entry>, e: Entry, m: seq<Entry>, b: seq<Entry>)
    requires StrictlySorted(a) && StrictlySorted(b) && (m == [] || m == [e])
    requires forall x :: x in a ==> x.logical < e.logical
    requires forall x :: x in b ==> e.logical < x.logical
    ensures StrictlySorted(a + m + b)
  {
    var s := a + m + b;
    forall i, j | 0 <= i < j < |s|
      ensures s[i].logical < s[j].logical
    {
      assert i < |a| ==> s[i] == a[i] && a[i] in a;
      assert j < |a| ==> s[j] == a[j] && a[j] in a;
      assert i >= |a + m| ==> s[i] == b[i - |a + m|] && s[i] in b;
      assert j >= |a + m| ==> s[j] == b[j - |a + m|] && s[j] in b;
    }
  }
}
