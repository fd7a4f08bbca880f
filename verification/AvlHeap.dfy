/** ijkavutil/ijktree.c on linked nodes: the routines rewrite `child`, `elem`
    and `state` in place and are proved to compute what AvlTree computes. */
module AvlHeap {
  import opened Common
  import opened AvlTree

  class TreeNode {
    var child0: TreeNode?
    var child1: TreeNode?
    var elem: Entry
    var state: int

    /** ijk_av_tree_node_alloc: a zeroed node. */
    constructor ()
      ensures child0 == null && child1 == null && state == 0
    {
      child0, child1 := null, null;
      elem := Entry(0, 0, 0);
      state := 0;
    }

    function Child(i: bit): TreeNode?
      reads this
    {
      if i == 0 then child0 else child1
    }
  }

  /** The linked nodes of a tree, from left to right. */
  datatype Shape = Empty | Fork(left: Shape, node: TreeNode, right: Shape)

  ghost function Nodes(s: Shape): set<TreeNode> {
    match s
    case Empty => {}
    case Fork(l, n, r) => Nodes(l) + {n} + Nodes(r)
  }

  lemma {:induction false} NodesAllocated(s: Shape)
    ensures forall n :: n in Nodes(s) ==> allocated(n)
  {
    if s.Fork? {
      NodesAllocated(s.left);
      NodesAllocated(s.right);
    }
  }

  /** `t` points to the root of a tree of pairwise different nodes. */
  ghost predicate Linked(t: TreeNode?, s: Shape)
    reads Nodes(s)
  {
    match s
    case Empty => t == null
    case Fork(l, n, r) =>
      && t == n
      && n !in Nodes(l) && n !in Nodes(r) && Nodes(l) !! Nodes(r)
      && Linked(n.child0, l) && Linked(n.child1, r)
  }

  /** The tree value that the nodes hold. */
  ghost function Model(s: Shape): Tree
    reads Nodes(s)
  {
    match s
    case Empty => Nil
    case Fork(l, n, r) => Node(Model(l), n.elem, n.state, Model(r))
  }

  ghost function SlotsOf(next: array<Option<Entry>>): Slots
    requires next.Length == 2
    reads next
  {
    Slots(next[0], next[1])
  }

  /** ijk_av_tree_find with a `next` array. */
  method FindNode(t: TreeNode?, key: int, next: array<Option<Entry>>, ghost s: Shape) returns (e: Option<Entry>)
    requires Linked(t, s) && next.Length == 2
    modifies next
    ensures (e, SlotsOf(next)) == Find(old(Model(s)), key, old(SlotsOf(next)))
    decreases s
  {
    if t == null {
      return None;
    }
    NodesAllocated(s.left);
    NodesAllocated(s.right);
    assert Linked(t.child0, s.left) && Linked(t.child1, s.right);
    var v := Cmp(key, t.elem.logical);
    if v != 0 {
      next[Sign(v)] := Some(t.elem);
      e := FindNode(t.Child(1 - Sign(v)), key, next, if Sign(v) == 0 then s.right else s.left);
    } else {
      var _ := FindNode(t.child0, key, next, s.left);
      var _ := FindNode(t.child1, key, next, s.right);
      e := Some(t.elem);
    }
  }

  /** ijk_av_tree_enumerate; the callback appends to a list. */
  method EnumerateNodes(t: TreeNode?, cmp: Entry -> int, out: seq<Entry>, ghost s: Shape) returns (out': seq<Entry>)
    requires Linked(t, s)
    ensures out' == out + Enumerate(Model(s), cmp)
    decreases s
  {
    out' := out;
    if t != null {
      NodesAllocated(s.left);
      NodesAllocated(s.right);
      assert Linked(t.child0, s.left) && Linked(t.child1, s.right);
      var v := cmp(t.elem);
      if v >= 0 {
        out' := EnumerateNodes(t.child0, cmp, out', s.left);
      }
      if v == 0 {
        out' := out' + [t.elem];
      }
      if v <= 0 {
        out' := EnumerateNodes(t.child1, cmp, out', s.right);
      }
    }
  }

  /** `n` joins two disjoint linked trees. */
  ghost predicate Joined(l: Shape, n: TreeNode, r: Shape)
    reads n, Nodes(l), Nodes(r)
  {
    && Linked(n.child0, l) && Linked(n.child1, r)
    && n !in Nodes(l) && n !in Nodes(r) && Nodes(l) !! Nodes(r)
  }

  lemma ForkLinked(l: Shape, n: TreeNode, r: Shape)
    requires Joined(l, n, r)
    ensures Linked(n, Fork(l, n, r)) && Nodes(Fork(l, n, r)) == Nodes(l) + {n} + Nodes(r)
    ensures Model(Fork(l, n, r)) == Node(Model(l), n.elem, n.state, Model(r))
  {
  }

  lemma ModelShape(s: Shape)
    ensures Model(s).Node? <==> s.Fork?
    ensures s.Fork? ==>
      && (Model(s).child0.Node? <==> s.left.Fork?) && (Model(s).child1.Node? <==> s.right.Fork?)
      && Model(s).state == s.node.state
  {
  }

  lemma ForkUnlinked(l: Shape, n: TreeNode, r: Shape)
    requires Linked(n, Fork(l, n, r))
    ensures Joined(l, n, r)
    ensures Nodes(Fork(l, n, r)) == Nodes(l) + {n} + Nodes(r)
    ensures Model(Fork(l, n, r)) == Node(Model(l), n.elem, n.state, Model(r))
    ensures (n.child0 == null <==> l.Empty?) && (n.child1 == null <==> r.Empty?)
    ensures (l.Fork? ==> l.node == n.child0) && (r.Fork? ==> r.node == n.child1)
  {
  }

  /** The pointer moves of a single rotation. */
  method Single0(t: TreeNode, child: TreeNode)
    requires t.child0 == child && t != child
    modifies t, child
    ensures child.child0 == old(child.child0) && child.child1 == t && child.elem == old(child.elem)
    ensures t.child0 == old(child.child1) && t.child1 == old(t.child1) && t.elem == old(t.elem)
    ensures t.state == if old(child.state) != 0 then 0 else old(t.state) / 2
    ensures child.state == -t.state
  {
    t.child0 := child.child1;
    child.child1 := t;
    t.state := if child.state != 0 then 0 else t.state / 2;
    child.state := -t.state;
  }

  method Single1(t: TreeNode, child: TreeNode)
    requires t.child1 == child && t != child
    modifies t, child
    ensures child.child1 == old(child.child1) && child.child0 == t && child.elem == old(child.elem)
    ensures t.child1 == old(child.child0) && t.child0 == old(t.child0) && t.elem == old(t.elem)
    ensures t.state == if old(child.state) != 0 then 0 else old(t.state) / 2
    ensures child.state == -t.state
  {
    t.child1 := child.child0;
    child.child0 := t;
    t.state := if child.state != 0 then 0 else t.state / 2;
    child.state := -t.state;
  }

  /** The pointer moves of a double rotation towards side 0. */
  method Double0(t: TreeNode, child: TreeNode, top: TreeNode)
    requires t.child0 == child && child.child1 == top && t != child && t != top && child != top
    modifies t, child, top
    ensures top.child0 == child && top.child1 == t && top.elem == old(top.elem) && top.state == 0
    ensures child.child0 == old(child.child0) && child.child1 == old(top.child0) && child.elem == old(child.elem)
    ensures t.child0 == old(top.child1) && t.child1 == old(t.child1) && t.elem == old(t.elem)
    ensures child.state == if old(top.state) > 0 then -1 else 0
    ensures t.state == if old(top.state) < 0 then 1 else 0
  {
    child.child1 := top.child0;
    top.child0 := child;
    t.child0 := top.child1;
    top.child1 := t;
    top.child0.state := if top.state > 0 then -1 else 0;
    top.child1.state := if top.state < 0 then 1 else 0;
    top.state := 0;
  }

  method Double1(t: TreeNode, child: TreeNode, top: TreeNode)
    requires t.child1 == child && child.child0 == top && t != child && t != top && child != top
    modifies t, child, top
    ensures top.child0 == t && top.child1 == child && top.elem == old(top.elem) && top.state == 0
    ensures child.child1 == old(child.child1) && child.child0 == old(top.child1) && child.elem == old(child.elem)
    ensures t.child1 == old(top.child0) && t.child0 == old(t.child0) && t.elem == old(t.elem)
    ensures t.state == if old(top.state) > 0 then -1 else 0
    ensures child.state == if old(top.state) < 0 then 1 else 0
  {
    child.child0 := top.child1;
    top.child1 := child;
    t.child1 := top.child0;
    top.child0 := t;
    top.child0.state := if top.state > 0 then -1 else 0;
    top.child1.state := if top.state < 0 then 1 else 0;
    top.state := 0;
  }

  method DoubleLinked0(t: TreeNode, child: TreeNode, top: TreeNode,
                       ghost a: Shape, ghost b: Shape, ghost c: Shape, ghost d: Shape) returns (ghost s: Shape)
    requires t.child0 == child && child.child1 == top && t != child && t != top && child != top
    requires Linked(child.child0, a) && Linked(top.child0, b) && Linked(top.child1, c) && Linked(t.child1, d)
    requires Nodes(a) !! Nodes(b) !! Nodes(c) !! Nodes(d) !! {t, child, top}
    modifies t, child, top
    ensures Linked(top, s) && Nodes(s) == Nodes(a) + Nodes(b) + Nodes(c) + Nodes(d) + {t, child, top}
    ensures Model(s) == old(Node(Node(Model(a), child.elem, if top.state > 0 then -1 else 0, Model(b)), top.elem, 0,
                                Node(Model(c), t.elem, if top.state < 0 then 1 else 0, Model(d))))
  {
    hide Linked, Model, Nodes;
    NodesAllocated(a);
    NodesAllocated(b);
    NodesAllocated(c);
    NodesAllocated(d);
    Double0(t, child, top);
    ForkLinked(a, child, b);
    ForkLinked(c, t, d);
    ForkLinked(Fork(a, child, b), top, Fork(c, t, d));
    s := Fork(Fork(a, child, b), top, Fork(c, t, d));
  }

  method SingleLinked0(t: TreeNode, child: TreeNode, ghost a: Shape, ghost b: Shape, ghost c: Shape) returns (ghost s: Shape)
    requires t.child0 == child && t != child
    requires Linked(child.child0, a) && Linked(child.child1, b) && Linked(t.child1, c)
    requires Nodes(a) !! Nodes(b) !! Nodes(c) !! {t, child}
    modifies t, child
    ensures Linked(child, s) && Nodes(s) == Nodes(a) + Nodes(b) + Nodes(c) + {t, child}
    ensures Model(s) == old(var s := if child.state != 0 then 0 else t.state / 2;
                            Node(Model(a), child.elem, -s, Node(Model(b), t.elem, s, Model(c))))
  {
    hide Linked, Model, Nodes;
    NodesAllocated(a);
    NodesAllocated(b);
    NodesAllocated(c);
    Single0(t, child);
    ForkLinked(b, t, c);
    ForkLinked(a, child, Fork(b, t, c));
    s := Fork(a, child, Fork(b, t, c));
  }

  /** The nodes and subtrees that a double rotation towards side 0 moves. */
  lemma DoubleParts0(t: TreeNode, l: Shape, r: Shape)
    requires Joined(l, t, r) && l.Fork? && l.right.Fork? && l.node.state * 2 == -t.state
    ensures t.child0 == l.node && l.node.child1 == l.right.node
    ensures t != l.node && t != l.right.node && l.node != l.right.node
    ensures Linked(l.node.child0, l.left) && Linked(l.right.node.child0, l.right.left)
    ensures Linked(l.right.node.child1, l.right.right) && Linked(t.child1, r)
    ensures Nodes(l.left) !! Nodes(l.right.left) !! Nodes(l.right.right) !! Nodes(r) !! {t, l.node, l.right.node}
    ensures Nodes(l) == Nodes(l.left) + {l.node} + (Nodes(l.right.left) + {l.right.node} + Nodes(l.right.right))
    ensures var child, tp := l.node, l.right.node;
      Rotate0(Model(l), t.elem, t.state, Model(r)) ==
      Node(Node(Model(l.left), child.elem, if tp.state > 0 then -1 else 0, Model(l.right.left)), tp.elem, 0,
           Node(Model(l.right.right), t.elem, if tp.state < 0 then 1 else 0, Model(r)))
  {
    ForkUnlinked(l.left, l.node, l.right);
    ForkUnlinked(l.right.left, l.right.node, l.right.right);
  }

  method RotateDouble0(t: TreeNode, ghost l: Shape, ghost r: Shape) returns (tp: TreeNode, ghost s: Shape)
    requires Joined(l, t, r) && l.Fork? && l.right.Fork?
    requires l.node.state * 2 == -t.state
    modifies Nodes(l), t, Nodes(r)
    ensures Linked(tp, s) && Nodes(s) == Nodes(l) + {t} + Nodes(r)
    ensures Model(s) == old(Rotate0(Model(l), t.elem, t.state, Model(r)))
  {
    DoubleParts0(t, l, r);
    hide Linked, Model, Nodes, Joined, Rotate0;
    var child := t.child0;
    tp := child.child1;
    s := DoubleLinked0(t, child, tp, l.left, l.right.left, l.right.right, r);
  }

  method RotateSingle0(t: TreeNode, ghost l: Shape, ghost r: Shape) returns (tp: TreeNode, ghost s: Shape)
    requires Joined(l, t, r) && l.Fork?
    requires l.node.state * 2 != -t.state
    modifies Nodes(l), t, Nodes(r)
    ensures Linked(tp, s) && Nodes(s) == Nodes(l) + {t} + Nodes(r)
    ensures Model(s) == old(Rotate0(Model(l), t.elem, t.state, Model(r)))
  {
    tp := t.child0;
    ForkUnlinked(l.left, tp, l.right);
    hide Linked, Model, Nodes;
    s := SingleLinked0(t, tp, l.left, l.right, r);
  }

  /** Rotation at `t`, whose child 0 is two levels deeper than its child 1. */
  method RotateNodes0(t: TreeNode, ghost l: Shape, ghost r: Shape) returns (tp: TreeNode, ghost s: Shape)
    requires Joined(l, t, r) && l.Fork?
    requires l.node.state * 2 == -t.state ==> l.right.Fork?
    modifies Nodes(l), t, Nodes(r)
    ensures Linked(tp, s) && Nodes(s) == Nodes(l) + {t} + Nodes(r)
    ensures Model(s) == old(Rotate0(Model(l), t.elem, t.state, Model(r)))
  {
    assert t.child0 == l.node;
    hide Linked, Model, Nodes;
    if t.child0.state * 2 == -t.state {
      tp, s := RotateDouble0(t, l, r);
    } else {
      tp, s := RotateSingle0(t, l, r);
    }
  }

  method DoubleLinked1(t: TreeNode, child: TreeNode, top: TreeNode,
                       ghost a: Shape, ghost b: Shape, ghost c: Shape, ghost d: Shape) returns (ghost s: Shape)
    requires t.child1 == child && child.child0 == top && t != child && t != top && child != top
    requires Linked(t.child0, a) && Linked(top.child0, b) && Linked(top.child1, c) && Linked(child.child1, d)
    requires Nodes(a) !! Nodes(b) !! Nodes(c) !! Nodes(d) !! {t, child, top}
    modifies t, child, top
    ensures Linked(top, s) && Nodes(s) == Nodes(a) + Nodes(b) + Nodes(c) + Nodes(d) + {t, child, top}
    ensures Model(s) == old(Node(Node(Model(a), t.elem, if top.state > 0 then -1 else 0, Model(b)), top.elem, 0,
                                Node(Model(c), child.elem, if top.state < 0 then 1 else 0, Model(d))))
  {
    hide Linked, Model, Nodes;
    NodesAllocated(a);
    NodesAllocated(b);
    NodesAllocated(c);
    NodesAllocated(d);
    Double1(t, child, top);
    ForkLinked(a, t, b);
    ForkLinked(c, child, d);
    ForkLinked(Fork(a, t, b), top, Fork(c, child, d));
    s := Fork(Fork(a, t, b), top, Fork(c, child, d));
  }

  method SingleLinked1(t: TreeNode, child: TreeNode, ghost a: Shape, ghost b: Shape, ghost c: Shape) returns (ghost s: Shape)
    requires t.child1 == child && t != child
    requires Linked(t.child0, a) && Linked(child.child0, b) && Linked(child.child1, c)
    requires Nodes(a) !! Nodes(b) !! Nodes(c) !! {t, child}
    modifies t, child
    ensures Linked(child, s) && Nodes(s) == Nodes(a) + Nodes(b) + Nodes(c) + {t, child}
    ensures Model(s) == old(var s := if child.state != 0 then 0 else t.state / 2;
                            Node(Node(Model(a), t.elem, s, Model(b)), child.elem, -s, Model(c)))
  {
    hide Linked, Model, Nodes;
    NodesAllocated(a);
    NodesAllocated(b);
    NodesAllocated(c);
    Single1(t, child);
    ForkLinked(a, t, b);
    ForkLinked(Fork(a, t, b), child, c);
    s := Fork(Fork(a, t, b), child, c);
  }

  /** The nodes and subtrees that a double rotation towards side 1 moves. */
  lemma DoubleParts1(t: TreeNode, l: Shape, r: Shape)
    requires Joined(l, t, r) && r.Fork? && r.left.Fork? && r.node.state * 2 == -t.state
    ensures t.child1 == r.node && r.node.child0 == r.left.node
    ensures t != r.node && t != r.left.node && r.node != r.left.node
    ensures Linked(r.node.child1, r.right) && Linked(r.left.node.child0, r.left.left)
    ensures Linked(r.left.node.child1, r.left.right) && Linked(t.child0, l)
    ensures Nodes(l) !! Nodes(r.left.left) !! Nodes(r.left.right) !! Nodes(r.right) !! {t, r.node, r.left.node}
    ensures Nodes(r) == Nodes(r.left.left) + {r.left.node} + Nodes(r.left.right) + {r.node} + Nodes(r.right)
    ensures var child, tp := r.node, r.left.node;
      Rotate1(Model(l), t.elem, t.state, Model(r)) ==
      Node(Node(Model(l), t.elem, if tp.state > 0 then -1 else 0, Model(r.left.left)), tp.elem, 0,
           Node(Model(r.left.right), child.elem, if tp.state < 0 then 1 else 0, Model(r.right)))
  {
    ForkUnlinked(r.left, r.node, r.right);
    ForkUnlinked(r.left.left, r.left.node, r.left.right);
  }

  method RotateDouble1(t: TreeNode, ghost l: Shape, ghost r: Shape) returns (tp: TreeNode, ghost s: Shape)
    requires Joined(l, t, r) && r.Fork? && r.left.Fork?
    requires r.node.state * 2 == -t.state
    modifies Nodes(l), t, Nodes(r)
    ensures Linked(tp, s) && Nodes(s) == Nodes(l) + {t} + Nodes(r)
    ensures Model(s) == old(Rotate1(Model(l), t.elem, t.state, Model(r)))
  {
    DoubleParts1(t, l, r);
    hide Linked, Model, Nodes, Joined, Rotate1;
    var child := t.child1;
    tp := child.child0;
    s := DoubleLinked1(t, child, tp, l, r.left.left, r.left.right, r.right);
  }

  method RotateSingle1(t: TreeNode, ghost l: Shape, ghost r: Shape) returns (tp: TreeNode, ghost s: Shape)
    requires Joined(l, t, r) && r.Fork?
    requires r.node.state * 2 != -t.state
    modifies Nodes(l), t, Nodes(r)
    ensures Linked(tp, s) && Nodes(s) == Nodes(l) + {t} + Nodes(r)
    ensures Model(s) == old(Rotate1(Model(l), t.elem, t.state, Model(r)))
  {
    tp := t.child1;
    ForkUnlinked(r.left, tp, r.right);
    hide Linked, Model, Nodes;
    s := SingleLinked1(t, tp, l, r.left, r.right);
  }

  /** Rotation at `t`, whose child 1 is two levels deeper than its child 0. */
  method RotateNodes1(t: TreeNode, ghost l: Shape, ghost r: Shape) returns (tp: TreeNode, ghost s: Shape)
    requires Joined(l, t, r) && r.Fork?
    requires r.node.state * 2 == -t.state ==> r.left.Fork?
    modifies Nodes(l), t, Nodes(r)
    ensures Linked(tp, s) && Nodes(s) == Nodes(l) + {t} + Nodes(r)
    ensures Model(s) == old(Rotate1(Model(l), t.elem, t.state, Model(r)))
  {
    assert t.child1 == r.node;
    hide Linked, Model, Nodes;
    if t.child1.state * 2 == -t.state {
      tp, s := RotateDouble1(t, l, r);
    } else {
      tp, s := RotateSingle1(t, l, r);
    }
  }

  /** The work of a node after the recursive call on its child at side `d`. */
  method UnwindNodes(t: TreeNode, d: bit, ret: Option<Entry>, next: bool, key: Entry, ghost l: Shape, ghost r: Shape)
      returns (tp: TreeNode, ret': Option<Entry>, ghost s: Shape)
    requires Joined(l, t, r)
    requires ret.None? ==> var i := if next then 1 - d else d; CanRotate(Model(l), t.state + 2 * i - 1, Model(r), i)
    modifies Nodes(l), t, Nodes(r)
    ensures Linked(tp, s) && Nodes(s) == Nodes(l) + {t} + Nodes(r)
    ensures Outcome(Model(s), ret', next) == old(Unwind(Model(l), t.elem, t.state, Model(r), d, ret, next, key))
  {
    tp, ret', s := t, ret, Fork(l, t, r);
    if ret == None {
      var i := if next then 1 - d else d;
      tp, s := SettleNodes(t, i, l, r);
      ForkUnlinked(s.left, tp, s.right);
      if (tp.state == 0) != next {
        ret' := Some(key);
      }
    } else {
      ForkLinked(l, t, r);
    }
  }

  method SettleNodes(t: TreeNode, i: bit, ghost l: Shape, ghost r: Shape) returns (tp: TreeNode, ghost s: Shape)
    requires Joined(l, t, r) && CanRotate(Model(l), t.state + 2 * i - 1, Model(r), i)
    modifies Nodes(l), t, Nodes(r)
    ensures s.Fork? && Linked(tp, s) && Nodes(s) == Nodes(l) + {t} + Nodes(r)
    ensures Model(s) == old(Settle(Model(l), t.elem, t.state + 2 * i - 1, Model(r), i))
  {
    ModelShape(l);
    ModelShape(r);
    t.state := t.state + 2 * i - 1;
    if t.state % 2 == 0 && t.state != 0 {
      if i == 0 {
        tp, s := RotateNodes0(t, l, r);
      } else {
        tp, s := RotateNodes1(t, l, r);
      }
    } else {
      tp, s := t, Fork(l, t, r);
      ForkLinked(l, t, r);
    }
  }

  ghost function NodeSet(n: TreeNode?): set<TreeNode> {
    if n == null then {} else {n}
  }

  /** A zeroed node. */
  ghost predicate Spare(n: TreeNode)
    reads n
  {
    n.child0 == null && n.child1 == null && n.state == 0
  }

  /** ijk_av_tree_insert on the linked nodes. */
  method InsertNode(t: TreeNode?, key: Entry, next: TreeNode?, ghost s: Shape)
      returns (tp: TreeNode?, ret: Option<Entry>, next': TreeNode?, ghost s': Shape)
    requires Linked(t, s) && Balanced(Model(s)) && Ordered(Model(s))
    requires next != null ==> Spare(next) && next !in Nodes(s)
    modifies Nodes(s), NodeSet(next)
    ensures Linked(tp, s')
    ensures Outcome(Model(s'), ret, next' != null) == old(Insert(Model(s), key, next != null))
    ensures Nodes(s') + NodeSet(next') == Nodes(s) + NodeSet(next) && Nodes(s') !! NodeSet(next')
    decreases s, 3
  {
    if t == null {
      tp, next', s' := next, null, Empty;
      if tp == null {
        return tp, Some(key), next', s';
      }
      tp.elem := key;
      s' := Fork(Empty, tp, Empty);
      return tp, None, next', s';
    }
    var v := Cmp(t.elem.logical, key.logical);
    if v == 0 {
      if next != null {
        return t, Some(t.elem), next, s;
      }
      if t.child0 == null && t.child1 == null {
        return null, None, t, Empty;
      }
      if t.child0 != null {
        tp, ret, next', s' := ReplaceNode0(t, key, s);
      } else {
        tp, ret, next', s' := ReplaceNode1(t, key, s);
      }
    } else {
      ForkUnlinked(s.left, t, s.right);
      if Sign(v) == 0 {
        tp, ret, next', s' := DescendNode0(t, key, next, s);
      } else {
        tp, ret, next', s' := DescendNode1(t, key, next, s);
      }
    }
  }

  /** The search for the element that takes the place of a removed one. */
  method FindReplacement(c: TreeNode, key: int, i: bit, ghost s: Shape, ghost unset: Entry) returns (k: Entry)
    requires Linked(c, s) && Ordered(Model(s))
    requires if i == 0 then AllBelow(Elems(Model(s)), key) else AllAbove(Elems(Model(s)), key)
    ensures k == Replacement(Model(s), key, i, unset)
  {
    var next := new Option<Entry>[2](_ => None);
    NodesAllocated(s);
    FindSpec(Model(s), key, Slots(None, None));
    assert Model(s).elem in Elems(Model(s));
    hide Linked, Model, Ordered;
    var _ := FindNode(c, key, next, s);
    k := next[i].value;
  }

  lemma InsertReplaces0(l: Tree, e: Entry, state: int, r: Tree, key: Entry)
    requires e.logical == key.logical && l.Node?
    ensures var k := Replacement(l, key.logical, 0, e);
      var o := Insert(l, k, false);
      Insert(Node(l, e, state, r), key, false) == Unwind(o.tree, k, state, r, 0, o.ret, o.next, k)
  {
  }

  lemma InsertReplaces1(l: Tree, e: Entry, state: int, r: Tree, key: Entry)
    requires e.logical == key.logical && l.Nil? && r.Node?
    ensures var k := Replacement(r, key.logical, 1, e);
      var o := Insert(r, k, false);
      Insert(Node(l, e, state, r), key, false) == Unwind(l, k, state, o.tree, 1, o.ret, o.next, k)
  {
  }

  /** A linked node and its children. */
  lemma TakenApart(t: TreeNode, s: Shape)
    requires Linked(t, s) && Balanced(Model(s)) && Ordered(Model(s))
    ensures s.Fork? && s.node == t && t in Nodes(s) && Joined(s.left, t, s.right)
    ensures Model(s) == Node(Model(s.left), t.elem, t.state, Model(s.right))
    ensures Balanced(Model(s.left)) && Balanced(Model(s.right)) && Ordered(Model(s.left)) && Ordered(Model(s.right))
    ensures t.state == Height(Model(s.right)) - Height(Model(s.left)) && -1 <= t.state <= 1
    ensures AllBelow(Elems(Model(s.left)), t.elem.logical) && AllAbove(Elems(Model(s.right)), t.elem.logical)
    ensures (t.child0 == null <==> Model(s.left).Nil?) && (t.child1 == null <==> Model(s.right).Nil?)
  {
    ForkUnlinked(s.left, t, s.right);
    ModelShape(s.left);
    ModelShape(s.right);
  }

  method SetElem(t: TreeNode, e: Entry, ghost l: Shape, ghost r: Shape)
    requires Joined(l, t, r)
    modifies t`elem
    ensures Joined(l, t, r) && t.elem == e && Model(l) == old(Model(l)) && Model(r) == old(Model(r))
  {
    NodesAllocated(l);
    NodesAllocated(r);
    hide Linked, Model, Nodes;
    t.elem := e;
  }

  /** Removal of an inner element: its neighbour in child 0 takes its place and
      is removed from there instead. */
  method ReplaceNode0(t: TreeNode, key: Entry, ghost s: Shape)
      returns (tp: TreeNode?, ret: Option<Entry>, next': TreeNode?, ghost s': Shape)
    requires Linked(t, s) && Balanced(Model(s)) && Ordered(Model(s))
    requires t.elem.logical == key.logical && t.child0 != null
    modifies Nodes(s)
    ensures Linked(tp, s')
    ensures Outcome(Model(s'), ret, next' != null) == old(Insert(Model(s), key, false))
    ensures Nodes(s') + NodeSet(next') == Nodes(s) && Nodes(s') !! NodeSet(next')
    decreases s, 2
  {
    TakenApart(t, s);
    InsertReplaces0(Model(s.left), t.elem, t.state, Model(s.right), key);
    NodesAllocated(s.left);
    NodesAllocated(s.right);
    hide Linked, Model, Nodes, Replacement, Unwind, Joined, Insert, Balanced, Ordered, Height, AllBelow, AllAbove, Elems;
    var k := FindReplacement(t.child0, key.logical, 0, s.left, t.elem);
    SetElem(t, k, s.left, s.right);
    tp, ret, next', s' := DescendNode0(t, k, null, s);
  }

  /** Removal of an inner element: its neighbour in child 1 takes its place and
      is removed from there instead. */
  method ReplaceNode1(t: TreeNode, key: Entry, ghost s: Shape)
      returns (tp: TreeNode?, ret: Option<Entry>, next': TreeNode?, ghost s': Shape)
    requires Linked(t, s) && Balanced(Model(s)) && Ordered(Model(s))
    requires t.elem.logical == key.logical && t.child0 == null && t.child1 != null
    modifies Nodes(s)
    ensures Linked(tp, s')
    ensures Outcome(Model(s'), ret, next' != null) == old(Insert(Model(s), key, false))
    ensures Nodes(s') + NodeSet(next') == Nodes(s) && Nodes(s') !! NodeSet(next')
    decreases s, 2
  {
    TakenApart(t, s);
    InsertReplaces1(Model(s.left), t.elem, t.state, Model(s.right), key);
    NodesAllocated(s.left);
    NodesAllocated(s.right);
    hide Linked, Model, Nodes, Replacement, Unwind, Joined, Insert, Balanced, Ordered, Height, AllBelow, AllAbove, Elems;
    var k := FindReplacement(t.child1, key.logical, 1, s.right, t.elem);
    SetElem(t, k, s.left, s.right);
    tp, ret, next', s' := DescendNode1(t, k, null, s);
  }

  method AttachChild0(t: TreeNode, child: TreeNode?, ghost c: Shape, ghost r: Shape)
    requires Linked(child, c) && Linked(t.child1, r)
    requires t !in Nodes(c) && t !in Nodes(r) && Nodes(c) !! Nodes(r)
    modifies t
    ensures Joined(c, t, r) && t.elem == old(t.elem) && t.state == old(t.state)
    ensures Model(c) == old(Model(c)) && Model(r) == old(Model(r))
  {
    hide Linked, Model, Nodes;
    t.child0 := child;
  }

  /** The recursive call on child 0 of `t`. */
  method Recurse0(t: TreeNode, key: Entry, next: TreeNode?, ghost s: Shape)
      returns (ret: Option<Entry>, next': TreeNode?, ghost c: Shape)
    requires s.Fork? && Joined(s.left, t, s.right) && t == s.node
    requires Balanced(Model(s.left)) && Balanced(Model(s.right)) && Ordered(Model(s.left))
    requires t.state == Height(Model(s.right)) - Height(Model(s.left)) && -1 <= t.state <= 1
    requires next != null ==> Spare(next) && next !in Nodes(s)
    modifies Nodes(s), NodeSet(next)
    ensures Joined(c, t, s.right) && t.elem == old(t.elem) && t.state == old(t.state)
    ensures Outcome(Model(c), ret, next' != null) == old(Insert(Model(s.left), key, next != null))
    ensures Model(s.right) == old(Model(s.right))
    ensures Nodes(c) + NodeSet(next') == Nodes(s.left) + NodeSet(next) && Nodes(c) !! NodeSet(next')
    ensures ret == None ==> var i := if next' != null then 1 else 0; CanRotate(Model(c), t.state + 2 * i - 1, Model(s.right), i)
    decreases s, 0
  {
    hide Linked, Model, Nodes, Insert, Balanced, Ordered, Height, CanRotate;
    ForkNodes(s.left, t, s.right, NodeSet(next));
    ghost var a, b := Height(Model(s.left)), Height(Model(s.right));
    InsertBalanced(Model(s.left), key, next != null);
    NodesAllocated(s.right);
    var child;
    child, ret, next', c := InsertNode(t.child0, key, next, s.left);
    Exchanged(Nodes(s.left), t, Nodes(s.right), NodeSet(next), Nodes(c), NodeSet(next'));
    AttachChild0(t, child, c, s.right);
    if ret == None {
      UnwindCanRotate(Model(c), t.state, Model(s.right), 0, ret, next' != null, a, b);
    }
  }

  lemma ForkNodes(l: Shape, n: TreeNode, r: Shape, spare: set<TreeNode>)
    requires Joined(l, n, r) && Nodes(Fork(l, n, r)) !! spare
    ensures Nodes(Fork(l, n, r)) == Nodes(l) + {n} + Nodes(r)
    ensures Nodes(l) !! {n} && Nodes(l) !! Nodes(r) && Nodes(r) !! {n}
    ensures spare !! Nodes(l) && spare !! {n} && spare !! Nodes(r)
  {
  }

  /** One side `a` of a node trades nodes with the spare ones. */
  lemma Exchanged(a: set<TreeNode>, n: TreeNode, b: set<TreeNode>, spare: set<TreeNode>, a': set<TreeNode>, spare': set<TreeNode>)
    requires a !! {n} && a !! b && b !! {n} && spare !! a && spare !! {n} && spare !! b
    requires a' + spare' == a + spare && a' !! spare'
    ensures a' + {n} + b + spare' == a + {n} + b + spare && (a' + {n} + b) !! spare' && a' + {n} + b <= a + {n} + b + spare
  {
  }

  /** The recursive call on child 0, and the work after it. */
  method DescendNode0(t: TreeNode, key: Entry, next: TreeNode?, ghost s: Shape)
      returns (tp: TreeNode, ret: Option<Entry>, next': TreeNode?, ghost s': Shape)
    requires s.Fork? && Joined(s.left, t, s.right) && t == s.node
    requires Balanced(Model(s.left)) && Balanced(Model(s.right)) && Ordered(Model(s.left))
    requires t.state == Height(Model(s.right)) - Height(Model(s.left)) && -1 <= t.state <= 1
    requires next != null ==> Spare(next) && next !in Nodes(s)
    modifies Nodes(s), NodeSet(next)
    ensures Linked(tp, s')
    ensures Outcome(Model(s'), ret, next' != null) == old(
      var o := Insert(Model(s.left), key, next != null);
      Unwind(o.tree, t.elem, t.state, Model(s.right), 0, o.ret, o.next, key))
    ensures Nodes(s') + NodeSet(next') == Nodes(s) + NodeSet(next) && Nodes(s') !! NodeSet(next')
    decreases s, 1
  {
    hide Linked, Model, Nodes, Joined, Insert, Balanced, Ordered, Height, Unwind, CanRotate;
    ghost var spare := NodeSet(next);
    ForkNodes(s.left, t, s.right, spare);
    ghost var c;
    ret, next', c := Recurse0(t, key, next, s);
    Exchanged(Nodes(s.left), t, Nodes(s.right), spare, Nodes(c), NodeSet(next'));
    ghost var all := Nodes(c) + {t} + Nodes(s.right);
    assert all + NodeSet(next') == Nodes(s) + spare && all !! NodeSet(next') && all <= Nodes(s) + spare;
    tp, ret, s' := UnwindNodes(t, 0, ret, next' != null, key, c, s.right);
  }

  method AttachChild1(t: TreeNode, child: TreeNode?, ghost c: Shape, ghost l: Shape)
    requires Linked(child, c) && Linked(t.child0, l)
    requires t !in Nodes(c) && t !in Nodes(l) && Nodes(c) !! Nodes(l)
    modifies t
    ensures Joined(l, t, c) && t.elem == old(t.elem) && t.state == old(t.state)
    ensures Model(c) == old(Model(c)) && Model(l) == old(Model(l))
  {
    hide Linked, Model, Nodes;
    t.child1 := child;
  }

  /** The recursive call on child 1 of `t`. */
  method Recurse1(t: TreeNode, key: Entry, next: TreeNode?, ghost s: Shape)
      returns (ret: Option<Entry>, next': TreeNode?, ghost c: Shape)
    requires s.Fork? && Joined(s.left, t, s.right) && t == s.node
    requires Balanced(Model(s.left)) && Balanced(Model(s.right)) && Ordered(Model(s.right))
    requires t.state == Height(Model(s.right)) - Height(Model(s.left)) && -1 <= t.state <= 1
    requires next != null ==> Spare(next) && next !in Nodes(s)
    modifies Nodes(s), NodeSet(next)
    ensures Joined(s.left, t, c) && t.elem == old(t.elem) && t.state == old(t.state)
    ensures Outcome(Model(c), ret, next' != null) == old(Insert(Model(s.right), key, next != null))
    ensures Model(s.left) == old(Model(s.left))
    ensures Nodes(c) + NodeSet(next') == Nodes(s.right) + NodeSet(next) && Nodes(c) !! NodeSet(next')
    ensures ret == None ==> var i := if next' != null then 0 else 1; CanRotate(Model(s.left), t.state + 2 * i - 1, Model(c), i)
    decreases s, 0
  {
    hide Linked, Model, Nodes, Insert, Balanced, Ordered, Height, CanRotate;
    ForkNodes(s.left, t, s.right, NodeSet(next));
    ghost var a, b := Height(Model(s.left)), Height(Model(s.right));
    InsertBalanced(Model(s.right), key, next != null);
    NodesAllocated(s.left);
    var child;
    child, ret, next', c := InsertNode(t.child1, key, next, s.right);
    Exchanged(Nodes(s.right), t, Nodes(s.left), NodeSet(next), Nodes(c), NodeSet(next'));
    AttachChild1(t, child, c, s.left);
    if ret == None {
      UnwindCanRotate(Model(s.left), t.state, Model(c), 1, ret, next' != null, a, b);
    }
  }

  /** The recursive call on child 1, and the work after it. */
  method DescendNode1(t: TreeNode, key: Entry, next: TreeNode?, ghost s: Shape)
      returns (tp: TreeNode, ret: Option<Entry>, next': TreeNode?, ghost s': Shape)
    requires s.Fork? && Joined(s.left, t, s.right) && t == s.node
    requires Balanced(Model(s.left)) && Balanced(Model(s.right)) && Ordered(Model(s.right))
    requires t.state == Height(Model(s.right)) - Height(Model(s.left)) && -1 <= t.state <= 1
    requires next != null ==> Spare(next) && next !in Nodes(s)
    modifies Nodes(s), NodeSet(next)
    ensures Linked(tp, s')
    ensures Outcome(Model(s'), ret, next' != null) == old(
      var o := Insert(Model(s.right), key, next != null);
      Unwind(Model(s.left), t.elem, t.state, o.tree, 1, o.ret, o.next, key))
    ensures Nodes(s') + NodeSet(next') == Nodes(s) + NodeSet(next) && Nodes(s') !! NodeSet(next')
    decreases s, 1
  {
    hide Linked, Model, Nodes, Joined, Insert, Balanced, Ordered, Height, Unwind, CanRotate;
    ghost var spare := NodeSet(next);
    ForkNodes(s.left, t, s.right, spare);
    ghost var c;
    ret, next', c := Recurse1(t, key, next, s);
    Exchanged(Nodes(s.right), t, Nodes(s.left), spare, Nodes(c), NodeSet(next'));
    ghost var all := Nodes(s.left) + {t} + Nodes(c);
    assert all + NodeSet(next') == Nodes(s) + spare && all !! NodeSet(next') && all <= Nodes(s) + spare;
    tp, ret, s' := UnwindNodes(t, 1, ret, next' != null, key, s.left, c);
  }
}
