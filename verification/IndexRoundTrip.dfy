/** Parsing what was saved gives the index back, exactly when all its values are
    non-negative. */
module IndexRoundTrip {
  import opened Common
  import opened AvlTree
  import opened CacheIndex
  import opened IndexText
  import opened IndexFile

  // ----- single lines -----

  lemma TextLine(st: Parser, line: string, rest: string)
    requires !st.stopped && |line| < CONFIG_MAX_LINE - 1
    requires forall i :: 0 <= i < |line| ==> line[i] != '\n'
    ensures ParseText(st, line + "\n" + rest) == ParseText(ParseLine(st, line + "\n"), rest)
  {
    var text := line + "\n" + rest;
    WholeLine(line, rest, CONFIG_MAX_LINE - 1);
    assert text[..|line| + 1] == line + "\n" && text[|line| + 1..] == rest;
    hide ParseLine, LineLength;
  }

  lemma ValueLine(st: Parser, tag: Tag, v: int)
    requires tag != Unknown && v <= Limit(tag)
    ensures ParseLine(st, Line(tag, v)) == Apply(st, tag, Max(v, 0))
  {
    hide Prefix, Limit, Apply;
    var rest := Format(v) + "\n";
    assert Line(tag, v) == Prefix(tag) + rest;
    TagOfPrefix(tag, rest);
    NumberFormat(v, Limit(tag), "");
    assert rest + "" == rest;
    hide Format, Number, TagOf;
  }

  lemma LineStep(st: Parser, tag: Tag, v: int, rest: string)
    requires !st.stopped && tag != Unknown && v <= Limit(tag) && IsInt64(v)
    ensures ParseText(st, Line(tag, v) + rest) == ParseText(Apply(st, tag, Max(v, 0)), rest)
  {
    var line := Prefix(tag) + Format(v);
    LineFits(tag, v);
    PrefixPlain(tag);
    FormatLength(v);
    ValueLine(st, tag, v);
    assert Line(tag, v) == line + "\n";
    assert Line(tag, v) + rest == line + "\n" + rest;
    TextLine(st, line, rest);
    hide *;
  }

  lemma FlushStep(st: Parser, tag: Tag, rest: string)
    requires !st.stopped && tag != Unknown
    ensures exists v :: ParseText(st, Flush(tag) + rest) == ParseText(Apply(st, tag, v), rest)
  {
    hide Prefix, Apply, ParseText;
    PrefixPlain(tag);
    TagOfPrefix(tag, "\n");
    assert Flush(tag) + rest == Prefix(tag) + "\n" + rest;
    TextLine(st, Prefix(tag), rest);
    assert ParseLine(st, Flush(tag)) == Apply(st, tag, Number(Rest(Flush(tag), tag), Limit(tag)));
  }

  // ----- what can be saved -----

  predicate Savable(v: int) {
    0 <= v <= LLONG_MAX
  }

  predicate SavableEntry(e: Entry) {
    Savable(e.logical) && Savable(e.physical) && Savable(e.size)
  }

  predicate SavableKey(k: int) {
    0 <= k <= LONG_MAX
  }

  ghost predicate SavableTree(k: int, info: TreeInfo) {
    && SavableKey(k)
    && Savable(info.physicalInitPos) && Savable(info.physicalSize) && Savable(info.fileSize)
    && SavableEntries(InOrder(info.root))
  }

  ghost predicate SavableIndex(trees: map<int, TreeInfo>) {
    forall k :: k in trees ==> SavableTree(k, trees[k])
  }

  lemma SavableLine(st: Parser, tag: Tag, v: int, rest: string)
    requires !st.stopped && tag != Unknown && Savable(v) && (tag.TreeIndex? ==> SavableKey(v))
    ensures ParseText(st, Line(tag, v) + rest) == ParseText(Apply(st, tag, v), rest)
  {
    LineStep(st, tag, v, rest);
    hide ParseText, Line, Apply;
  }

  ghost predicate SavableEntries(es: seq<Entry>) {
    forall i :: 0 <= i < |es| ==> SavableEntry(es[i])
  }

  // ----- entries -----

  function InsertAll(t: Tree, es: seq<Entry>): Tree
    decreases |es|
  {
    if es == [] then t else InsertAll(Insert(t, es[0], true).tree, es[1..])
  }

  ghost predicate Behindhand(t: Tree, es: seq<Entry>) {
    Ordered(t) && Balanced(t) && StrictlySorted(es) && (es != [] ==> AllBelow(Elems(t), es[0].logical))
  }

  /** Inserting the next entry of an ascending list. */
  lemma InsertNext(t: Tree, es: seq<Entry>)
    requires Behindhand(t, es) && es != []
    ensures var o := Insert(t, es[0], true);
      !ReturnsOther(o, es[0]) && Elems(o.tree) == Elems(t) + {es[0]} && Behindhand(o.tree, es[1..])
  {
    var e := es[0];
    InsertElems(t, e, true);
    InsertReturns(t, e, true);
    InsertBalanced(t, e, true);
    hide Insert, Ordered, Balanced, Elems;
  }

  lemma {:induction false} InsertAllSpec(t: Tree, es: seq<Entry>)
    requires Behindhand(t, es)
    ensures var t' := InsertAll(t, es);
      Ordered(t') && Balanced(t') && Elems(t') == Elems(t) + (set e | e in es)
    decreases |es|
  {
    hide Insert, Ordered, Balanced, Elems, Behindhand, ReturnsOther;
    if es == [] {
      assert Ordered(t) && Balanced(t) by { Shape(t, es); }
    } else {
      InsertNext(t, es);
      InsertAllSpec(Insert(t, es[0], true).tree, es[1..]);
      assert (set e | e in es) == {es[0]} + (set e | e in es[1..]);
    }
  }

  lemma Shape(t: Tree, es: seq<Entry>)
    requires Behindhand(t, es)
    ensures Ordered(t) && Balanced(t)
  {
  }

  function WithRoot(st: Parser, k: int, t: Tree, e: Entry): Parser
    requires k in st.trees
  {
    st.(trees := st.trees[k := st.trees[k].(root := t)], entry := e)
  }

  lemma EntryStep(st: Parser, k: int, e: Entry, rest: string)
    requires !st.stopped && st.current == Some(k) && k in st.trees && SavableEntry(e)
    requires !ReturnsOther(Insert(st.trees[k].root, e, true), e)
    ensures ParseText(st, EntryText(e) + rest) ==
            ParseText(WithRoot(st, k, Insert(st.trees[k].root, e, true).tree, e), rest)
  {
    hide ParseText, Line, Flush, Insert, WithRoot;
    EntryTextIs(e, rest);
    EntryLines(st, e, Flush(EntryFlush) + rest);
    EntryFlushed(st.(entry := e), k, e, rest);
    assert WithRoot(st.(entry := e), k, Insert(st.trees[k].root, e, true).tree, e) ==
           WithRoot(st, k, Insert(st.trees[k].root, e, true).tree, e) by {
      WithRootEntry(st, k, Insert(st.trees[k].root, e, true).tree, e);
    }
  }

  lemma WithRootEntry(st: Parser, k: int, t: Tree, e: Entry)
    requires k in st.trees
    ensures WithRoot(st.(entry := e), k, t, e) == WithRoot(st, k, t, e)
  {
  }

  lemma EntryTextIs(e: Entry, rest: string)
    ensures EntryText(e) + rest ==
      Line(EntryLogical, e.logical) + (Line(EntryPhysical, e.physical) + (Line(EntrySize, e.size) + (Flush(EntryFlush) + rest)))
  {
    hide Line, Flush;
    var a, b, c, d := Line(EntryLogical, e.logical), Line(EntryPhysical, e.physical), Line(EntrySize, e.size), Flush(EntryFlush);
    assert EntryText(e) == a + b + c + d;
    assert a + b + c + d + rest == a + (b + (c + (d + rest)));
  }

  lemma EntryFlushed(st: Parser, k: int, e: Entry, rest: string)
    requires !st.stopped && st.current == Some(k) && k in st.trees && st.entry == e
    requires !ReturnsOther(Insert(st.trees[k].root, e, true), e)
    ensures ParseText(st, Flush(EntryFlush) + rest) ==
            ParseText(WithRoot(st, k, Insert(st.trees[k].root, e, true).tree, e), rest)
  {
    hide ParseText, Flush, Insert;
    FlushStep(st, EntryFlush, rest);
    assert AddEntry(st) == WithRoot(st, k, Insert(st.trees[k].root, e, true).tree, e);
  }

  lemma EntryLines(st: Parser, e: Entry, rest: string)
    requires !st.stopped && SavableEntry(e)
    ensures ParseText(st, Line(EntryLogical, e.logical) + (Line(EntryPhysical, e.physical) + (Line(EntrySize, e.size) + rest))) ==
            ParseText(st.(entry := e), rest)
  {
    hide ParseText, Line, Savable;
    var s1 := st.(entry := st.entry.(logical := e.logical));
    var s2 := s1.(entry := s1.entry.(physical := e.physical));
    SavableLine(st, EntryLogical, e.logical, Line(EntryPhysical, e.physical) + (Line(EntrySize, e.size) + rest));
    SavableLine(s1, EntryPhysical, e.physical, Line(EntrySize, e.size) + rest);
    SavableLine(s2, EntrySize, e.size, rest);
    assert s2.(entry := s2.entry.(size := e.size)) == st.(entry := e);
  }

  lemma {:induction false} EntriesStep(st: Parser, k: int, es: seq<Entry>, rest: string) returns (last: Entry)
    requires !st.stopped && st.current == Some(k) && k in st.trees
    requires Behindhand(st.trees[k].root, es) && SavableEntries(es)
    ensures ParseText(st, EntriesText(es) + rest) == ParseText(WithRoot(st, k, InsertAll(st.trees[k].root, es), last), rest)
    decreases |es|
  {
    hide ParseText, EntryText, Insert, Behindhand, SavableEntry;
    if es == [] {
      last := st.entry;
      assert EntriesText(es) + rest == rest;
      assert WithRoot(st, k, st.trees[k].root, last) == st;
    } else {
      InsertNext(st.trees[k].root, es);
      var t := Insert(st.trees[k].root, es[0], true).tree;
      assert EntriesText(es) + rest == EntryText(es[0]) + (EntriesText(es[1..]) + rest);
      EntryStep(st, k, es[0], EntriesText(es[1..]) + rest);
      var st' := WithRoot(st, k, t, es[0]);
      last := EntriesStep(st', k, es[1..], rest);
      assert WithRoot(st', k, InsertAll(t, es[1..]), last) == WithRoot(st, k, InsertAll(st.trees[k].root, es), last);
    }
  }

  // ----- trees -----

  /** The tree that is built from the entries. */
  function Rebuilt(info: TreeInfo): TreeInfo {
    info.(root := InsertAll(Nil, InOrder(info.root)))
  }

  lemma HeadText(a: string, b: string, c: string, d: string, e: string, rest: string)
    ensures a + b + c + d + e + rest == a + (b + (c + (d + (e + rest))))
  {
    assert a + b + c + d + e + rest == a + b + c + d + (e + rest);
    assert a + b + c + d + (e + rest) == a + b + c + (d + (e + rest));
    assert a + b + c + (d + (e + rest)) == a + b + (c + (d + (e + rest)));
    assert a + b + (c + (d + (e + rest))) == a + (b + (c + (d + (e + rest))));
  }

  lemma HeadStep(st: Parser, k: int, info: TreeInfo, rest: string)
    requires !st.stopped && st.tree.root == Nil && SavableTree(k, info)
    ensures ParseText(st, TreeHead(k, info) + rest) ==
            ParseText(st.(trees := st.trees[k := info.(root := Nil)], current := Some(k), index := 0, tree := EMPTY_TREE,
                          last := st.last + info.physicalSize), rest)
  {
    hide *;
    TreeHeadIs(k, info, rest);
    HeadLines(st, k, info, Flush(TreeFlush) + rest);
    HeadFlush(st.(index := k, tree := info.(root := Nil), last := st.last + info.physicalSize), rest);
  }

  lemma TreeHeadIs(k: int, info: TreeInfo, rest: string)
    ensures TreeHead(k, info) + rest ==
      Line(TreeIndex, k) + (Line(TreeInit, info.physicalInitPos) + (Line(TreeSize, info.physicalSize)
        + (Line(TreeFileSize, info.fileSize) + (Flush(TreeFlush) + rest))))
  {
    hide Line, Flush;
    HeadText(Line(TreeIndex, k), Line(TreeInit, info.physicalInitPos), Line(TreeSize, info.physicalSize),
             Line(TreeFileSize, info.fileSize), Flush(TreeFlush), rest);
  }

  lemma HeadFlush(st: Parser, rest: string)
    requires !st.stopped
    ensures ParseText(st, Flush(TreeFlush) + rest) ==
            ParseText(st.(trees := st.trees[st.index := st.tree], current := Some(st.index), index := 0, tree := EMPTY_TREE), rest)
  {
    hide ParseText, Flush;
    FlushStep(st, TreeFlush, rest);
  }

  lemma HeadLines(st: Parser, k: int, info: TreeInfo, rest: string)
    requires !st.stopped && st.tree.root == Nil && SavableTree(k, info)
    ensures ParseText(st, Line(TreeIndex, k) + (Line(TreeInit, info.physicalInitPos) + (Line(TreeSize, info.physicalSize)
                          + (Line(TreeFileSize, info.fileSize) + rest)))) ==
            ParseText(st.(index := k, tree := info.(root := Nil), last := st.last + info.physicalSize), rest)
  {
    HeadValues(k, info);
    hide *;
    var s2 := st.(index := k, tree := st.tree.(physicalInitPos := info.physicalInitPos));
    TwoLines(st, TreeIndex, k, TreeInit, info.physicalInitPos, Line(TreeSize, info.physicalSize) + (Line(TreeFileSize, info.fileSize) + rest));
    TwoLines(s2, TreeSize, info.physicalSize, TreeFileSize, info.fileSize, rest);
    HeadApplied(st, k, info, s2);
  }

  lemma HeadApplied(st: Parser, k: int, info: TreeInfo, s2: Parser)
    requires Savable(k) && Savable(info.physicalInitPos) && Savable(info.physicalSize) && Savable(info.fileSize)
    requires st.tree.root == Nil && s2 == st.(index := k, tree := st.tree.(physicalInitPos := info.physicalInitPos))
    ensures Apply(Apply(st, TreeIndex, k), TreeInit, info.physicalInitPos) == s2
    ensures Apply(Apply(s2, TreeSize, info.physicalSize), TreeFileSize, info.fileSize) ==
            st.(index := k, tree := info.(root := Nil), last := st.last + info.physicalSize)
  {
  }

  lemma TwoLines(st: Parser, a: Tag, v: int, b: Tag, w: int, rest: string)
    requires !st.stopped && a != Unknown && b != Unknown && Savable(v) && Savable(w)
    requires (a.TreeIndex? ==> SavableKey(v)) && !b.TreeIndex? && !a.TreeFlush? && !a.EntryFlush?
    ensures ParseText(st, Line(a, v) + (Line(b, w) + rest)) == ParseText(Apply(Apply(st, a, v), b, w), rest)
  {
    SavableLine(st, a, v, Line(b, w) + rest);
    SavableLine(Apply(st, a, v), b, w, rest);
    hide ParseText, Line;
  }

  lemma HeadValues(k: int, info: TreeInfo)
    requires SavableTree(k, info)
    ensures Savable(k) && SavableKey(k)
    ensures Savable(info.physicalInitPos) && Savable(info.physicalSize) && Savable(info.fileSize)
  {
  }

  lemma InOrderSpec(t: Tree)
    requires Ordered(t)
    ensures StrictlySorted(InOrder(t)) && forall e :: e in InOrder(t) <==> e in Elems(t)
  {
    EnumerateSpec(t, e => 0);
  }

  lemma FreshTree(t: Tree)
    requires Ordered(t)
    ensures Behindhand(Nil, InOrder(t))
  {
    InOrderSpec(t);
  }

  lemma TreeStep(st: Parser, k: int, info: TreeInfo, rest: string) returns (st': Parser)
    requires !st.stopped && st.tree.root == Nil && SavableTree(k, info) && Ordered(info.root)
    ensures ParseText(st, TreeText(k, info) + rest) == ParseText(st', rest)
    ensures !st'.stopped && st'.tree.root == Nil && st'.last == st.last + info.physicalSize
    ensures st'.trees == st.trees[k := Rebuilt(info)]
  {
    assert EMPTY_TREE.root == Nil;
    hide *;
    var es := InOrder(info.root);
    var s1 := st.(trees := st.trees[k := info.(root := Nil)], current := Some(k), index := 0, tree := EMPTY_TREE,
                  last := st.last + info.physicalSize);
    TreeTextIs(k, info, rest);
    HeadStep(st, k, info, EntriesText(es) + rest);
    FreshTree(info.root);
    TreeEntries(k, info);
    var last := EntriesStep(s1, k, es, rest);
    st' := WithRoot(s1, k, InsertAll(Nil, es), last);
    RebuiltIs(st, k, info, s1, last);
  }

  lemma RebuiltIs(st: Parser, k: int, info: TreeInfo, s1: Parser, last: Entry)
    requires s1.trees == st.trees[k := info.(root := Nil)]
    ensures WithRoot(s1, k, InsertAll(Nil, InOrder(info.root)), last) ==
            s1.(trees := st.trees[k := Rebuilt(info)], entry := last)
  {
    hide InsertAll, InOrder;
    assert s1.trees[k := Rebuilt(info)] == st.trees[k := Rebuilt(info)];
  }

  lemma TreeTextIs(k: int, info: TreeInfo, rest: string)
    requires SavableTree(k, info)
    ensures TreeText(k, info) + rest == TreeHead(k, info) + (EntriesText(InOrder(info.root)) + rest)
  {
    NonNegativeKey(k);
    hide TreeHead, EntriesText, InOrder;
  }

  lemma TreeEntries(k: int, info: TreeInfo)
    requires SavableTree(k, info)
    ensures SavableEntries(InOrder(info.root))
  {
  }

  lemma NonNegativeKey(k: int)
    requires SavableKey(k)
    ensures k >= 0
  {
  }

  // ----- the whole index -----

  /** `now` with the trees of `trees` added, rebuilt. */
  ghost predicate Holds(now: map<int, TreeInfo>, before: map<int, TreeInfo>, trees: map<int, TreeInfo>) {
    && (forall k :: k in now <==> k in before || k in trees)
    && (forall k :: k in trees ==> now[k] == Rebuilt(trees[k]))
    && (forall k :: k in before && k !in trees ==> now[k] == before[k])
  }

  lemma HoldsOne(now: map<int, TreeInfo>, before: map<int, TreeInfo>, trees: map<int, TreeInfo>, k: int)
    requires k in trees && Holds(now, before[k := Rebuilt(trees[k])], trees - {k})
    ensures Holds(now, before, trees)
  {
    hide Rebuilt;
  }

  lemma {:induction false} IndexStep(st: Parser, trees: map<int, TreeInfo>) returns (st': Parser)
    requires !st.stopped && st.tree.root == Nil
    requires SavableIndex(trees) && forall k :: k in trees ==> Ordered(trees[k].root)
    ensures ParseText(st, SaveText(trees)) == st'
    ensures !st'.stopped && st'.last == st.last + TotalSize(trees) && Holds(st'.trees, st.trees, trees)
    decreases |trees|
  {
    hide TreeText, SavableTree, Ordered, Rebuilt;
    if k :| k in trees {
      var least := MinKeyExists(trees, k);
      SaveTextMin(trees, least);
      var s1 := TreeStep(st, least, trees[least], SaveText(trees - {least}));
      st' := IndexStep(s1, trees - {least});
      TotalSizePick(trees, least);
      HoldsOne(st'.trees, st.trees, trees, least);
      hide ParseText, SaveText, TotalSize, IsMinKey, Holds;
    } else {
      assert SaveText(trees) == "";
      st' := st;
    }
  }

  // ----- the same index -----

  /** The same keys, fields and entries in order; the shape of the trees may differ. */
  ghost predicate SameIndex(a: map<int, TreeInfo>, b: map<int, TreeInfo>) {
    && (forall k :: k in a <==> k in b)
    && (forall k :: k in a && k in b ==> SameTree(a[k], b[k]))
  }

  ghost predicate SameTree(a: TreeInfo, b: TreeInfo) {
    a == b.(root := a.root) && InOrder(a.root) == InOrder(b.root)
  }

  ghost predicate OrderedIndex(trees: map<int, TreeInfo>) {
    forall k :: k in trees ==> Ordered(trees[k].root)
  }

  lemma {:induction false} SortedUnique(a: seq<Entry>, b: seq<Entry>)
    requires StrictlySorted(a) && StrictlySorted(b) && forall e :: e in a <==> e in b
    ensures a == b
    decreases |a|
  {
    assert |b| > 0 ==> b[0] in b;
    if a != [] {
      assert a[0] in b;
      assert b[0] in a;
      assert a[0] == b[0];
      forall e
        ensures e in a[1..] <==> e in b[1..]
      {
        assert e in a[1..] ==> e in a && e.logical > a[0].logical;
        assert e in b[1..] ==> e in b && e.logical > b[0].logical;
        assert e in a && e != a[0] ==> e in a[1..];
        assert e in b && e != b[0] ==> e in b[1..];
      }
      SortedUnique(a[1..], b[1..]);
    }
  }

  lemma RebuiltSame(info: TreeInfo)
    requires Ordered(info.root)
    ensures SameTree(Rebuilt(info), info)
    ensures Ordered(Rebuilt(info).root) && Balanced(Rebuilt(info).root) && Elems(Rebuilt(info).root) == Elems(info.root)
  {
    var es := InOrder(info.root);
    FreshTree(info.root);
    InsertAllSpec(Nil, es);
    InOrderSpec(info.root);
    var t := InsertAll(Nil, es);
    assert Elems(t) == (set e | e in es);
    InOrderSpec(t);
    SortedUnique(InOrder(t), es);
    hide InOrder, Ordered, Balanced, Elems, InsertAll;
  }

  // ----- whatever is parsed can be saved -----

  ghost predicate FineTree(k: int, info: TreeInfo) {
    && SavableKey(k) && Savable(info.physicalInitPos) && Savable(info.physicalSize) && Savable(info.fileSize)
    && Ordered(info.root) && forall e :: e in Elems(info.root) ==> SavableEntry(e)
  }

  ghost predicate Fine(st: Parser) {
    && SavableEntry(st.entry) && st.tree.root == Nil && FineTree(st.index, st.tree)
    && forall k :: k in st.trees ==> FineTree(k, st.trees[k])
  }

  lemma StartFine()
    ensures Fine(START)
  {
  }

  lemma EntryAddedFine(k: int, info: TreeInfo, e: Entry)
    requires FineTree(k, info) && SavableEntry(e)
    ensures FineTree(k, info.(root := Insert(info.root, e, true).tree))
  {
    InsertElems(info.root, e, true);
    hide Insert, Ordered, Elems, SavableEntry, Savable, SavableKey;
  }

  lemma ApplyFine(st: Parser, tag: Tag, v: nat)
    requires Fine(st) && v <= Limit(tag)
    ensures Fine(Apply(st, tag, v))
  {
    if tag.EntryFlush? && st.current.Some? && st.current.value in st.trees {
      var k := st.current.value;
      EntryAddedFine(k, st.trees[k], st.entry);
      hide Insert, FineTree, SavableEntry;
    } else {
      FineEmpty(st.tree);
      hide Insert, Ordered, Elems;
    }
  }

  lemma FineEmpty(info: TreeInfo)
    ensures Ordered(Nil) && Elems(Nil) == {}
  {
  }

  lemma {:induction false} ParsedFine(st: Parser, text: string)
    requires Fine(st)
    ensures Fine(ParseText(st, text))
    decreases |text|
  {
    if text != "" && !st.stopped {
      var n := LineLength(text, CONFIG_MAX_LINE - 1);
      var line := text[..n];
      var tag := TagOf(line);
      ApplyFine(st, tag, Number(Rest(line, tag), Limit(tag)));
      ParsedFine(ParseLine(st, line), text[n..]);
      hide Fine, Apply, TagOf, Rest, Limit, LineLength;
    }
  }

  lemma FineSavable(k: int, info: TreeInfo)
    requires FineTree(k, info)
    ensures SavableTree(k, info)
  {
    InOrderSpec(info.root);
    var es := InOrder(info.root);
    assert forall i :: 0 <= i < |es| ==> es[i] in es;
    hide InOrder, Ordered, Elems, SavableEntry, Savable, SavableKey;
  }

  /** Any text at all gives an index whose values can be saved. */
  lemma ParsedSavable(text: string)
    ensures SavableIndex(ParseText(START, text).trees) && OrderedIndex(ParseText(START, text).trees)
  {
    StartFine();
    ParsedFine(START, text);
    var trees := ParseText(START, text).trees;
    forall k | k in trees
      ensures SavableTree(k, trees[k]) && Ordered(trees[k].root)
    {
      assert FineTree(k, trees[k]);
      FineSavable(k, trees[k]);
    }
  }

  // ----- the round trip -----

  lemma SavedComesBack(trees: map<int, TreeInfo>)
    requires OrderedIndex(trees) && SavableIndex(trees)
    ensures var st := ParseText(START, SaveText(trees));
      !st.stopped && st.last == TotalSize(trees) && SameIndex(st.trees, trees)
    ensures var st := ParseText(START, SaveText(trees));
      forall k :: k in trees ==> st.trees[k] == Rebuilt(trees[k])
  {
    assert START.tree.root == Nil && START.trees == map[] && START.last == 0 && !START.stopped;
    hide ParseText, SaveText, TotalSize, SavableIndex, Rebuilt;
    var st := IndexStep(START, trees);
    HoldsSame(st.trees, trees);
  }

  lemma HoldsSame(now: map<int, TreeInfo>, trees: map<int, TreeInfo>)
    requires OrderedIndex(trees) && Holds(now, map[], trees)
    ensures SameIndex(now, trees) && forall k :: k in trees ==> now[k] == Rebuilt(trees[k])
  {
    forall k | k in trees
      ensures SameTree(Rebuilt(trees[k]), trees[k])
    {
      RebuiltSame(trees[k]);
    }
    hide Rebuilt, SameTree, Ordered;
  }

  lemma SameSavable(a: map<int, TreeInfo>, b: map<int, TreeInfo>)
    requires SameIndex(a, b) && SavableIndex(a)
    ensures SavableIndex(b)
  {
    forall k | k in b
      ensures SavableTree(k, b[k])
    {
      assert SavableTree(k, a[k]) && SameTree(a[k], b[k]);
      hide InOrder, Savable, SavableKey, SavableEntries;
    }
  }

  /** Saving an index and parsing the text gives the same index back exactly when
      no value is negative and every key is an int. Negative keys are not saved,
      negative numbers are read as 0, larger keys as the largest int. */
  lemma RoundTripExactly(trees: map<int, TreeInfo>)
    requires OrderedIndex(trees)
    ensures SameIndex(ParseText(START, SaveText(trees)).trees, trees) <==> SavableIndex(trees)
    ensures SavableIndex(trees) ==> ParseText(START, SaveText(trees)).last == TotalSize(trees)
  {
    ParsedSavable(SaveText(trees));
    if SameIndex(ParseText(START, SaveText(trees)).trees, trees) {
      SameSavable(ParseText(START, SaveText(trees)).trees, trees);
    }
    if SavableIndex(trees) {
      SavedComesBack(trees);
    }
    hide *;
  }

  lemma {:induction false} TotalSizeSame(a: map<int, TreeInfo>, b: map<int, TreeInfo>)
    requires forall k :: k in a <==> k in b
    requires forall k :: k in a ==> a[k].physicalSize == b[k].physicalSize
    ensures TotalSize(a) == TotalSize(b)
    decreases |a|
  {
    if k :| k in a {
      TotalSizePick(a, k);
      TotalSizePick(b, k);
      TotalSizeSame(a - {k}, b - {k});
    }
  }

  /** A restored index describes the cache file as the saved one did. */
  lemma RestoredCoherent(sources: map<int, seq<byte>>, file: seq<byte>, last: int, trees: map<int, TreeInfo>)
    requires Coherent(sources, file, last, trees) && SavableIndex(trees)
    ensures var st := ParseText(START, SaveText(trees));
      st.last == last && Coherent(sources, file, st.last, st.trees)
  {
    forall k | k in trees
      ensures Ordered(trees[k].root)
    {
      assert TreeOk(sources[k], file, last, trees[k].root);
    }
    SavedComesBack(trees);
    var st := ParseText(START, SaveText(trees));
    hide ParseText, SaveText, SavableIndex;
    TotalSizeSame(trees, st.trees);
    RestoredStored(sources, file, last, trees, st.trees);
    hide TotalSize, TreesStored, TreesApart, Rebuilt, TreeOk;
  }

  lemma RestoredStored(sources: map<int, seq<byte>>, file: seq<byte>, last: int, trees: map<int, TreeInfo>, now: map<int, TreeInfo>)
    requires TreesStored(sources, file, last, trees) && TreesApart(trees)
    requires forall k :: k in now <==> k in trees
    requires forall k :: k in trees ==> now[k] == Rebuilt(trees[k])
    ensures TreesStored(sources, file, last, now) && TreesApart(now)
  {
    forall k | k in now
      ensures TreeOk(sources[k], file, last, now[k].root) && Elems(now[k].root) == Elems(trees[k].root)
    {
      assert TreeOk(sources[k], file, last, trees[k].root);
      RebuiltSame(trees[k]);
      hide Stored, LogicallyDisjoint, PhysicallyDisjoint, Ordered, Balanced, Elems, SameTree;
    }
    hide TreeOk, Elems, Rebuilt, Apart;
  }
}
