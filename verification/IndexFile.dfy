/** Saving the cache index as text and parsing it back
    (ijkavformat/ijkiomanager.c). */
module IndexFile {
  import opened Common
  import opened AvlTree
  import opened CacheIndex
  import opened IndexText

  // ----- saving -----

  function Line(tag: Tag, v: int): string {
    Prefix(tag) + Format(v) + "\n"
  }

  function Flush(tag: Tag): string {
    Prefix(tag) + "\n"
  }

  function EntryText(e: Entry): string {
    Line(EntryLogical, e.logical) + Line(EntryPhysical, e.physical) + Line(EntrySize, e.size) + Flush(EntryFlush)
  }

  function EntriesText(es: seq<Entry>): string {
    if es == [] then "" else EntryText(es[0]) + EntriesText(es[1..])
  }

  function InOrder(t: Tree): seq<Entry> {
    Enumerate(t, e => 0)
  }

  function TreeText(key: int, info: TreeInfo): string {
    if key < 0 then ""
    else TreeHead(key, info) + EntriesText(InOrder(info.root))
  }

  ghost predicate IsMinKey(trees: map<int, TreeInfo>, k: int) {
    k in trees && forall j :: j in trees ==> k <= j
  }

  lemma {:induction false} MinKeyExists(trees: map<int, TreeInfo>, k: int) returns (least: int)
    requires k in trees
    ensures IsMinKey(trees, least)
    decreases |trees|
  {
    var others := trees - {k};
    assert forall i :: i in trees ==> i == k || i in others;
    least := k;
    if j :| j in others {
      var m := MinKeyExists(others, j);
      least := Min(k, m);
    }
  }

  /** The whole file: the map is traversed by ascending keys. */
  ghost function SaveText(trees: map<int, TreeInfo>): string
    decreases |trees|
  {
    if !exists k :: IsMinKey(trees, k) then ""
    else
      var k :| IsMinKey(trees, k);
      TreeText(k, trees[k]) + SaveText(trees - {k})
  }

  /** The file in its own words. */
  lemma TheLines(e: Entry, key: int, info: TreeInfo)
    ensures EntryText(e) ==
      "entry_logical_pos:" + Format(e.logical) + "\n" + ("entry_physical_pos:" + Format(e.physical) + "\n")
      + ("entry_size:" + Format(e.size) + "\n") + "entry-info-flush\n"
    ensures TreeText(key, info) ==
      if key < 0 then ""
      else
        "tree_index:" + Format(key) + "\n" + ("tree_physical_init_pos:" + Format(info.physicalInitPos) + "\n")
        + ("tree_physical_size:" + Format(info.physicalSize) + "\n") + ("tree_file_size:" + Format(info.fileSize) + "\n")
        + "tree-info-flush\n" + EntriesText(InOrder(info.root))
  {
    hide Format, InOrder, EntriesText;
  }

  class TextWriter {
    var text: string

    constructor ()
      ensures text == ""
    {
      text := "";
    }

    /** snprintf and fwrite; every string is shorter than the buffer. */
    method Write(s: string)
      requires |s| < CONFIG_MAX_LINE
      modifies this
      ensures text == old(text) + s
    {
      text := text + s;
    }
  }

  lemma LineFits(tag: Tag, v: int)
    requires IsInt64(v)
    ensures |Line(tag, v)| < CONFIG_MAX_LINE
    ensures forall i :: 0 <= i < |Prefix(tag) + Format(v)| ==> (Prefix(tag) + Format(v))[i] != '\n'
  {
    FormatLength(v);
    hide Format, IsInt64;
    PrefixPlain(tag);
    hide Prefix;
  }

  lemma FlushFits(tag: Tag)
    ensures |Flush(tag)| < CONFIG_MAX_LINE
  {
  }

  lemma PrefixPlain(tag: Tag)
    ensures |Prefix(tag)| <= 23
    ensures forall i :: 0 <= i < |Prefix(tag)| ==> Prefix(tag)[i] != '\n'
  {
  }

  ghost predicate EntryInRange(e: Entry) {
    IsInt64(e.logical) && IsInt64(e.physical) && IsInt64(e.size)
  }

  /** The fields are values of the C types. */
  ghost predicate InRange(trees: map<int, TreeInfo>) {
    forall k :: k in trees ==> TreeInRange(k, trees[k])
  }

  ghost predicate TreeInRange(k: int, info: TreeInfo) {
    && IsInt64(k) && IsInt64(info.physicalInitPos) && IsInt64(info.physicalSize) && IsInt64(info.fileSize)
    && forall i :: 0 <= i < |InOrder(info.root)| ==> EntryInRange(InOrder(info.root)[i])
  }

  lemma Joined4(t: string, a: string, b: string, c: string, d: string)
    ensures t + a + b + c + d == t + (a + b + c + d)
  {
    assert t + a + b == t + (a + b);
    assert t + (a + b) + c == t + (a + b + c);
    assert t + (a + b + c) + d == t + (a + b + c + d);
  }

  /** enu_save. */
  method SaveEntry(fp: TextWriter, e: Entry)
    requires EntryInRange(e)
    modifies fp
    ensures fp.text == old(fp.text) + EntryText(e)
  {
    LineFits(EntryLogical, e.logical);
    LineFits(EntryPhysical, e.physical);
    LineFits(EntrySize, e.size);
    hide Line, Flush, IsInt64;
    Joined4(fp.text, Line(EntryLogical, e.logical), Line(EntryPhysical, e.physical), Line(EntrySize, e.size), Flush(EntryFlush));
    FlushFits(EntryFlush);
    fp.Write(Line(EntryLogical, e.logical));
    fp.Write(Line(EntryPhysical, e.physical));
    fp.Write(Line(EntrySize, e.size));
    fp.Write(Flush(EntryFlush));
  }

  lemma {:induction false} EntriesTextSnoc(es: seq<Entry>, e: Entry)
    ensures EntriesText(es + [e]) == EntriesText(es) + EntryText(e)
    decreases |es|
  {
    hide EntryText;
    if es == [] {
      assert (es + [e])[1..] == [];
    } else {
      assert (es + [e])[1..] == es[1..] + [e];
      EntriesTextSnoc(es[1..], e);
    }
  }

  function TreeHead(key: int, info: TreeInfo): string {
    Line(TreeIndex, key) + Line(TreeInit, info.physicalInitPos) + Line(TreeSize, info.physicalSize)
    + Line(TreeFileSize, info.fileSize) + Flush(TreeFlush)
  }

  method SaveHead(fp: TextWriter, key: int, info: TreeInfo)
    requires IsInt64(key) && IsInt64(info.physicalInitPos) && IsInt64(info.physicalSize) && IsInt64(info.fileSize)
    modifies fp
    ensures fp.text == old(fp.text) + TreeHead(key, info)
  {
    var a, b, c := Line(TreeIndex, key), Line(TreeInit, info.physicalInitPos), Line(TreeSize, info.physicalSize);
    var d, e := Line(TreeFileSize, info.fileSize), Flush(TreeFlush);
    LineFits(TreeIndex, key);
    LineFits(TreeInit, info.physicalInitPos);
    LineFits(TreeSize, info.physicalSize);
    LineFits(TreeFileSize, info.fileSize);
    FlushFits(TreeFlush);
    hide Line, Flush, IsInt64;
    var text := fp.text;
    Joined4(text, a, b, c, d);
    assert text + (a + b + c + d) + e == text + (a + b + c + d + e);
    fp.Write(a);
    fp.Write(b);
    fp.Write(c);
    fp.Write(d);
    fp.Write(e);
  }

  method SaveEntries(fp: TextWriter, es: seq<Entry>)
    requires forall i :: 0 <= i < |es| ==> EntryInRange(es[i])
    modifies fp
    ensures fp.text == old(fp.text) + EntriesText(es)
  {
    hide EntryText, EntryInRange;
    for i := 0 to |es|
      invariant fp.text == old(fp.text) + EntriesText(es[..i])
    {
      SaveEntry(fp, es[i]);
      EntriesTextSnoc(es[..i], es[i]);
      assert es[..i + 1] == es[..i] + [es[i]];
    }
    assert es[..|es|] == es;
  }

  /** ijkio_manager_save_tree_to_file. */
  method SaveTree(fp: TextWriter, key: int, info: TreeInfo)
    requires TreeInRange(key, info)
    modifies fp
    ensures fp.text == old(fp.text) + TreeText(key, info)
  {
    hide TreeHead, InOrder, EntriesText, EntryInRange, IsInt64;
    if key < 0 { return; }
    SaveHead(fp, key, info);
    SaveEntries(fp, InOrder(info.root));
  }

  /** The map is traversed by ascending keys. */
  method Save(fp: TextWriter, trees: map<int, TreeInfo>)
    requires InRange(trees)
    modifies fp
    ensures fp.text == old(fp.text) + SaveText(trees)
  {
    var rest := trees;
    while exists k :: k in rest
      invariant InRange(rest)
      invariant fp.text + SaveText(rest) == old(fp.text) + SaveText(trees)
      decreases |rest|
    {
      hide TreeText, TreeInRange, SaveText;
      ghost var some :| some in rest;
      ghost var least := MinKeyExists(rest, some);
      var k :| k in rest && forall j :: j in rest ==> k <= j;
      SaveStep(fp.text, rest, k);
      SaveTree(fp, k, rest[k]);
      rest := rest - {k};
    }
  }

  lemma SaveStep(text: string, trees: map<int, TreeInfo>, k: int)
    requires IsMinKey(trees, k)
    ensures text + SaveText(trees) == text + TreeText(k, trees[k]) + SaveText(trees - {k})
  {
    SaveTextMin(trees, k);
    hide SaveText, TreeText;
  }

  lemma SaveTextMin(trees: map<int, TreeInfo>, k: int)
    requires IsMinKey(trees, k)
    ensures SaveText(trees) == TreeText(k, trees[k]) + SaveText(trees - {k})
  {
    var j :| IsMinKey(trees, j) && SaveText(trees) == TreeText(j, trees[j]) + SaveText(trees - {j});
  }

  // ----- parsing -----

  /** The variables of ijkio_manager_parse_cache_info: the pending values, the key
      of the tree last put into the map, and what is built. `stopped` is set when
      the loop is left early. */
  datatype Parser = Parser(index: int, tree: TreeInfo, entry: Entry, current: Option<int>,
                           trees: map<int, TreeInfo>, last: int, stopped: bool)

  const START := Parser(0, EMPTY_TREE, Entry(0, 0, 0), None, map[], 0, false)

  function Rest(line: string, tag: Tag): string {
    if |Prefix(tag)| <= |line| then line[|Prefix(tag)|..] else ""
  }

  /** "entry-info-flush": the pending entry goes into the current tree. */
  function AddEntry(st: Parser): Parser {
    if st.current.None? || st.current.value !in st.trees then st
    else
      var k := st.current.value;
      var o := Insert(st.trees[k].root, st.entry, true);
      st.(stopped := ReturnsOther(o, st.entry), trees := st.trees[k := st.trees[k].(root := o.tree)])
  }

  /** "tree-info-flush": the pending tree goes into the map. */
  function AddTree(st: Parser): Parser {
    st.(trees := st.trees[st.index := st.tree], current := Some(st.index), index := 0, tree := EMPTY_TREE)
  }

  /** What a line with this tag and value does. */
  function Apply(st: Parser, tag: Tag, v: nat): Parser {
    match tag
    case TreeIndex => st.(index := v)
    case TreeInit => st.(tree := st.tree.(physicalInitPos := v))
    case TreeSize => st.(tree := st.tree.(physicalSize := v), last := st.last + v)
    case TreeFileSize => st.(tree := st.tree.(fileSize := v))
    case TreeFlush => AddTree(st)
    case EntryLogical => st.(entry := st.entry.(logical := v))
    case EntryPhysical => st.(entry := st.entry.(physical := v))
    case EntrySize => st.(entry := st.entry.(size := v))
    case EntryFlush => AddEntry(st)
    case Unknown => st
  }

  /** The largest value a line with this tag can give. */
  function Limit(tag: Tag): nat {
    if tag.TreeIndex? then LONG_MAX else LLONG_MAX
  }

  function ParseLine(st: Parser, line: string): Parser {
    var tag := TagOf(line);
    Apply(st, tag, Number(Rest(line, tag), Limit(tag)))
  }

  /** All lines, until the end or a key that comes twice. */
  function ParseText(st: Parser, text: string): Parser
    decreases |text|
  {
    if text == "" || st.stopped then st
    else
      var n := LineLength(text, CONFIG_MAX_LINE - 1);
      ParseText(ParseLine(st, text[..n]), text[n..])
  }

  /** One turn of the loop: the chain of prefix tests and the action behind it. */
  method HandleLine(st: Parser, line: string) returns (st': Parser)
    ensures st' == ParseLine(st, line)
  {
    hide Prefix, Number, AddTree, AddEntry;
    var yes, rest, v;
    yes, rest := StrStart(line, Prefix(TreeIndex));
    if yes {
      v := ReadNumber(rest, LONG_MAX);
      return st.(index := v);
    }
    yes, rest := StrStart(line, Prefix(TreeInit));
    if yes {
      v := ReadNumber(rest, LLONG_MAX);
      return st.(tree := st.tree.(physicalInitPos := v));
    }
    yes, rest := StrStart(line, Prefix(TreeSize));
    if yes {
      v := ReadNumber(rest, LLONG_MAX);
      return st.(tree := st.tree.(physicalSize := v), last := st.last + v);
    }
    yes, rest := StrStart(line, Prefix(TreeFileSize));
    if yes {
      v := ReadNumber(rest, LLONG_MAX);
      return st.(tree := st.tree.(fileSize := v));
    }
    yes, rest := StrStart(line, Prefix(TreeFlush));
    if yes { return AddTree(st); }
    yes, rest := StrStart(line, Prefix(EntryLogical));
    if yes {
      v := ReadNumber(rest, LLONG_MAX);
      return st.(entry := st.entry.(logical := v));
    }
    yes, rest := StrStart(line, Prefix(EntryPhysical));
    if yes {
      v := ReadNumber(rest, LLONG_MAX);
      return st.(entry := st.entry.(physical := v));
    }
    yes, rest := StrStart(line, Prefix(EntrySize));
    if yes {
      v := ReadNumber(rest, LLONG_MAX);
      return st.(entry := st.entry.(size := v));
    }
    yes, rest := StrStart(line, Prefix(EntryFlush));
    if yes { return AddEntry(st); }
    return st;
  }

  /** ijkio_manager_parse_cache_info. */
  method Parse(text: string) returns (st: Parser)
    ensures st == ParseText(START, text)
  {
    var fp := new TextReader(text);
    st := START;
    while !fp.eof
      invariant fp.text == text && fp.pos <= |text| && (fp.eof ==> fp.pos == |text|)
      invariant ParseText(START, text) == ParseText(st, text[fp.pos..]) && !st.stopped
      decreases |text| - fp.pos, !fp.eof
    {
      ghost var pos := fp.pos;
      hide ParseLine, ParseText, LineLength;
      var line := fp.Gets();
      ParseStep(st, text, pos, fp.pos);
      st := HandleLine(st, line);
      StoppedText(st, text[fp.pos..]);
      if st.stopped { return; }
    }
    assert text[fp.pos..] == "";
  }

  lemma BlankLine(st: Parser)
    ensures ParseLine(st, "") == st
  {
  }

  lemma ParseStep(st: Parser, text: string, pos: nat, pos': nat)
    requires !st.stopped && pos <= |text| && pos' == pos + LineLength(text[pos..], CONFIG_MAX_LINE - 1)
    ensures ParseText(st, text[pos..]) == ParseText(ParseLine(st, text[pos..pos']), text[pos'..])
  {
    BlankLine(st);
    assert text[pos..][..pos' - pos] == text[pos..pos'] && text[pos..][pos' - pos..] == text[pos'..];
    hide ParseLine;
  }

  lemma StoppedText(st: Parser, text: string)
    ensures st.stopped ==> ParseText(st, text) == st
  {
  }
}
