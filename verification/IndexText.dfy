/** The text layer of the index file of ijkavformat/ijkiomanager.c: numbers,
    prefixes and lines. */
module IndexText {
  import opened Common

  const CONFIG_MAX_LINE := 1024
  const LONG_MAX := 0x7fff_ffff                  // strtol on armv7a
  const LLONG_MAX := 0x7fff_ffff_ffff_ffff       // strtoll

  /** A value of an int64_t. */
  predicate IsInt64(v: int) {
    -LLONG_MAX - 1 <= v <= LLONG_MAX
  }

  // ----- numbers -----

  function Digit(d: nat): char
    requires d < 10
  {
    '0' + d as char
  }

  predicate IsDigit(c: char) {
    '0' <= c <= '9'
  }

  function Decimal(n: nat): (s: string)
    ensures s != ""
    ensures forall i :: 0 <= i < |s| ==> IsDigit(s[i])
  {
    if n < 10 then [Digit(n)] else Decimal(n / 10) + [Digit(n % 10)]
  }

  /** printf with %lld. */
  function Format(v: int): string {
    if v < 0 then "-" + Decimal(-v) else Decimal(v)
  }

  /** The digits of a number are those of its tenth, and then its last one. */
  lemma DigitsOf(n: int, d: int)
    requires n >= 0 && 0 <= d < 10
    ensures Format(d) == ["0123456789"[d]]
    ensures n > 0 ==> Format(10 * n + d) == Format(n) + Format(d) && Format(-n) == "-" + Format(n)
  {
    assert (10 * n + d) / 10 == n && (10 * n + d) % 10 == d;
  }

  /** What strtoll makes of a string of digits, without its limit. */
  function Value(s: string): nat
    requires forall i :: 0 <= i < |s| ==> IsDigit(s[i])
  {
    if s == "" then 0
    else
      var d := s[|s| - 1];
      assert IsDigit(d);
      10 * Value(s[..|s| - 1]) + (d as int - '0' as int)
  }

  function LeadingDigits(s: string): (d: string)
    ensures forall i :: 0 <= i < |d| ==> IsDigit(d[i])
  {
    if s == "" || !IsDigit(s[0]) then "" else [s[0]] + LeadingDigits(s[1..])
  }

  /** The number a line's value is read as: the digits it starts with. */
  function Number(s: string, limit: nat): nat {
    Min(Value(LeadingDigits(s)), limit)
  }

  lemma {:induction false} DecimalValue(n: nat)
    ensures Value(Decimal(n)) == n
    decreases n
  {
    if n >= 10 {
      DecimalValue(n / 10);
      var s := Decimal(n);
      assert s[..|s| - 1] == Decimal(n / 10);
    } else {
      assert Decimal(n)[..0] == "";
    }
  }

  lemma {:induction false} DigitsBefore(d: string, c: char, rest: string)
    requires forall i :: 0 <= i < |d| ==> IsDigit(d[i])
    requires !IsDigit(c)
    ensures LeadingDigits(d + [c] + rest) == d
    decreases |d|
  {
    var s := d + [c] + rest;
    if d == "" {
      assert s[0] == c;
    } else {
      assert s[0] == d[0] && s[1..] == d[1..] + [c] + rest;
      DigitsBefore(d[1..], c, rest);
    }
  }

  /** A number is read as it was written unless it is negative: then as 0. */
  lemma NumberFormat(v: int, limit: nat, rest: string)
    requires v <= limit
    ensures Number(Format(v) + "\n" + rest, limit) == Max(v, 0)
  {
    if v < 0 {
      var s := Format(v) + "\n" + rest;
      assert s[0] == '-';
    } else {
      DigitsBefore(Decimal(v), '\n', rest);
      DecimalValue(v);
    }
  }

  /** Whatever follows a number but a digit is not read, and a number that is too
      large is cut. */
  lemma NumberOf(v: nat, limit: nat, c: char, rest: string)
    requires !IsDigit(c)
    ensures Number(Format(v) + [c] + rest, limit) == Min(v, limit)
  {
    DigitsBefore(Decimal(v), c, rest);
    DecimalValue(v);
  }

  function Pow10(k: nat): nat {
    if k == 0 then 1 else 10 * Pow10(k - 1)
  }

  lemma {:induction false} DecimalLength(n: nat, k: nat)
    requires k > 0 && n < Pow10(k)
    ensures |Decimal(n)| <= k
    decreases k
  {
    if n >= 10 {
      assert n / 10 < Pow10(k - 1);
      DecimalLength(n / 10, k - 1);
    }
  }

  lemma FormatLength(v: int)
    requires IsInt64(v)
    ensures |Format(v)| <= 20
    ensures forall i :: 0 <= i < |Format(v)| ==> Format(v)[i] != '\n'
  {
    var n := if v < 0 then -v else v;
    assert Pow10(4) == 10_000;
    assert Pow10(9) == 1_000_000_000;
    assert Pow10(14) == 100_000_000_000_000;
    assert Pow10(19) == 10_000_000_000_000_000_000;
    DecimalLength(n, 19);
    forall i | 0 <= i < |Format(v)|
      ensures Format(v)[i] != '\n'
    {
      assert v < 0 && i > 0 ==> Format(v)[i] == Decimal(-v)[i - 1];
    }
  }

  // ----- prefixes -----

  /** What a line starts with. */
  datatype Tag =
    | TreeIndex | TreeInit | TreeSize | TreeFileSize | TreeFlush
    | EntryLogical | EntryPhysical | EntrySize | EntryFlush | Unknown

  function Prefix(tag: Tag): string {
    match tag
    case TreeIndex => "tree_index:"
    case TreeInit => "tree_physical_init_pos:"
    case TreeSize => "tree_physical_size:"
    case TreeFileSize => "tree_file_size:"
    case TreeFlush => "tree-info-flush"
    case EntryLogical => "entry_logical_pos:"
    case EntryPhysical => "entry_physical_pos:"
    case EntrySize => "entry_size:"
    case EntryFlush => "entry-info-flush"
    case Unknown => ""
  }

  predicate Starts(s: string, prefix: string) {
    |prefix| <= |s| && s[..|prefix|] == prefix
  }

  /** The chain of ijk_av_strstart tests. */
  function TagOf(line: string): Tag {
    if Starts(line, Prefix(TreeIndex)) then TreeIndex
    else if Starts(line, Prefix(TreeInit)) then TreeInit
    else if Starts(line, Prefix(TreeSize)) then TreeSize
    else if Starts(line, Prefix(TreeFileSize)) then TreeFileSize
    else if Starts(line, Prefix(TreeFlush)) then TreeFlush
    else if Starts(line, Prefix(EntryLogical)) then EntryLogical
    else if Starts(line, Prefix(EntryPhysical)) then EntryPhysical
    else if Starts(line, Prefix(EntrySize)) then EntrySize
    else if Starts(line, Prefix(EntryFlush)) then EntryFlush
    else Unknown
  }

  /** A place where the prefixes of two tags differ. */
  function DiffersAt(a: Tag, b: Tag): nat {
    var tree := a.TreeIndex? || a.TreeInit? || a.TreeSize? || a.TreeFileSize? || a.TreeFlush?;
    if tree != (b.TreeIndex? || b.TreeInit? || b.TreeSize? || b.TreeFileSize? || b.TreeFlush?) then 0
    else if tree then (if a.TreeFlush? || b.TreeFlush? then 4 else if (a.TreeInit? && b.TreeSize?) || (a.TreeSize? && b.TreeInit?) then 14 else 5)
    else if a.EntryFlush? || b.EntryFlush? then 5 else 6
  }

  lemma PrefixesDiffer(a: Tag, b: Tag)
    requires a != b && a != Unknown && b != Unknown
    ensures var i := DiffersAt(a, b);
      i < |Prefix(a)| && i < |Prefix(b)| && Prefix(a)[i] != Prefix(b)[i]
  {
  }

  lemma NotStarts(a: Tag, b: Tag, rest: string)
    requires a != b && a != Unknown && b != Unknown
    ensures !Starts(Prefix(b) + rest, Prefix(a))
  {
    PrefixesDiffer(a, b);
    var i, line := DiffersAt(a, b), Prefix(b) + rest;
    hide Prefix, DiffersAt;
    assert line[i] == Prefix(b)[i];
    assert |Prefix(a)| <= |line| ==> line[..|Prefix(a)|][i] == line[i];
  }

  /** Exactly the lines that start with a tag's prefix are taken for it. */
  lemma TagOfPrefix(tag: Tag, rest: string)
    requires tag != Unknown
    ensures TagOf(Prefix(tag) + rest) == tag
    ensures (Prefix(tag) + rest)[|Prefix(tag)|..] == rest
  {
    hide Prefix;
    assert Starts(Prefix(tag) + rest, Prefix(tag));
    forall a: Tag | a != tag && a != Unknown
      ensures !Starts(Prefix(tag) + rest, Prefix(a))
    {
      NotStarts(a, tag, rest);
    }
  }

  // ----- lines -----

  /** How many characters fgets takes with room for `max`. */
  function LineLength(text: string, max: nat): (n: nat)
    ensures n <= |text| && n <= max
    ensures text != "" && max > 0 ==> n > 0
  {
    if text == "" || max == 0 then 0
    else if text[0] == '\n' then 1
    else 1 + LineLength(text[1..], max - 1)
  }

  lemma {:induction false} WholeLine(line: string, rest: string, max: nat)
    requires forall i :: 0 <= i < |line| ==> line[i] != '\n'
    requires |line| < max
    ensures LineLength(line + "\n" + rest, max) == |line| + 1
    decreases |line|
  {
    var text := line + "\n" + rest;
    if line != "" {
      assert text[1..] == line[1..] + "\n" + rest;
      WholeLine(line[1..], rest, max - 1);
    }
  }

  /** An open text file, read line by line. */
  class TextReader {
    const text: string
    var pos: nat
    var eof: bool

    constructor (text: string)
      ensures this.text == text && pos == 0 && !eof
    {
      this.text, pos, eof := text, 0, false;
    }

    /** fgets with a buffer of CONFIG_MAX_LINE characters that was cleared before. */
    method Gets() returns (line: string)
      requires pos <= |text| && (eof ==> pos == |text|)
      modifies this
      ensures pos == old(pos) + LineLength(text[old(pos)..], CONFIG_MAX_LINE - 1) <= |text|
      ensures line == text[old(pos)..pos]
      ensures eof ==> pos == |text|
      ensures old(eof) ==> eof
      ensures old(pos) == |text| ==> eof
    {
      line := "";
      while |line| < CONFIG_MAX_LINE - 1
        invariant old(pos) <= pos <= |text| && line == text[old(pos)..pos] && |line| <= CONFIG_MAX_LINE - 1
        invariant LineLength(text[old(pos)..], CONFIG_MAX_LINE - 1) ==
                  pos - old(pos) + LineLength(text[pos..], CONFIG_MAX_LINE - 1 - |line|)
        invariant eof == old(eof)
        invariant old(pos) == |text| ==> pos == |text|
      {
        if pos == |text| {
          eof := true;
          return;
        }
        var c := text[pos];
        assert text[pos..][1..] == text[pos + 1..];
        line := line + [c];
        pos := pos + 1;
        if c == '\n' { return; }
      }
    }
  }

  /** ijk_av_strstart. */
  method StrStart(s: string, prefix: string) returns (yes: bool, rest: string)
    ensures yes == Starts(s, prefix)
    ensures yes ==> rest == s[|prefix|..]
  {
    var i := 0;
    while i < |prefix| && i < |s| && prefix[i] == s[i]
      invariant i <= |prefix| && i <= |s| && prefix[..i] == s[..i]
    {
      i := i + 1;
    }
    yes, rest := i == |prefix|, s[i..];
    assert i < |prefix| && i < |s| ==> s[..|s|][i] != prefix[i];
    if !yes && |prefix| <= |s| {
      assert s[..|prefix|][i] == s[i];
    }
  }

  /** Cut the string at the first character that is no digit, and read it. */
  method ReadNumber(s: string, limit: nat) returns (v: nat)
    ensures v == Number(s, limit)
  {
    var i := 0;
    while i < |s| && IsDigit(s[i])
      invariant i <= |s| && forall j :: 0 <= j < i ==> IsDigit(s[j])
      invariant LeadingDigits(s) == s[..i] + LeadingDigits(s[i..])
    {
      assert s[i..][1..] == s[i + 1..];
      i := i + 1;
    }
    assert LeadingDigits(s) == s[..i];
    v := Min(Value(s[..i]), limit);
  }
}
