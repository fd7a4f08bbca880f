/** Types and definitions shared by the models of several source files. */
module Common {

  datatype Option<+T> = None | Some(value: T)

  type byte = b: int | 0 <= b < 256

  /** FFMIN of ijkutils.h. */
  function Min(a: int, b: int): int {
    if a > b then b else a
  }

  function Max(a: int, b: int): int {
    if a > b then a else b
  }

  /** `data` is exactly what the plain source `src` holds from position `pos` on.
      Empty data fits everywhere, also behind the end of the source. */
  ghost predicate Matches(src: seq<byte>, pos: int, data: seq<byte>) {
    |data| > 0 ==> 0 <= pos && pos + |data| <= |src| && data == src[pos..pos + |data|]
  }

  lemma MatchesEmpty(src: seq<byte>, pos: int)
    ensures Matches(src, pos, [])
  {
  }

  lemma MatchesConcat(src: seq<byte>, pos: int, a: seq<byte>, b: seq<byte>)
    requires Matches(src, pos, a)
    requires Matches(src, pos + |a|, b)
    ensures Matches(src, pos, a + b)
  {
    if |a| > 0 && |b| > 0 {
      assert src[pos..pos + |a + b|] == src[pos..pos + |a|] + src[pos + |a|..pos + |a| + |b|];
    } else {
      assert a + b == if |a| > 0 then a else b;
    }
  }

  lemma MatchesSlice(src: seq<byte>, pos: int, a: seq<byte>, i: nat, j: nat)
    requires Matches(src, pos, a)
    requires i <= j <= |a|
    ensures Matches(src, pos + i, a[i..j])
  {
    if i < j {
      var s := src[pos + i..pos + i + (j - i)];
      assert forall k :: 0 <= k < j - i ==> s[k] == src[pos + i + k];
      assert forall k :: 0 <= k < |a| ==> a[k] == src[pos + k];
      assert forall k :: 0 <= k < j - i ==> a[i..j][k] == a[i + k] && a[i + k] == src[pos + (i + k)];
      assert a[i..j] == s;
    }
  }

  lemma SliceSlice<T>(s: seq<T>, a: nat, b: nat, i: nat, j: nat)
    requires a <= b <= |s| && i <= j <= b - a
    ensures s[a..b][i..j] == s[a + i..a + j]
  {
    var t := s[a..b];
    assert forall k :: 0 <= k < |t| ==> t[k] == s[a + k];
    forall k | 0 <= k < j - i
      ensures t[i..j][k] == s[a + i..a + j][k]
    {
      assert t[i..j][k] == t[i + k];
      assert s[a + i..a + j][k] == s[a + i + k];
    }
  }

  lemma DropDrop<T>(s: seq<T>, a: nat, b: nat)
    requires a + b <= |s|
    ensures s[a..][b..] == s[a + b..]
  {
  }
}
