/** Bytes, options and the substring search the parsers share. */
module Bytes {

  type byte = b: int | 0 <= b < 256 witness 0

  /** A `u32`, the type of a TCP sequence number. */
  type u32 = n: int | 0 <= n < 0x1_0000_0000 witness 0

  datatype Option<+T> = None | Some(value: T)

  const TAB: byte := 9
  const LF: byte := 10
  const FORM_FEED: byte := 12
  const CR: byte := 13
  const SPACE: byte := 32
  const SEMICOLON: byte := 59

  const CRLF: seq<byte> := [13, 10]
  const CRLF_CRLF: seq<byte> := [13, 10, 13, 10]
  const LF_LF: seq<byte> := [10, 10]

  function Min(a: int, b: int): int { if a <= b then a else b }

  function Max(a: int, b: int): int { if a >= b then a else b }

  function SaturatingSub(a: nat, b: nat): nat { if a >= b then a - b else 0 }

  /** `word` occurs in `s` at index `i`. */
  predicate At(s: seq<byte>, i: nat, word: seq<byte>) {
    i + |word| <= |s| && s[i..i + |word|] == word
  }

  /** The least index from `from` on at which `word` occurs. */
  function Find(s: seq<byte>, word: seq<byte>, from: nat): (r: Option<nat>)
    ensures r.Some? ==> from <= r.value && At(s, r.value, word)
    ensures forall j: nat :: from <= j && (r.Some? ==> j < r.value) ==> !At(s, j, word)
    decreases |s| - from
  {
    if from + |word| > |s| then None
    else if At(s, from, word) then Some(from)
    else Find(s, word, from + 1)
  }

  lemma FindIs(s: seq<byte>, word: seq<byte>, from: nat, at: nat)
    requires from <= at && At(s, at, word)
    requires forall j: nat :: from <= j < at ==> !At(s, j, word)
    ensures Find(s, word, from) == Some(at)
  {
  }

  lemma FindNone(s: seq<byte>, word: seq<byte>, from: nat)
    requires forall j: nat :: from <= j ==> !At(s, j, word)
    ensures Find(s, word, from) == None
  {
  }

  lemma AtBytes(s: seq<byte>, i: nat, word: seq<byte>)
    ensures At(s, i, word) <==> i + |word| <= |s| && forall k :: 0 <= k < |word| ==> s[i + k] == word[k]
    ensures At(s, i, word) && word != [] ==> i < |s| && s[i] == word[0]
  {
    if i + |word| <= |s| {
      var part := s[i..i + |word|];
      assert forall k :: 0 <= k < |word| ==> part[k] == s[i + k];
    }
  }

  /** `word` starts nowhere in a stretch that lacks its first byte. */
  lemma AbsentBetween(s: seq<byte>, from: nat, to: nat, word: seq<byte>)
    requires word != [] && to <= |s| && forall j :: from <= j < to ==> s[j] != word[0]
    ensures forall j: nat :: from <= j < to ==> !At(s, j, word)
  {
    forall j: nat | from <= j < to
      ensures !At(s, j, word)
    {
      AtBytes(s, j, word);
    }
  }

  /** `word` starts nowhere after the last place it fits. */
  lemma AbsentPastEnd(s: seq<byte>, word: seq<byte>)
    ensures forall j: nat :: j + |word| > |s| ==> !At(s, j, word)
  {
  }

  /** Cutting a concatenation short of, or past, its seam. */
  lemma CutConcatenation(a: seq<byte>, b: seq<byte>, n: nat)
    requires n <= |a + b|
    ensures n <= |a| ==> (a + b)[..n] == a[..n]
    ensures n >= |a| ==> a <= (a + b)[..n] && (a + b)[..n][|a|..] == b[..n - |a|]
  {
  }

  /** A slice of a part that stands at `offset`. */
  lemma SliceOfPart(s: seq<byte>, offset: nat, part: seq<byte>, i: nat, j: nat)
    requires offset <= |s| && part <= s[offset..] && i <= j <= |part|
    ensures s[offset + i..offset + j] == part[i..j]
  {
    assert s[offset + i..offset + j] == s[offset..][i..j];
  }

  lemma SliceOfSlice(s: seq<byte>, from: nat, to: nat, i: nat, j: nat)
    requires from <= to <= |s| && i <= j <= to - from
    ensures s[from..to][i..j] == s[from + i..from + j]
  {
    var a, b := s[from..to][i..j], s[from + i..from + j];
    assert |a| == |b|;
    forall k | 0 <= k < |a|
      ensures a[k] == b[k]
    {
      assert a[k] == s[from..to][i + k] == s[from + i + k];
    }
  }

  lemma FourParts(a: seq<byte>, b: seq<byte>, c: seq<byte>, d: seq<byte>)
    ensures var s := a + b + c + d;
            && s[..|a|] == a && s[|a|..|a| + |b|] == b
            && s[|a| + |b|..|a| + |b| + |c|] == c && s[|a| + |b| + |c|..] == d
  {
  }

  lemma Associates<T>(a: seq<T>, b: seq<T>, c: seq<T>)
    ensures a + b + c == a + (b + c)
  {
  }

  lemma SubsetIsSmaller<T>(a: set<T>, b: set<T>)
    requires a <= b
    ensures |a| <= |b|
  {
    assert b == a + (b - a);
  }

  predicate IsAsciiWhitespace(b: byte) {
    b == SPACE || b == TAB || b == LF || b == FORM_FEED || b == CR
  }
}
