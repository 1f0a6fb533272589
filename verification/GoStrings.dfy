/**
 The functions of Go's `strings` package that the description rewriter calls, on strings taken as
 sequences of code points, and the facts about them that do not depend on the rewriter.
 */
module GoStrings {
  import opened Wrappers

  predicate OccursAt(s: string, sub: string, i: int)
  {
    0 <= i && i + |sub| <= |s| && s[i..i + |sub|] == sub
  }

  predicate FirstAt(s: string, sub: string, i: int)
  {
    OccursAt(s, sub, i) && forall j | 0 <= j < i :: !OccursAt(s, sub, j)
  }

  /** strings.Index: the first occurrence, or -1. */
  function Index(s: string, sub: string): (i: int)
    ensures i == -1 || OccursAt(s, sub, i)
    ensures forall j :: OccursAt(s, sub, j) ==> 0 <= i <= j
  {
    if j: int :| 0 <= j <= |s| && OccursAt(s, sub, j) then
      FirstExists(s, sub, j);
      var i :| 0 <= i <= |s| && FirstAt(s, sub, i);
      i
    else
      -1
  }

  lemma {:induction false} FirstExists(s: string, sub: string, j: nat)
    requires OccursAt(s, sub, j)
    ensures exists i :: 0 <= i <= j && FirstAt(s, sub, i)
  {
    if i :| 0 <= i < j && OccursAt(s, sub, i) {
      FirstExists(s, sub, i);
    } else {
      assert FirstAt(s, sub, j);
    }
  }

  /** strings.Contains. */
  predicate Contains(s: string, sub: string)
    ensures Contains(s, sub) <==> exists i :: OccursAt(s, sub, i)
  {
    Index(s, sub) >= 0
  }

  /** strings.CutSuffix, with None for a missing suffix. */
  function CutSuffix(s: string, suffix: string): (r: Option<string>)
    ensures forall rest :: r == Some(rest) <==> s == rest + suffix
  {
    if |suffix| <= |s| && s[|s| - |suffix|..] == suffix then
      assert s == s[..|s| - |suffix|] + suffix;
      Some(s[..|s| - |suffix|])
    else
      assert forall rest: string :: (rest + suffix)[|rest|..] == suffix;
      None
  }

  /** The part of strings.Cut before the separator, with None for a missing separator. */
  function Before(s: string, sep: string): (r: Option<string>)
    ensures r.Some? <==> Contains(s, sep)
    ensures r.Some? ==> OccursAt(s, sep, |r.value|) && s[..|r.value|] == r.value
    ensures r.Some? ==> forall j :: OccursAt(s, sep, j) ==> |r.value| <= j
  {
    var m := Index(s, sep);
    if m < 0 then None else Some(s[..m])
  }

  /** strings.SplitAfter: every piece keeps the separator that ends it. */
  function SplitAfter(s: string, sep: string): (pieces: seq<string>)
    requires sep != ""
    ensures |pieces| > 0
    decreases |s|
  {
    var m := Index(s, sep);
    if m < 0 then [s] else [s[..m + |sep|]] + SplitAfter(s[m + |sep|..], sep)
  }

  /** strings.Join with an empty separator. */
  function Concat(pieces: seq<string>): string
  {
    if pieces == [] then "" else pieces[0] + Concat(pieces[1..])
  }

  /** unicode.IsSpace. */
  predicate IsSpace(c: char)
  {
    var n := c as int;
    9 <= n <= 13 || n == 0x20 || n == 0x85 || n == 0xA0 || n == 0x1680 || 0x2000 <= n <= 0x200a
    || n == 0x2028 || n == 0x2029 || n == 0x202f || n == 0x205f || n == 0x3000
  }

  function TrimLeft(s: string): string
  {
    if s != [] && IsSpace(s[0]) then TrimLeft(s[1..]) else s
  }

  function TrimRight(s: string): string
  {
    if s != [] && IsSpace(s[|s| - 1]) then TrimRight(s[..|s| - 1]) else s
  }

  /** strings.TrimSpace. */
  function TrimSpace(s: string): string
  {
    TrimRight(TrimLeft(s))
  }

  // ---- occurrences ----

  lemma OccursInSlice(s: string, sub: string, lo: nat, hi: nat, i: int)
    requires lo <= hi <= |s|
    ensures OccursAt(s[lo..hi], sub, i) <==> 0 <= i && OccursAt(s, sub, lo + i) && lo + i + |sub| <= hi
  {
    if 0 <= i && lo + i + |sub| <= hi {
      var a, b := s[lo..hi][i..i + |sub|], s[lo + i..lo + i + |sub|];
      assert |a| == |b| && forall k :: 0 <= k < |a| ==> a[k] == b[k];
      assert a == b;
    }
  }

  lemma OccursInSum(a: string, b: string, sub: string, i: int)
    ensures i + |sub| <= |a| ==> (OccursAt(a + b, sub, i) <==> OccursAt(a, sub, i))
    ensures |a| <= i ==> (OccursAt(a + b, sub, i) <==> OccursAt(b, sub, i - |a|))
  {
    if i + |sub| <= |a| {
      OccursInSlice(a + b, sub, 0, |a|, i);
      assert (a + b)[0..|a|] == a;
    }
    if |a| <= i {
      OccursInSlice(a + b, sub, |a|, |a + b|, i - |a|);
      assert (a + b)[|a|..|a + b|] == b;
    }
  }

  lemma OccursWithin(s: string, mid: string, i: int, sub: string, j: int)
    requires OccursAt(s, mid, i) && OccursAt(mid, sub, j)
    ensures OccursAt(s, sub, i + j)
  {
    OccursInSlice(s, sub, i, i + |mid|, j);
  }

  lemma OccurrenceChar(s: string, sub: string, i: int, k: int)
    requires OccursAt(s, sub, i) && 0 <= k < |sub|
    ensures s[i + k] == sub[k]
  {
    assert s[i..i + |sub|][k] == s[i + k];
  }

  // ---- trimming ----

  /** Trimming keeps one contiguous stretch and drops only white space around it. */
  lemma {:induction false} TrimSpaceSlice(s: string) returns (lo: nat, hi: nat)
    ensures lo <= hi <= |s| && TrimSpace(s) == s[lo..hi]
    ensures forall k :: 0 <= k < lo || hi <= k < |s| ==> IsSpace(s[k])
    ensures lo < hi ==> !IsSpace(s[lo]) && !IsSpace(s[hi - 1])
  {
    lo := TrimLeftSlice(s);
    var n := TrimRightSlice(s[lo..]);
    hi := lo + n;
    assert s[lo..][..n] == s[lo..hi];
    forall k | hi <= k < |s| ensures IsSpace(s[k]) {
      assert s[lo..][k - lo] == s[k];
    }
  }

  lemma {:induction false} TrimLeftSlice(s: string) returns (lo: nat)
    ensures lo <= |s| && TrimLeft(s) == s[lo..]
    ensures forall k :: 0 <= k < lo ==> IsSpace(s[k])
    ensures lo < |s| ==> !IsSpace(s[lo])
  {
    if s != [] && IsSpace(s[0]) {
      var rest := TrimLeftSlice(s[1..]);
      lo := rest + 1;
    } else {
      lo := 0;
    }
  }

  lemma {:induction false} TrimRightSlice(s: string) returns (hi: nat)
    ensures hi <= |s| && TrimRight(s) == s[..hi]
    ensures forall k :: hi <= k < |s| ==> IsSpace(s[k])
    ensures 0 < hi ==> !IsSpace(s[hi - 1])
  {
    if s != [] && IsSpace(s[|s| - 1]) {
      hi := TrimRightSlice(s[..|s| - 1]);
    } else {
      hi := |s|;
    }
  }

  /** The characters with the property White_Space in Unicode. */
  lemma SpacesAre(c: char)
    ensures IsSpace(c) <==>
              || c in {'\t', '\n', '\U{000B}', '\U{000C}', '\r', ' ', '\U{0085}', '\U{00A0}', '\U{1680}'}
              || '\U{2000}' <= c <= '\U{200A}'
              || c in {'\U{2028}', '\U{2029}', '\U{202F}', '\U{205F}', '\U{3000}'}
  {
  }

  lemma TrimSpaceIdempotent(s: string)
    ensures TrimSpace(TrimSpace(s)) == TrimSpace(s)
  {
    var lo, hi := TrimSpaceSlice(s);
  }

  /** A text without white space at its ends is in the trimmed string exactly when it was there before. */
  lemma TrimSpaceContains(s: string, sub: string)
    requires sub != "" && !IsSpace(sub[0]) && !IsSpace(sub[|sub| - 1])
    ensures Contains(TrimSpace(s), sub) <==> Contains(s, sub)
  {
    var lo, hi := TrimSpaceSlice(s);
    if Contains(s, sub) {
      var i :| OccursAt(s, sub, i);
      OccurrenceChar(s, sub, i, 0);
      OccurrenceChar(s, sub, i, |sub| - 1);
      OccursInSlice(s, sub, lo, hi, i - lo);
    }
    if Contains(s[lo..hi], sub) {
      var i :| OccursAt(s[lo..hi], sub, i);
      OccursInSlice(s, sub, lo, hi, i);
    }
  }

  // ---- splitting ----

  /** A separator-ended piece has its only separator at its very end. */
  predicate EndsAtFirst(piece: string, sep: string)
  {
    |sep| <= |piece| && Index(piece, sep) == |piece| - |sep|
  }

  /** What a split must look like: only the last piece lacks a separator. */
  predicate IsSplit(pieces: seq<string>, s: string, sep: string)
  {
    && |pieces| > 0
    && Concat(pieces) == s
    && (forall i :: 0 <= i < |pieces| - 1 ==> EndsAtFirst(pieces[i], sep))
    && !Contains(pieces[|pieces| - 1], sep)
  }

  lemma IndexOfHead(s: string, sep: string)
    requires sep != "" && Index(s, sep) >= 0
    ensures EndsAtFirst(s[..Index(s, sep) + |sep|], sep)
  {
    var m := Index(s, sep);
    OccursInSlice(s, sep, 0, m + |sep|, m);
    var j := Index(s[..m + |sep|], sep);
    OccursInSlice(s, sep, 0, m + |sep|, j);
  }

  lemma {:induction false} SplitAfterIsSplit(s: string, sep: string)
    requires sep != ""
    ensures IsSplit(SplitAfter(s, sep), s, sep)
    decreases |s|
  {
    var m := Index(s, sep);
    if m < 0 {
      assert Concat([s]) == s + Concat([]);
    } else {
      var rest := SplitAfter(s[m + |sep|..], sep);
      SplitAfterIsSplit(s[m + |sep|..], sep);
      IndexOfHead(s, sep);
      var pieces := SplitAfter(s, sep);
      assert pieces[0] == s[..m + |sep|] && pieces[1..] == rest;
      assert forall i :: 1 <= i < |pieces| ==> pieces[i] == rest[i - 1];
    }
  }

  /** The split is the only sequence of its kind: nothing is lost, moved or cut elsewhere. */
  lemma {:induction false} SplitAfterUnique(pieces: seq<string>, s: string, sep: string)
    requires sep != "" && IsSplit(pieces, s, sep)
    ensures pieces == SplitAfter(s, sep)
    decreases |pieces|
  {
    if |pieces| == 1 {
      assert pieces[1..] == [] && Concat(pieces) == pieces[0] + "";
      assert pieces[0] == s && pieces == [s];
    } else {
      var head, tail := pieces[0], pieces[1..];
      var t := Concat(tail);
      assert s == head + t;
      var m := |head| - |sep|;
      assert EndsAtFirst(head, sep);
      OccursInSum(head, t, sep, m);
      var j := Index(s, sep);
      OccursInSum(head, t, sep, j);
      assert j == m;
      assert s[..m + |sep|] == head && s[m + |sep|..] == t;
      SplitAfterUnique(tail, t, sep);
      assert pieces == [head] + tail;
    }
  }
}
