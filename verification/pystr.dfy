/** The few Python `str` operations the extraction code relies on:
    `find`, `rfind`, `in`, slicing with negative and out-of-range bounds,
    and `strip`. */
module PyStr {

  /** `sub` occurs in `s` starting at index `i`. */
  predicate OccursAt(s: string, sub: string, i: int)
  {
    0 <= i && i + |sub| <= |s| && s[i..i + |sub|] == sub
  }

  /** `s.find(sub, start)`: the lowest index at or after `start` where `sub`
      occurs, or -1. */
  function Find(s: string, sub: string, start: nat): (r: int)
    ensures r == -1 || (start <= r && OccursAt(s, sub, r))
    ensures forall j :: start <= j && (r == -1 || j < r) ==> !OccursAt(s, sub, j)
    decreases |s| - start
  {
    if start + |sub| > |s| then -1
    else if s[start..start + |sub|] == sub then start
    else Find(s, sub, start + 1)
  }

  /** `find` stops at an occurrence when no character before it, from
      `start` on, could begin one. */
  lemma FindFirst(s: string, sub: string, start: nat, p: int)
    requires sub != [] && start <= p && OccursAt(s, sub, p)
    requires forall j :: start <= j < p ==> s[j] != sub[0]
    ensures Find(s, sub, start) == p
  {
    var r := Find(s, sub, start);
    assert r >= 0 ==> s[r..r + |sub|][0] == s[r];
  }

  /** `sub in s`. */
  predicate Contains(s: string, sub: string)
  {
    Find(s, sub, 0) >= 0
  }

  /** A one-character `sub` occurs exactly where `s` holds that character. */
  lemma OccursAtChar(s: string, c: char, k: int)
    ensures OccursAt(s, [c], k) <==> 0 <= k < |s| && s[k] == c
  {
    if 0 <= k < |s| {
      assert s[k..k + 1] == [s[k]];
    }
  }

  /** The first occurrence of a character holds it, and nothing before it
      does. */
  lemma FindChar(s: string, c: char, i: int)
    requires i == Find(s, [c], 0) && i >= 0
    ensures i < |s| && s[i] == c
    ensures forall k :: 0 <= k < i ==> s[k] != c
  {
    OccursAtChar(s, c, i);
    forall k | 0 <= k < i
      ensures s[k] != c
    {
      OccursAtChar(s, c, k);
    }
  }

  /** The last occurrence of a character holds it, and nothing after it
      does. */
  lemma RFindChar(s: string, c: char, j: int)
    requires j == RFind(s, [c]) && j >= 0
    ensures j < |s| && s[j] == c
    ensures forall k :: j < k < |s| ==> s[k] != c
  {
    OccursAtChar(s, c, j);
    forall k | j < k < |s|
      ensures s[k] != c
    {
      OccursAtChar(s, c, k);
    }
  }

  lemma ContainsIff(s: string, sub: string)
    ensures Contains(s, sub) <==> exists i :: OccursAt(s, sub, i)
  {
  }

  /** The highest index `i <= from` where `sub` occurs, or -1. */
  function RFindBelow(s: string, sub: string, from: int): (r: int)
    ensures r == -1 || (r <= from && OccursAt(s, sub, r))
    ensures forall j :: r < j <= from ==> !OccursAt(s, sub, j)
    decreases from + 1
  {
    if from < 0 then -1
    else if OccursAt(s, sub, from) then from
    else RFindBelow(s, sub, from - 1)
  }

  /** `s.rfind(sub)`: the highest index where `sub` occurs, or -1. */
  function RFind(s: string, sub: string): (r: int)
    ensures r == -1 || OccursAt(s, sub, r)
    ensures forall j :: r < j ==> !OccursAt(s, sub, j)
  {
    RFindBelow(s, sub, |s| - |sub|)
  }

  /** A slice bound as Python normalises it: negative counts from the end,
      then clamped to `0..n`. */
  function SliceBound(i: int, n: nat): (k: nat)
    ensures k <= n
    ensures 0 <= i <= n ==> k == i
    ensures -(n as int) <= i < 0 ==> k == i + n
  {
    var j := if i < 0 then i + n else i;
    if j < 0 then 0 else if j > n then n else j
  }

  /** `s[i:j]`: never fails; empty when the normalised bounds cross. */
  function Slice(s: string, i: int, j: int): (r: string)
    ensures 0 <= i <= j <= |s| ==> r == s[i..j]
    ensures 0 <= j <= i ==> r == []
    ensures 0 <= i < |s| && j == -1 ==> r == s[i..|s| - 1]
    ensures |s| <= i ==> r == []
  {
    var a := SliceBound(i, |s|);
    var b := SliceBound(j, |s|);
    if a < b then s[a..b] else []
  }

  /** The characters `str.isspace()` accepts, which `str.strip()` removes. */
  predicate IsSpace(c: char)
  {
    c == ' ' || ('\t' <= c <= '\r') || ('\U{1C}' <= c <= '\U{1F}') ||
    c == '\U{85}' || c == '\U{A0}' || c == '\U{1680}' ||
    ('\U{2000}' <= c <= '\U{200A}') || c == '\U{2028}' || c == '\U{2029}' ||
    c == '\U{202F}' || c == '\U{205F}' || c == '\U{3000}'
  }

  /** The first index at or after `i` that holds no whitespace, or `|s|`. */
  function SkipSpaceFrom(s: string, i: nat): (a: nat)
    requires i <= |s|
    ensures i <= a <= |s|
    ensures forall k :: i <= k < a ==> IsSpace(s[k])
    ensures a < |s| ==> !IsSpace(s[a])
    decreases |s| - i
  {
    if i < |s| && IsSpace(s[i]) then SkipSpaceFrom(s, i + 1) else i
  }

  /** The end of `s[lo..j]` once its trailing whitespace is cut off. */
  function SkipSpaceBack(s: string, lo: nat, j: nat): (b: nat)
    requires lo <= j <= |s|
    ensures lo <= b <= j
    ensures forall k :: b <= k < j ==> IsSpace(s[k])
    ensures lo < b ==> !IsSpace(s[b - 1])
    decreases j
  {
    if lo < j && IsSpace(s[j - 1]) then SkipSpaceBack(s, lo, j - 1) else j
  }

  /** `s.strip()`: `lstrip` then `rstrip`. */
  function Strip(s: string): (r: string)
    ensures |r| <= |s|
    ensures r == [] || (!IsSpace(r[0]) && !IsSpace(r[|r| - 1]))
  {
    var a := SkipSpaceFrom(s, 0);
    s[a..SkipSpaceBack(s, a, |s|)]
  }

  /** What `strip` keeps and removes: it keeps the part of `s` that starts
      at the first non-whitespace character `a` and removes only
      whitespace before and after that part. */
  lemma StripKeepsInfix(s: string, a: nat)
    requires a == SkipSpaceFrom(s, 0)
    ensures a + |Strip(s)| <= |s| && Strip(s) == s[a..a + |Strip(s)|]
    ensures forall i :: 0 <= i < a ==> IsSpace(s[i])
    ensures forall i :: a + |Strip(s)| <= i < |s| ==> IsSpace(s[i])
  {
  }

  lemma StripIdempotent(s: string)
    ensures Strip(Strip(s)) == Strip(s)
  {
  }

  /** `strip` removes exactly the whitespace framing a text that neither
      starts nor ends with whitespace. */
  lemma StripFramed(pre: string, core: string, post: string)
    requires forall i :: 0 <= i < |pre| ==> IsSpace(pre[i])
    requires forall i :: 0 <= i < |post| ==> IsSpace(post[i])
    requires core != [] && !IsSpace(core[0]) && !IsSpace(core[|core| - 1])
    ensures Strip(pre + core + post) == core
  {
    var s := pre + core + post;
    assert s[|pre|] == core[0];
    var a := SkipSpaceFrom(s, 0);
    var e := |pre| + |core|;
    assert s[e - 1] == core[|core| - 1];
    var b := SkipSpaceBack(s, a, |s|);
    assert s[a..b] == core;
  }
}
