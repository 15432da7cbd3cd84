/**
 Python's string built-ins used by the report parser, on `seq<char>`:
 `str.strip()` with no argument, `str.split(sep)` with a one-character
 separator, `str.startswith` (the sequence prefix `<=`) and substring search.
 */
module Strings {
  import opened Wrappers

  /** The characters for which Python's `str.isspace()` holds. */
  predicate IsSpace(c: char) {
    || c == ' ' || c == '\t' || c == '\n' || c == '\r'
    || c == '\U{B}' || c == '\U{C}'
    || ('\U{1C}' <= c <= '\U{1F}')
    || c == '\U{85}' || c == '\U{A0}' || c == '\U{1680}'
    || ('\U{2000}' <= c <= '\U{200A}')
    || c == '\U{2028}' || c == '\U{2029}' || c == '\U{202F}'
    || c == '\U{205F}' || c == '\U{3000}'
  }

  predicate AllSpace(s: string) {
    forall k :: 0 <= k < |s| ==> IsSpace(s[k])
  }

  /** The index of the first non-whitespace character at or after `i`, or `|s|`. */
  function SkipSpace(s: string, i: nat): (j: nat)
    requires i <= |s|
    ensures i <= j <= |s|
    ensures forall k :: i <= k < j ==> IsSpace(s[k])
    ensures j == |s| || !IsSpace(s[j])
    decreases |s| - i
  {
    if i < |s| && IsSpace(s[i]) then SkipSpace(s, i + 1) else i
  }

  /** The index just past the last non-whitespace character of `s[lo..hi]`, or `lo`. */
  function SkipSpaceBack(s: string, lo: nat, hi: nat): (j: nat)
    requires lo <= hi <= |s|
    ensures lo <= j <= hi
    ensures forall k :: j <= k < hi ==> IsSpace(s[k])
    ensures j == lo || !IsSpace(s[j - 1])
    decreases hi - lo
  {
    if lo < hi && IsSpace(s[hi - 1]) then SkipSpaceBack(s, lo, hi - 1) else hi
  }

  /** `s.strip()`: `s` with whitespace removed at both ends. */
  function Strip(s: string): (r: string)
    ensures r == [] || (!IsSpace(r[0]) && !IsSpace(r[|r| - 1]))
  {
    var i := SkipSpace(s, 0);
    s[i..SkipSpaceBack(s, i, |s|)]
  }

  lemma {:induction false} SkipSpaceAt(s: string, i: nat, j: nat)
    requires i <= j <= |s|
    requires forall k :: i <= k < j ==> IsSpace(s[k])
    requires j == |s| || !IsSpace(s[j])
    ensures SkipSpace(s, i) == j
    decreases j - i
  {
    if i < j {
      SkipSpaceAt(s, i + 1, j);
    }
  }

  lemma {:induction false} SkipSpaceBackAt(s: string, lo: nat, hi: nat, j: nat)
    requires lo <= j <= hi <= |s|
    requires forall k :: j <= k < hi ==> IsSpace(s[k])
    requires j == lo || !IsSpace(s[j - 1])
    ensures SkipSpaceBack(s, lo, hi) == j
    decreases hi - j
  {
    if j < hi {
      SkipSpaceBackAt(s, lo, hi - 1, j);
    }
  }

  /** What `strip` keeps lies between a whitespace prefix and a whitespace suffix. */
  lemma StripIsSlice(s: string)
    ensures exists i, j :: 0 <= i <= j <= |s| && Strip(s) == s[i..j] && AllSpace(s[..i]) && AllSpace(s[j..])
  {
    var i := SkipSpace(s, 0);
    var j := SkipSpaceBack(s, i, |s|);
    assert forall k :: 0 <= k < i ==> s[..i][k] == s[k];
    assert forall k :: 0 <= k < |s| - j ==> s[j..][k] == s[j + k];
    assert Strip(s) == s[i..j] && AllSpace(s[..i]) && AllSpace(s[j..]);
  }

  /** The characters `strip` keeps are those of its argument from `SkipSpace(s, 0)` on. */
  lemma StripKeepsChars(s: string)
    ensures SkipSpace(s, 0) + |Strip(s)| <= |s|
    ensures forall k :: 0 <= k < |Strip(s)| ==> Strip(s)[k] == s[SkipSpace(s, 0) + k]
  {
  }

  /** Whitespace padding on either side is exactly what `strip` removes. */
  lemma StripPadded(a: string, r: string, b: string)
    requires AllSpace(a) && AllSpace(b)
    requires r == [] || (!IsSpace(r[0]) && !IsSpace(r[|r| - 1]))
    ensures Strip(a + r + b) == r
  {
    var s := a + r + b;
    var e := |a| + |r|;
    assert forall k :: 0 <= k < |a| ==> s[k] == a[k];
    assert forall k :: e <= k < |s| ==> s[k] == b[k - e];
    if r == [] {
      SkipSpaceAt(s, 0, |s|);
      SkipSpaceBackAt(s, |s|, |s|, |s|);
    } else {
      assert s[|a|] == r[0] && s[e - 1] == r[|r| - 1];
      SkipSpaceAt(s, 0, |a|);
      SkipSpaceBackAt(s, |a|, |s|, e);
      assert s[|a|..e] == r;
    }
  }

  /** `strip` keeps a word that follows leading whitespace, and whatever comes after it. */
  lemma StripKeepsWord(pad: string, w: string, rest: string)
    requires AllSpace(pad)
    requires w != [] && !IsSpace(w[0]) && !IsSpace(w[|w| - 1])
    ensures w <= Strip(pad + w + rest)
  {
    var s := pad + w + rest;
    var e := |pad| + |w|;
    assert forall k :: 0 <= k < |pad| ==> s[k] == pad[k];
    assert s[|pad|] == w[0] && s[e - 1] == w[|w| - 1];
    SkipSpaceAt(s, 0, |pad|);
    var j := SkipSpaceBack(s, |pad|, |s|);
    assert e <= j;
    assert s[|pad|..e] == w;
  }

  /** A string that starts and ends with a non-space character is left alone. */
  lemma StripUnpadded(s: string)
    requires s == [] || (!IsSpace(s[0]) && !IsSpace(s[|s| - 1]))
    ensures Strip(s) == s
  {
    assert [] + s + [] == s;
    StripPadded([], s, []);
  }

  /** The inverse of `Split`: the pieces glued back with the separator. */
  function Join(parts: seq<string>, sep: char): (s: string)
    requires |parts| >= 1
    decreases |parts|
  {
    if |parts| == 1 then parts[0] else parts[0] + [sep] + Join(parts[1..], sep)
  }

  /** `s.split(sep)`: the maximal separator-free pieces, `[""]` for `""`. */
  function Split(s: string, sep: char): (parts: seq<string>)
    ensures |parts| >= 1
    ensures forall k :: 0 <= k < |parts| ==> sep !in parts[k]
    ensures Join(parts, sep) == s
    decreases |s|
  {
    if |s| == 0 then [""]
    else
      var rest := Split(s[1..], sep);
      if s[0] == sep then
        assert ([""] + rest)[1..] == rest;
        [""] + rest
      else
        var parts := [[s[0]] + rest[0]] + rest[1..];
        assert parts[1..] == rest[1..];
        assert |rest| > 1 ==> Join(rest, sep) == rest[0] + [sep] + Join(rest[1..], sep);
        parts
  }

  lemma {:induction false} SplitSeparatorFree(p: string, sep: char)
    requires sep !in p
    ensures Split(p, sep) == [p]
    decreases |p|
  {
    if p != [] {
      SplitSeparatorFree(p[1..], sep);
      assert [p[0]] + p[1..] == p;
    }
  }

  lemma {:induction false} SplitAfterPiece(p: string, t: string, sep: char)
    requires sep !in p
    ensures Split(p + [sep] + t, sep) == [p] + Split(t, sep)
    decreases |p|
  {
    if p == [] {
      assert (p + [sep] + t)[1..] == t;
    } else {
      assert (p + [sep] + t)[1..] == p[1..] + [sep] + t;
      SplitAfterPiece(p[1..], t, sep);
      assert [p[0]] + p[1..] == p;
    }
  }

  /** `Split` undoes `Join` for separator-free pieces: a round trip. */
  lemma {:induction false} SplitJoin(parts: seq<string>, sep: char)
    requires |parts| >= 1
    requires forall k :: 0 <= k < |parts| ==> sep !in parts[k]
    ensures Split(Join(parts, sep), sep) == parts
    decreases |parts|
  {
    if |parts| == 1 {
      SplitSeparatorFree(parts[0], sep);
    } else {
      SplitJoin(parts[1..], sep);
      SplitAfterPiece(parts[0], Join(parts[1..], sep), sep);
      assert [parts[0]] + parts[1..] == parts;
    }
  }

  /** `pat` occurs in `s` at index `k`. */
  predicate Occurs(s: string, pat: string, k: nat) {
    k + |pat| <= |s| && s[k..k + |pat|] == pat
  }

  /** An occurrence inside a slice is an occurrence in the whole text, shifted. */
  lemma OccursInSlice(s: string, lo: nat, hi: nat, pat: string, k: nat)
    requires lo <= k && k + |pat| <= hi <= |s|
    ensures Occurs(s, pat, k) == Occurs(s[lo..hi], pat, k - lo)
  {
    var t := s[lo..hi];
    forall i | k <= i < k + |pat|
      ensures s[i] == t[i - lo]
    {
    }
    assert s[k..k + |pat|] == t[k - lo..k - lo + |pat|];
  }

  /** `s.find(pat, from)`: the first occurrence of `pat` at or after `from`. */
  function FindFrom(s: string, pat: string, from: nat): (r: Option<nat>)
    ensures r.Some? ==> from <= r.value && Occurs(s, pat, r.value)
    ensures r.Some? ==> forall k: nat :: from <= k < r.value ==> !Occurs(s, pat, k)
    ensures r.None? ==> forall k: nat :: from <= k ==> !Occurs(s, pat, k)
    decreases |s| - from
  {
    if from + |pat| > |s| then None
    else if Occurs(s, pat, from) then Some(from)
    else FindFrom(s, pat, from + 1)
  }

  /** An occurrence with none before it is what `FindFrom` finds. */
  lemma FindFromFirst(s: string, pat: string, from: nat, j: nat)
    requires from <= j && Occurs(s, pat, j)
    requires forall j': nat :: from <= j' < j ==> !Occurs(s, pat, j')
    ensures FindFrom(s, pat, from) == Some(j)
  {
  }
}
