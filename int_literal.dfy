/**
 Python's `int(text)` in base 10, as the parser applies it to the count of a
 file header and to the tokens of a mutation line: whitespace around the
 literal is ignored, an optional `+` or `-` sign precedes one or more ASCII
 digits (leading zeros allowed), and anything else is a `ValueError` (here
 `None`). The whitespace `int()` ignores is narrower than that of
 `str.strip()`: the ASCII information separators U+001C to U+001F are not
 part of it.
 */
module IntLiteral {
  import opened Wrappers
  import opened Strings

  predicate IsDigit(c: char) {
    '0' <= c <= '9'
  }

  predicate AllDigits(s: string) {
    forall k :: 0 <= k < |s| ==> IsDigit(s[k])
  }

  /** A non-empty string of decimal digits. */
  predicate IsDecimal(s: string) {
    |s| > 0 && AllDigits(s)
  }

  /** The value of a digit string, most significant digit first. */
  function DigitsValue(s: string): nat
    requires AllDigits(s)
    decreases |s|
  {
    if s == [] then 0
    else DigitsValue(s[..|s| - 1]) * 10 + (s[|s| - 1] as int - '0' as int)
  }

  /**
   A character `int()` skips around a literal: the ASCII space, tab, line
   feed, vertical tab, form feed and carriage return, and the non-ASCII
   characters that `str.isspace()` accepts.
   */
  predicate IsIntSpace(c: char) {
    IsSpace(c) && !('\U{1C}' <= c <= '\U{1F}')
  }

  predicate AllIntSpace(s: string) {
    forall k :: 0 <= k < |s| ==> IsIntSpace(s[k])
  }

  /** The index of the first character at or after `i` that `int()` does not skip, or `|s|`. */
  function SkipIntSpace(s: string, i: nat): (j: nat)
    requires i <= |s|
    ensures i <= j <= |s|
    ensures forall k :: i <= k < j ==> IsIntSpace(s[k])
    ensures j == |s| || !IsIntSpace(s[j])
    decreases |s| - i
  {
    if i < |s| && IsIntSpace(s[i]) then SkipIntSpace(s, i + 1) else i
  }

  /** The index just past the last character of `s[lo..hi]` that `int()` does not skip, or `lo`. */
  function SkipIntSpaceBack(s: string, lo: nat, hi: nat): (j: nat)
    requires lo <= hi <= |s|
    ensures lo <= j <= hi
    ensures forall k :: j <= k < hi ==> IsIntSpace(s[k])
    ensures j == lo || !IsIntSpace(s[j - 1])
    decreases hi - lo
  {
    if lo < hi && IsIntSpace(s[hi - 1]) then SkipIntSpaceBack(s, lo, hi - 1) else hi
  }

  /** The text `int()` reads: `text` without the whitespace it skips at either end. */
  function IntStrip(text: string): (r: string)
    ensures r == [] || (!IsIntSpace(r[0]) && !IsIntSpace(r[|r| - 1]))
  {
    var i := SkipIntSpace(text, 0);
    text[i..SkipIntSpaceBack(text, i, |text|)]
  }

  lemma {:induction false} SkipIntSpaceAt(s: string, i: nat, j: nat)
    requires i <= j <= |s|
    requires forall k :: i <= k < j ==> IsIntSpace(s[k])
    requires j == |s| || !IsIntSpace(s[j])
    ensures SkipIntSpace(s, i) == j
    decreases j - i
  {
    if i < j {
      SkipIntSpaceAt(s, i + 1, j);
    }
  }

  lemma {:induction false} SkipIntSpaceBackAt(s: string, lo: nat, hi: nat, j: nat)
    requires lo <= j <= hi <= |s|
    requires forall k :: j <= k < hi ==> IsIntSpace(s[k])
    requires j == lo || !IsIntSpace(s[j - 1])
    ensures SkipIntSpaceBack(s, lo, hi) == j
    decreases hi - j
  {
    if j < hi {
      SkipIntSpaceBackAt(s, lo, hi - 1, j);
    }
  }

  /** Padding that `int()` skips on either side is exactly what it removes. */
  lemma IntStripPadded(a: string, w: string, b: string)
    requires AllIntSpace(a) && AllIntSpace(b)
    requires w == [] || (!IsIntSpace(w[0]) && !IsIntSpace(w[|w| - 1]))
    ensures IntStrip(a + w + b) == w
  {
    var s := a + w + b;
    var e := |a| + |w|;
    assert forall k :: 0 <= k < |a| ==> s[k] == a[k];
    assert forall k :: e <= k < |s| ==> s[k] == b[k - e];
    if w == [] {
      SkipIntSpaceAt(s, 0, |s|);
      SkipIntSpaceBackAt(s, |s|, |s|, |s|);
    } else {
      assert s[|a|] == w[0] && s[e - 1] == w[|w| - 1];
      SkipIntSpaceAt(s, 0, |a|);
      SkipIntSpaceBackAt(s, |a|, |s|, e);
      assert s[|a|..e] == w;
    }
  }

  /** The characters `int()` reads are those of its argument from `SkipIntSpace(text, 0)` on. */
  lemma IntStripKeepsChars(text: string)
    ensures SkipIntSpace(text, 0) + |IntStrip(text)| <= |text|
    ensures forall k :: 0 <= k < |IntStrip(text)| ==> IntStrip(text)[k] == text[SkipIntSpace(text, 0) + k]
  {
  }

  /** The literals `int()` accepts: an optional sign and one or more digits. */
  predicate IsIntLiteral(t: string) {
    IsDecimal(t) || (|t| > 0 && (t[0] == '+' || t[0] == '-') && IsDecimal(t[1..]))
  }

  /** `int(text)`, or `None` where Python raises `ValueError`. */
  function ParseInt(text: string): (r: Option<int>)
    ensures r.Some? <==> IsIntLiteral(IntStrip(text))
  {
    var t := IntStrip(text);
    if |t| > 0 && (t[0] == '+' || t[0] == '-') then
      if IsDecimal(t[1..]) then
        var v: int := DigitsValue(t[1..]);
        Some(if t[0] == '-' then -v else v)
      else None
    else if IsDecimal(t) then Some(DigitsValue(t) as int)
    else None
  }

  /** The shortest decimal spelling of `n` (what `str(n)` prints). */
  function ShowNat(n: nat): (r: string)
    ensures IsDecimal(r)
    decreases n
  {
    var d := "0123456789"[n % 10];
    if n < 10 then [d] else ShowNat(n / 10) + [d]
  }

  /** Reading a spelled number back gives the number. */
  lemma {:induction false} DigitsValueShowNat(n: nat)
    ensures DigitsValue(ShowNat(n)) == n
    decreases n
  {
    if n >= 10 {
      var s := ShowNat(n);
      assert s[..|s| - 1] == ShowNat(n / 10);
      DigitsValueShowNat(n / 10);
    }
  }

  lemma DigitsAreNotSpace(s: string)
    requires IsDecimal(s)
    ensures !IsSpace(s[0]) && !IsSpace(s[|s| - 1])
    ensures !IsIntSpace(s[0]) && !IsIntSpace(s[|s| - 1])
  {
    assert IsDigit(s[0]) && IsDigit(s[|s| - 1]);
  }

  lemma ParseIntUnsigned(text: string, t: string)
    requires IntStrip(text) == t && IsDecimal(t)
    ensures ParseInt(text) == Some(DigitsValue(t) as int)
  {
    assert IsDigit(t[0]);
  }

  lemma ParseIntSigned(text: string, sign: char, t: string)
    requires sign == '+' || sign == '-'
    requires IntStrip(text) == [sign] + t && IsDecimal(t)
    ensures ParseInt(text) == Some(if sign == '-' then -(DigitsValue(t) as int) else DigitsValue(t) as int)
  {
    assert ([sign] + t)[1..] == t;
  }

  /** `int` reads back `str(n)`, with any sign and any padding that `int` skips. */
  lemma ParseIntShowNat(n: nat, pad: string, pad': string)
    requires AllIntSpace(pad) && AllIntSpace(pad')
    ensures ParseInt(pad + ShowNat(n) + pad') == Some(n as int)
    ensures ParseInt(pad + "+" + ShowNat(n) + pad') == Some(n as int)
    ensures ParseInt(pad + "-" + ShowNat(n) + pad') == Some(-(n as int))
  {
    var s := ShowNat(n);
    DigitsValueShowNat(n);
    DigitsAreNotSpace(s);
    IntStripPadded(pad, s, pad');
    ParseIntUnsigned(pad + s + pad', s);
    SignedShowNat(n, '+', pad, pad');
    SignedShowNat(n, '-', pad, pad');
  }

  /** `str(n)` is already stripped and `int` reads it back. */
  lemma ShowNatReadsBack(n: nat)
    ensures Strip(ShowNat(n)) == ShowNat(n) && ParseInt(ShowNat(n)) == Some(n as int)
  {
    var s := ShowNat(n);
    DigitsValueShowNat(n);
    DigitsAreNotSpace(s);
    StripUnpadded(s);
    assert [] + s + [] == s;
    IntStripPadded([], s, []);
    ParseIntUnsigned(s, s);
  }

  lemma SignedShowNat(n: nat, sign: char, pad: string, pad': string)
    requires sign == '+' || sign == '-'
    requires AllIntSpace(pad) && AllIntSpace(pad')
    ensures ParseInt(pad + [sign] + ShowNat(n) + pad') == Some(if sign == '-' then -(n as int) else n as int)
  {
    var s := ShowNat(n);
    var signed := [sign] + s;
    var text := pad + signed + pad';
    assert pad + [sign] + s + pad' == text;
    StripSigned(n, sign, pad, pad');
    ParseIntSignedShowNat(n, sign, text);
  }

  lemma ParseIntSignedShowNat(n: nat, sign: char, text: string)
    requires sign == '+' || sign == '-'
    requires IntStrip(text) == [sign] + ShowNat(n)
    ensures ParseInt(text) == Some(if sign == '-' then -(n as int) else n as int)
  {
    DigitsValueShowNat(n);
    ParseIntSigned(text, sign, ShowNat(n));
  }

  lemma StripSigned(n: nat, sign: char, pad: string, pad': string)
    requires sign == '+' || sign == '-'
    requires AllIntSpace(pad) && AllIntSpace(pad')
    ensures IntStrip(pad + ([sign] + ShowNat(n)) + pad') == [sign] + ShowNat(n)
  {
    var s := ShowNat(n);
    DigitsAreNotSpace(s);
    var signed := [sign] + s;
    assert signed[|signed| - 1] == s[|s| - 1];
    IntStripPadded(pad, signed, pad');
  }

  /** Text without any digit is never an integer literal. */
  lemma NoDigitNoInt(text: string)
    requires forall k :: 0 <= k < |text| ==> !IsDigit(text[k])
    ensures ParseInt(text) == None
  {
    var t := IntStrip(text);
    IntStripKeepsChars(text);
    if |t| > 0 {
      assert !IsDigit(t[0]);
      if |t| > 1 {
        assert !IsDigit(t[1..][0]);
      }
    }
  }

  /**
   An information separator (U+001C to U+001F) before a literal is removed
   by `str.strip()` but makes `int()` raise `ValueError`.
   */
  lemma SeparatorBeforeLiteralFails(c: char, w: string)
    requires '\U{1C}' <= c <= '\U{1F}'
    ensures IsSpace(c)
    ensures ParseInt([c] + w) == None
  {
    var s := [c] + w;
    SkipIntSpaceAt(s, 0, 0);
    var t := IntStrip(s);
    assert |t| > 0 && t[0] == c;
  }
}
