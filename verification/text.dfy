/** The few JavaScript string operations the components rely on: decimal
    rendering of a non-negative integer (`Number.prototype.toString`), reading a
    run of decimal digits (`Number(...)` on such a run), `padStart` with a
    one-character fill, and `String.prototype.trim`. */
module Text {

  predicate IsDigit(c: char) {
    '0' <= c <= '9'
  }

  predicate AllDigits(s: string) {
    forall i :: 0 <= i < |s| ==> IsDigit(s[i])
  }

  function DigitValue(c: char): (d: nat)
    requires IsDigit(c)
    ensures d < 10
  {
    c as int - '0' as int
  }

  function DigitChar(d: nat): (c: char)
    requires d < 10
    ensures IsDigit(c) && DigitValue(c) == d
  {
    ('0' as int + d) as char
  }

  /** The number a run of decimal digits denotes; leading zeros are allowed. */
  function DigitsValue(s: string): nat
    requires AllDigits(s)
  {
    if |s| == 0 then 0 else 10 * DigitsValue(s[..|s| - 1]) + DigitValue(s[|s| - 1])
  }

  /** The canonical decimal text of `n`: at least one digit, no leading zero. */
  predicate Canonical(s: string) {
    |s| >= 1 && AllDigits(s) && (|s| > 1 ==> s[0] != '0')
  }

  /** `n.toString()` for a non-negative integer `n`. */
  function DecimalString(n: nat): (s: string)
    ensures Canonical(s)
    ensures DigitsValue(s) == n
    ensures n < 10 <==> |s| == 1
  {
    if n < 10 then [DigitChar(n)]
    else
      var s := DecimalString(n / 10) + [DigitChar(n % 10)];
      assert s[..|s| - 1] == DecimalString(n / 10);
      s
  }

  /** The other half of the round trip: canonical digit text is the decimal text of its value. */
  lemma {:induction false} DecimalStringOfValue(s: string)
    requires Canonical(s)
    ensures DecimalString(DigitsValue(s)) == s
    decreases |s|
  {
    if |s| > 1 {
      var init := s[..|s| - 1];
      assert Canonical(init);
      DecimalStringOfValue(init);
      if DigitsValue(init) == 0 {
        // a canonical text of two or more digits cannot start with zero
        LeadingDigitBound(init);
        assert false;
      }
      assert DigitsValue(s) / 10 == DigitsValue(init);
      assert s == init + [s[|s| - 1]];
    }
  }

  /** A canonical text of at least one digit whose first digit is not zero is worth at least one. */
  lemma {:induction false} LeadingDigitBound(s: string)
    requires AllDigits(s) && |s| >= 1 && s[0] != '0'
    ensures DigitsValue(s) >= 1
    decreases |s|
  {
    if |s| > 1 {
      LeadingDigitBound(s[..|s| - 1]);
    }
  }

  /** Leading zeros do not change the value of a digit run. */
  lemma {:induction false} LeadingZeroValue(s: string)
    requires AllDigits(s)
    ensures AllDigits("0" + s) && DigitsValue("0" + s) == DigitsValue(s)
    decreases |s|
  {
    if |s| > 0 {
      var t := "0" + s;
      assert t[..|t| - 1] == "0" + s[..|s| - 1];
      LeadingZeroValue(s[..|s| - 1]);
    }
  }

  function Repeat(c: char, n: nat): (r: string)
    ensures |r| == n && forall i :: 0 <= i < n ==> r[i] == c
  {
    if n == 0 then [] else [c] + Repeat(c, n - 1)
  }

  /** `s.padStart(width, fill)` for a one-character `fill`. */
  function PadStart(s: string, width: nat, fill: char): (r: string)
    ensures |r| == if |s| >= width then |s| else width
    ensures r[|r| - |s|..] == s
    ensures forall i :: 0 <= i < |r| - |s| ==> r[i] == fill
  {
    if |s| >= width then s else Repeat(fill, width - |s|) + s
  }

  /** `m.toString().padStart(2, '0')`: for `m < 100` this is exactly two digits,
      the tens digit first, worth `m`. */
  function TwoDigits(m: nat): (r: string)
    requires m < 100
    ensures |r| == 2 && AllDigits(r) && DigitsValue(r) == m
    ensures r == [DigitChar(m / 10), DigitChar(m % 10)]
  {
    var r := PadStart(DecimalString(m), 2, '0');
    if m < 10 then
      assert r == "0" + DecimalString(m);
      LeadingZeroValue(DecimalString(m));
      r
    else
      assert DecimalString(m) == DecimalString(m / 10) + [DigitChar(m % 10)];
      r
  }

  /** The characters `String.prototype.trim` removes: the ECMAScript WhiteSpace
      and LineTerminator code points. */
  predicate IsJsWhitespace(c: char) {
    var n := c as int;
    n == 0x09 || n == 0x0A || n == 0x0B || n == 0x0C || n == 0x0D || n == 0x20
    || n == 0xA0 || n == 0x1680 || (0x2000 <= n <= 0x200A) || n == 0x2028 || n == 0x2029
    || n == 0x202F || n == 0x205F || n == 0x3000 || n == 0xFEFF
  }

  predicate AllWhitespace(s: string) {
    forall i :: 0 <= i < |s| ==> IsJsWhitespace(s[i])
  }

  /** Where `trimStart` cuts: the first non-whitespace position at or after `from`. */
  function TrimStartIndex(s: string, from: nat): (a: nat)
    requires from <= |s|
    ensures from <= a <= |s|
    ensures forall j :: from <= j < a ==> IsJsWhitespace(s[j])
    ensures a < |s| ==> !IsJsWhitespace(s[a])
    decreases |s| - from
  {
    if from < |s| && IsJsWhitespace(s[from]) then TrimStartIndex(s, from + 1) else from
  }

  /** Where `trimEnd` cuts: the end of the last non-whitespace character in
      `s[lo..upto]`, or `lo` when there is none. */
  function TrimEndIndex(s: string, lo: nat, upto: nat): (b: nat)
    requires lo <= upto <= |s|
    ensures lo <= b <= upto
    ensures forall j :: b <= j < upto ==> IsJsWhitespace(s[j])
    ensures b > lo ==> !IsJsWhitespace(s[b - 1])
    decreases upto
  {
    if upto > lo && IsJsWhitespace(s[upto - 1]) then TrimEndIndex(s, lo, upto - 1) else upto
  }

  /** The span `s.trim()` keeps: whitespace before it, whitespace after it, and
      a non-whitespace character at each end of it when it is not empty. */
  function TrimSpan(s: string): (span: (nat, nat))
    ensures span.0 <= span.1 <= |s|
    ensures forall j :: 0 <= j < span.0 ==> IsJsWhitespace(s[j])
    ensures forall j :: span.1 <= j < |s| ==> IsJsWhitespace(s[j])
    ensures span.0 < span.1 ==> !IsJsWhitespace(s[span.0]) && !IsJsWhitespace(s[span.1 - 1])
  {
    var a := TrimStartIndex(s, 0);
    (a, TrimEndIndex(s, a, |s|))
  }

  /** `s.trim()`. */
  function Trim(s: string): (r: string)
    ensures |r| <= |s|
    ensures |r| > 0 ==> !IsJsWhitespace(r[0]) && !IsJsWhitespace(r[|r| - 1])
  {
    var span := TrimSpan(s);
    s[span.0..span.1]
  }

  /** Any cut of `s` into whitespace, a middle that neither starts nor ends with
      whitespace, and whitespace has the trimmed string as its middle. */
  lemma TrimUnique(s: string, a: nat, b: nat)
    requires a <= b <= |s|
    requires forall j :: 0 <= j < a ==> IsJsWhitespace(s[j])
    requires forall j :: b <= j < |s| ==> IsJsWhitespace(s[j])
    requires a < b ==> !IsJsWhitespace(s[a]) && !IsJsWhitespace(s[b - 1])
    ensures s[a..b] == Trim(s)
  {
    var span := TrimSpan(s);
    if a < b {
      assert !IsJsWhitespace(s[a]) && !IsJsWhitespace(s[b - 1]);
      assert a < span.1 && span.0 < b;
      assert !IsJsWhitespace(s[span.0]) && !IsJsWhitespace(s[span.1 - 1]);
    } else {
      assert AllWhitespace(s);
      TrimEmptyIffAllWhitespace(s);
    }
  }

  /** `!s.trim()` in a condition: the string is empty after trimming, which
      happens exactly when every character of it is whitespace. */
  predicate Blank(s: string)
    ensures Blank(s) <==> AllWhitespace(s)
  {
    TrimEmptyIffAllWhitespace(s);
    Trim(s) == []
  }

  /** Trimming leaves nothing exactly when every character is whitespace. */
  lemma TrimEmptyIffAllWhitespace(s: string)
    ensures Trim(s) == [] <==> AllWhitespace(s)
  {
    var span := TrimSpan(s);
    if !AllWhitespace(s) {
      var j :| 0 <= j < |s| && !IsJsWhitespace(s[j]);
      assert span.0 <= j < span.1;
    }
  }

  /** Trimming is idempotent: a trimmed string is already trimmed. */
  lemma TrimIdempotent(s: string)
    ensures Trim(Trim(s)) == Trim(s)
  {
    var r := Trim(s);
    TrimOfTrimmed(r);
  }

  /** A string that neither starts nor ends with whitespace is its own trim. */
  lemma TrimOfTrimmed(r: string)
    requires |r| > 0 ==> !IsJsWhitespace(r[0]) && !IsJsWhitespace(r[|r| - 1])
    ensures Trim(r) == r
  {
    assert TrimStartIndex(r, 0) == 0;
  }
}
