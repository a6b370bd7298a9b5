/**
 * The JavaScript string built-ins the kiosk's search and display logic relies on:
 * `toLowerCase`, `trim`, `includes`, `replace` with a one-character pattern,
 * `replace(/\b\w/g, toUpperCase)` and number-to-string conversion.
 * Case mapping is restricted to ASCII letters.
 */
module Text {
  import opened Wrappers

  predicate IsUpperAscii(c: char) { 'A' <= c <= 'Z' }

  predicate IsLowerAscii(c: char) { 'a' <= c <= 'z' }

  function ToLowerChar(c: char): char {
    if IsUpperAscii(c) then (c as int + 32) as char else c
  }

  function ToUpperChar(c: char): char {
    if IsLowerAscii(c) then (c as int - 32) as char else c
  }

  /** `toLowerCase` on ASCII letters. */
  function ToLower(s: string): (r: string)
    ensures |r| == |s|
    ensures forall i :: 0 <= i < |s| ==> r[i] == ToLowerChar(s[i])
  {
    seq(|s|, i requires 0 <= i < |s| => ToLowerChar(s[i]))
  }

  // ---------------------------------------------------------------------------
  // trim
  // ---------------------------------------------------------------------------

  /** The characters `String.prototype.trim` removes: ECMAScript WhiteSpace and LineTerminator. */
  predicate IsJsWhitespace(c: char) {
    || c == '\t' || c == '\n' || c == '\U{000B}' || c == '\U{000C}' || c == '\r' || c == ' '
    || c == '\U{00A0}' || c == '\U{1680}' || ('\U{2000}' <= c <= '\U{200A}')
    || c == '\U{2028}' || c == '\U{2029}' || c == '\U{202F}' || c == '\U{205F}'
    || c == '\U{3000}' || c == '\U{FEFF}'
  }

  /** A string consisting of whitespace only (the empty string included). */
  predicate IsBlank(s: string) {
    forall i :: 0 <= i < |s| ==> IsJsWhitespace(s[i])
  }

  function TrimStart(s: string): (r: string)
    ensures |r| <= |s| && r == s[|s| - |r|..]
    ensures IsBlank(s[..|s| - |r|])
    ensures |r| > 0 ==> !IsJsWhitespace(r[0])
  {
    if |s| > 0 && IsJsWhitespace(s[0]) then TrimStart(s[1..]) else s
  }

  function TrimEnd(s: string): (r: string)
    ensures |r| <= |s| && r == s[..|r|]
    ensures IsBlank(s[|r|..])
    ensures |r| > 0 ==> !IsJsWhitespace(r[|r| - 1])
  {
    if |s| > 0 && IsJsWhitespace(s[|s| - 1]) then TrimEnd(s[..|s| - 1]) else s
  }

  /** `r` occurs in `s` at offset `k` with only whitespace before and after it. */
  predicate SitsBetweenBlanks(s: string, k: int, r: string) {
    0 <= k <= |s| - |r| && r == s[k..k + |r|] && IsBlank(s[..k]) && IsBlank(s[k + |r|..])
  }

  /**
   * `trim`: drop leading and trailing whitespace. The result is a contiguous piece of `s`
   * with only whitespace on either side of it, and it neither starts nor ends with whitespace.
   */
  function Trim(s: string): (r: string)
    ensures |r| <= |s|
    ensures exists k :: SitsBetweenBlanks(s, k, r)
    ensures |r| > 0 ==> !IsJsWhitespace(r[0]) && !IsJsWhitespace(r[|r| - 1])
  {
    var t := TrimStart(s);
    var r := TrimEnd(t);
    TrimLeavesBlankSides(s, t, r);
    r
  }

  /** A prefix `r` of a suffix `t` of `s`, each cut off at whitespace only, sits in `s` between two blank stretches. */
  lemma TrimLeavesBlankSides(s: string, t: string, r: string)
    requires |t| <= |s| && t == s[|s| - |t|..] && IsBlank(s[..|s| - |t|])
    requires |t| > 0 ==> !IsJsWhitespace(t[0])
    requires |r| <= |t| && r == t[..|r|] && IsBlank(t[|r|..])
    requires |r| > 0 ==> !IsJsWhitespace(r[|r| - 1])
    ensures SitsBetweenBlanks(s, |s| - |t|, r)
    ensures |r| > 0 ==> !IsJsWhitespace(r[0])
  {
    var k := |s| - |t|;
    assert r == s[k..k + |r|];
    assert t[|r|..] == s[k + |r|..];
    assert |r| > 0 ==> r[0] == t[0];
  }

  /** Trimming twice is trimming once. */
  lemma TrimIdempotent(s: string)
    ensures Trim(Trim(s)) == Trim(s)
  {
    var r := Trim(s);
    if |r| > 0 {
      assert TrimStart(r) == r;
      assert TrimEnd(r) == r;
    }
  }

  /** `s.trim()` is the (falsy) empty string exactly when `s` is blank. */
  lemma TrimEmptyIffBlank(s: string)
    ensures Trim(s) == "" <==> IsBlank(s)
  {
    var r := Trim(s);
    var k :| SitsBetweenBlanks(s, k, r);
    if r == "" {
      assert IsBlank(s) by {
        forall i | 0 <= i < |s| ensures IsJsWhitespace(s[i]) {
          if i < k {
            assert s[i] == s[..k][i];
          } else {
            assert s[i] == s[k + |r|..][i - k];
          }
        }
      }
    } else {
      assert !IsBlank(s) by {
        assert r[0] == s[k];
      }
    }
  }

  // ---------------------------------------------------------------------------
  // includes
  // ---------------------------------------------------------------------------

  predicate IsPrefix(p: string, s: string) {
    |p| <= |s| && s[..|p|] == p
  }

  /** `needle` occurs in `hay` at some offset. */
  ghost predicate Occurs(needle: string, hay: string) {
    exists i :: 0 <= i <= |hay| && IsPrefix(needle, hay[i..])
  }

  /** `hay.includes(needle)`: a left-to-right scan for an occurrence. */
  function Includes(hay: string, needle: string): (b: bool)
    ensures b <==> Occurs(needle, hay)
    decreases |hay|
  {
    if IsPrefix(needle, hay) then
      assert hay[0..] == hay;
      true
    else if |hay| == 0 then
      assert forall i :: 0 <= i <= |hay| ==> hay[i..] == hay;
      false
    else
      var b := Includes(hay[1..], needle);
      assert forall i :: 1 <= i <= |hay| ==> hay[1..][i - 1..] == hay[i..];
      if b then
        var i :| 0 <= i <= |hay[1..]| && IsPrefix(needle, hay[1..][i..]);
        assert hay[1..][i..] == hay[i + 1..];
        true
      else
        false
  }

  /** Every string includes itself; in particular a name always matches its own spelling. */
  lemma IncludesSelf(s: string)
    ensures Includes(s, s)
  {
    assert s[0..] == s;
    assert IsPrefix(s, s[0..]);
  }

  // ---------------------------------------------------------------------------
  // replace('-', ' ')
  // ---------------------------------------------------------------------------

  /** `s.replace(from, to)` with a one-character string pattern: only the first occurrence is replaced. */
  function ReplaceFirst(s: string, from: char, to: char): (r: string)
    ensures |r| == |s|
    ensures forall i :: 0 <= i < |s| ==>
      r[i] == if s[i] == from && from !in s[..i] then to else s[i]
  {
    if |s| == 0 then s
    else if s[0] == from then [to] + s[1..]
    else
      var rest := ReplaceFirst(s[1..], from, to);
      assert forall i :: 1 <= i <= |s| ==> s[..i] == [s[0]] + s[1..][..i - 1];
      [s[0]] + rest
  }

  // ---------------------------------------------------------------------------
  // replace(/\b\w/g, (l) => l.toUpperCase())
  // ---------------------------------------------------------------------------

  /** The regular-expression class `\w` (without the `u` flag). */
  predicate IsWordChar(c: char) {
    IsLowerAscii(c) || IsUpperAscii(c) || ('0' <= c <= '9') || c == '_'
  }

  /** `\b\w` matches at `i`: a word character not preceded by one (`prevWord` describes the character before `s`). */
  predicate StartsWord(s: string, i: int, prevWord: bool)
    requires 0 <= i < |s|
  {
    IsWordChar(s[i]) && !(if i == 0 then prevWord else IsWordChar(s[i - 1]))
  }

  function CapitaliseFrom(s: string, prevWord: bool): (r: string)
    ensures |r| == |s|
    ensures forall i :: 0 <= i < |s| ==>
      r[i] == if StartsWord(s, i, prevWord) then ToUpperChar(s[i]) else s[i]
  {
    if |s| == 0 then s
    else
      var c := if !prevWord && IsWordChar(s[0]) then ToUpperChar(s[0]) else s[0];
      var rest := CapitaliseFrom(s[1..], IsWordChar(s[0]));
      assert forall i :: 1 <= i < |s| ==>
        s[1..][i - 1] == s[i] && StartsWord(s[1..], i - 1, IsWordChar(s[0])) == StartsWord(s, i, prevWord);
      [c] + rest
  }

  /** Upper-case the first character of every word. */
  function CapitaliseWords(s: string): (r: string)
    ensures |r| == |s|
    ensures forall i :: 0 <= i < |s| ==>
      r[i] == if StartsWord(s, i, false) then ToUpperChar(s[i]) else s[i]
  {
    CapitaliseFrom(s, false)
  }

  /** Capitalising changes letter case only. */
  lemma CapitaliseWordsKeepsLetters(s: string)
    ensures ToLower(CapitaliseWords(s)) == ToLower(s)
  {
    var r := CapitaliseWords(s);
    forall i | 0 <= i < |s|
      ensures ToLower(r)[i] == ToLower(s)[i]
    {
      assert ToLowerChar(ToUpperChar(s[i])) == ToLowerChar(s[i]);
    }
  }

  /** Capitalising twice is capitalising once: word boundaries survive upper-casing. */
  lemma CapitaliseWordsIdempotent(s: string)
    ensures CapitaliseWords(CapitaliseWords(s)) == CapitaliseWords(s)
  {
    var r := CapitaliseWords(s);
    var rr := CapitaliseWords(r);
    forall i | 0 <= i < |s|
      ensures rr[i] == r[i]
    {
      assert IsWordChar(r[i]) == IsWordChar(s[i]);
      if i > 0 {
        assert IsWordChar(r[i - 1]) == IsWordChar(s[i - 1]);
      }
    }
  }

  /** After capitalising, no word begins with a lower-case letter. */
  lemma CapitaliseWordsNoLowerWordStart(s: string, i: int)
    requires 0 <= i < |s|
    requires StartsWord(CapitaliseWords(s), i, false)
    ensures !IsLowerAscii(CapitaliseWords(s)[i])
  {
    var r := CapitaliseWords(s);
    assert IsWordChar(r[i]) == IsWordChar(s[i]);
    if i > 0 {
      assert IsWordChar(r[i - 1]) == IsWordChar(s[i - 1]);
    }
  }

  // ---------------------------------------------------------------------------
  // number to string (template literal interpolation of an integer)
  // ---------------------------------------------------------------------------

  function DigitChar(d: int): (c: char)
    requires 0 <= d < 10
  {
    "0123456789"[d]
  }

  function DigitValue(c: char): int {
    if '0' <= c <= '9' then c as int - '0' as int else 0
  }

  /** Decimal digits of `n`, most significant first, without leading zeros. */
  function NatToString(n: nat): (r: string)
    ensures |r| > 0
    ensures forall i :: 0 <= i < |r| ==> '0' <= r[i] <= '9'
    ensures |r| > 1 ==> r[0] != '0'
  {
    if n < 10 then [DigitChar(n)] else NatToString(n / 10) + [DigitChar(n % 10)]
  }

  /** The value a string of decimal digits denotes (a reference definition, read left to right). */
  function DecimalValue(s: string): int {
    if |s| == 0 then 0 else DecimalValue(s[..|s| - 1]) * 10 + DigitValue(s[|s| - 1])
  }

  /** Printing a natural number and reading it back yields the number. */
  lemma {:induction false} NatToStringRoundTrip(n: nat)
    ensures DecimalValue(NatToString(n)) == n
  {
    if n >= 10 {
      var s := NatToString(n);
      assert s[..|s| - 1] == NatToString(n / 10);
      NatToStringRoundTrip(n / 10);
    }
  }

  /** `${i}` for an integer: a leading '-' for negatives. */
  function IntToString(i: int): (r: string)
    ensures |r| > 0
    ensures r[0] == '-' <==> i < 0
    ensures i >= 0 ==> r == NatToString(i)
    ensures i < 0 ==> r[1..] == NatToString(-i)
    ensures i < 0 ==> DecimalValue(r[1..]) == -i
    ensures i >= 0 ==> DecimalValue(r) == i
  {
    if i < 0 then
      NatToStringRoundTrip(-i);
      assert ("-" + NatToString(-i))[1..] == NatToString(-i);
      "-" + NatToString(-i)
    else
      NatToStringRoundTrip(i);
      NatToString(i)
  }

  predicate AllDigits(s: string) {
    forall i :: 0 <= i < |s| ==> '0' <= s[i] <= '9'
  }

  /** A numeral as `String(n)` prints a natural number: digits only, no leading zero except "0" itself. */
  predicate Canonical(s: string) {
    |s| > 0 && AllDigits(s) && (|s| == 1 || s[0] != '0')
  }

  /** A canonical numeral is exactly what `NatToString` prints for its value. */
  lemma {:induction false} CanonicalIsNatToString(s: string)
    requires Canonical(s)
    ensures DecimalValue(s) >= 0
    ensures |s| > 1 ==> DecimalValue(s) >= 10
    ensures s == NatToString(DecimalValue(s))
  {
    var last := s[|s| - 1];
    var d := DigitValue(last);
    assert 0 <= d < 10 && DigitChar(d) == last;
    if |s| == 1 {
      assert s[..0] == [];
      assert DecimalValue(s) == d;
      assert s == [DigitChar(d)];
    } else {
      var p := s[..|s| - 1];
      assert Canonical(p) by {
        assert p[0] == s[0];
        assert forall i :: 0 <= i < |p| ==> p[i] == s[i];
      }
      CanonicalIsNatToString(p);
      var n := DecimalValue(p) * 10 + d;
      assert DecimalValue(p) >= 1 by {
        if |p| == 1 {
          assert p[..0] == [];
          assert DecimalValue(p) == DigitValue(p[0]);
        }
      }
      assert DecimalValue(s) == n;
      assert n / 10 == DecimalValue(p) && n % 10 == d;
      assert NatToString(n) == NatToString(DecimalValue(p)) + [DigitChar(d)];
      assert s == p + [last];
    }
  }

  /**
   * Reads an integer numeral as `String(i)` prints it: a canonical numeral, or `-` followed by a
   * canonical numeral other than "0". Leading zeros and "-0" are refused, so whatever it accepts
   * is exactly the printed form of the number it returns.
   */
  function SignedValue(s: string): (r: Option<int>)
    ensures r.Some? ==> s == IntToString(r.value)
  {
    if |s| > 1 && s[0] == '-' && Canonical(s[1..]) && s[1..] != "0" then
      NegatedNumeral(s[1..]);
      assert s == "-" + s[1..];
      Some(-DecimalValue(s[1..]))
    else if Canonical(s) then
      CanonicalIsNatToString(s);
      Some(DecimalValue(s))
    else None
  }

  /** `-` before a canonical numeral other than "0" is how `IntToString` prints the negated value. */
  lemma NegatedNumeral(t: string)
    requires Canonical(t) && t != "0"
    ensures DecimalValue(t) > 0 && "-" + t == IntToString(-DecimalValue(t))
  {
    CanonicalIsNatToString(t);
    assert NatToString(0) == "0";
  }

  /** Reading back what `IntToString` printed yields the number. */
  lemma IntToStringRoundTrip(i: int)
    ensures SignedValue(IntToString(i)) == Some(i)
  {
    var r := IntToString(i);
    if i < 0 {
      assert Canonical(r[1..]);
      assert DecimalValue("0") == 0;
    } else {
      assert r[0] != '-';
    }
  }




}
