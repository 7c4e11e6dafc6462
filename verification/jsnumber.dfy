/**
 The JavaScript number/string conversions the session code goes through:
 `Number.prototype.toString()` on integers (timestamps written to the store,
 clock fields), `String.prototype.padStart`, and the global `parseInt`
 (timestamps read back from the store). Numbers are unbounded integers here.
 */
module JsNumber {
  import opened Wrappers

  predicate IsDecimalDigit(c: char) {
    '0' <= c <= '9'
  }

  predicate AllDecimalDigits(s: string) {
    forall i | 0 <= i < |s| :: IsDecimalDigit(s[i])
  }

  function DigitChar(d: nat): (c: char)
    requires d < 10
    ensures IsDecimalDigit(c)
    ensures c as int - '0' as int == d
  {
    ('0' as int + d) as char
  }

  /** The value of a digit in radix up to 36: 0-9, then a-z / A-Z as 10-35;
      36 for a character that is a digit in no radix. */
  function DigitValue(c: char): (v: nat)
    ensures v <= 36
    ensures IsDecimalDigit(c) ==> v == c as int - '0' as int
  {
    if IsDecimalDigit(c) then c as int - '0' as int
    else if 'a' <= c <= 'z' then c as int - 'a' as int + 10
    else if 'A' <= c <= 'Z' then c as int - 'A' as int + 10
    else 36
  }

  predicate IsRadixDigit(c: char, radix: nat) {
    DigitValue(c) < radix
  }

  /** Decimal rendering of a non-negative integer, most significant digit first. */
  function NatToString(n: nat): (s: string)
    ensures 1 <= |s|
    ensures AllDecimalDigits(s)
    ensures |s| > 1 ==> s[0] != '0'
    ensures n < 10 <==> |s| == 1
    decreases n
  {
    if n < 10 then [DigitChar(n)]
    else NatToString(n / 10) + [DigitChar(n % 10)]
  }

  /** `Number.prototype.toString()` on an integer: a leading '-' for negatives. */
  function IntToString(i: int): string {
    if i >= 0 then NatToString(i) else "-" + NatToString(-i)
  }

  /** The value of a string of radix digits, most significant first. */
  function DigitsValue(s: string, radix: nat): nat
    requires forall i | 0 <= i < |s| :: IsRadixDigit(s[i], radix)
  {
    if |s| == 0 then 0
    else
      AppendDigit(DigitsValue(s[..|s| - 1], radix), radix, DigitValue(s[|s| - 1]))
  }

  /** Positional step: `high` shifted one place in `radix`, then `digit` added. */
  function AppendDigit(high: nat, radix: nat, digit: nat): nat {
    high * radix + digit
  }

  /** Reading a rendered number back gives the number. */
  lemma {:induction false} DigitsValueOfNatToString(n: nat)
    ensures DigitsValue(NatToString(n), 10) == n
    decreases n
  {
    var s := NatToString(n);
    if n >= 10 {
      DigitsValueOfNatToString(n / 10);
      assert s[..|s| - 1] == NatToString(n / 10);
    }
  }

  /** Leading zeros do not change a digit string's value. */
  lemma {:induction false} DigitsValueLeadingZero(s: string)
    requires AllDecimalDigits(s)
    ensures DigitsValue("0" + s, 10) == DigitsValue(s, 10)
    decreases |s|
  {
    if |s| > 0 {
      var t := "0" + s;
      assert t[..|t| - 1] == "0" + s[..|s| - 1];
      DigitsValueLeadingZero(s[..|s| - 1]);
    }
  }

  /** `String.prototype.padStart(len, fill)` with a one-character fill. */
  function PadStart(s: string, len: nat, fill: char): (r: string)
    ensures |r| == if |s| >= len then |s| else len
    ensures r[|r| - |s|..] == s
    ensures forall i | 0 <= i < |r| - |s| :: r[i] == fill
    decreases len - |s|
  {
    if |s| >= len then s else PadStart([fill] + s, len, fill)
  }

  /** The characters JavaScript's `parseInt` skips before the number. */
  predicate IsJsWhitespace(c: char) {
    || c == ' ' || c == '\t' || c == '\n' || c == '\r' || c == '\U{000B}' || c == '\U{000C}'
    || c == '\U{00A0}' || c == '\U{FEFF}' || c == '\U{2028}' || c == '\U{2029}'
  }

  function TrimStart(s: string): (r: string)
    ensures |r| <= |s| && r == s[|s| - |r|..]
    ensures |r| > 0 ==> !IsJsWhitespace(r[0])
    ensures forall i | 0 <= i < |s| - |r| :: IsJsWhitespace(s[i])
  {
    if |s| > 0 && IsJsWhitespace(s[0]) then
      var r := TrimStart(s[1..]);
      assert s[1..][|s| - 1 - |r|..] == s[|s| - |r|..];
      assert forall i | 1 <= i < |s| - |r| :: s[i] == s[1..][i - 1];
      r
    else s
  }

  /** The longest prefix of `s` made of radix digits. */
  function DigitPrefix(s: string, radix: nat): (r: string)
    ensures |r| <= |s| && r == s[..|r|]
    ensures forall i | 0 <= i < |r| :: IsRadixDigit(r[i], radix)
    ensures |r| < |s| ==> !IsRadixDigit(s[|r|], radix)
  {
    if |s| > 0 && IsRadixDigit(s[0], radix) then [s[0]] + DigitPrefix(s[1..], radix) else []
  }

  /**
   The global `parseInt(s)` with no radix argument: skip leading whitespace,
   take an optional sign, then read the magnitude. No digits at all gives
   NaN, here None.
   */
  function ParseInt(s: string): (r: Option<int>)
    ensures TrimStart(s) == [] ==> r.None?
    ensures r.Some? && r.value < 0 ==> TrimStart(s)[0] == '-'
  {
    ParseSigned(TrimStart(s))
  }

  /** `parseInt` after the blanks: an optional sign, then the magnitude. */
  function ParseSigned(t: string): Option<int> {
    var negative := |t| > 0 && t[0] == '-';
    var u := if |t| > 0 && (t[0] == '-' || t[0] == '+') then t[1..] else t;
    var magnitude := ParseMagnitude(u);
    if magnitude.None? then None
    else Some(if negative then -(magnitude.value as int) else magnitude.value as int)
  }

  /** The unsigned part of `parseInt`: radix 16 after a "0x"/"0X" prefix,
      otherwise 10, and the longest run of digits in that radix. */
  function ParseMagnitude(u: string): Option<nat> {
    var hex := |u| >= 2 && u[0] == '0' && (u[1] == 'x' || u[1] == 'X');
    var radix := if hex then 16 else 10;
    var digits := DigitPrefix(if hex then u[2..] else u, radix);
    if |digits| == 0 then None else Some(DigitsValue(digits, radix))
  }

  /** A decimal numeral with no superfluous leading zero is its own magnitude. */
  lemma MagnitudeOfNumeral(m: string)
    requires 0 < |m| && AllDecimalDigits(m)
    requires |m| > 1 ==> m[0] != '0'
    ensures ParseMagnitude(m) == Some(DigitsValue(m, 10))
  {
    assert |m| >= 2 ==> IsDecimalDigit(m[1]);
    assert DigitPrefix(m, 10) == m;
  }

  /** A decimal numeral with no superfluous leading zero parses to its value. */
  lemma ParseIntOfNumeral(s: string)
    requires 0 < |s| && AllDecimalDigits(s)
    requires |s| > 1 ==> s[0] != '0'
    ensures ParseInt(s) == Some(DigitsValue(s, 10) as int)
  {
    TrimStartOfNonBlank(s);
    MagnitudeOfNumeral(s);
    SignedOfUnsigned(s, DigitsValue(s, 10));
  }

  /** A '-' in front of such a numeral parses to the negated value. */
  lemma ParseIntOfNegativeNumeral(m: string, v: nat)
    requires 0 < |m| && AllDecimalDigits(m)
    requires |m| > 1 ==> m[0] != '0'
    requires DigitsValue(m, 10) == v
    ensures ("-" + m)[0] == '-'
    ensures ParseInt("-" + m) == Some(-(v as int))
  {
    var s := "-" + m;
    TrimStartOfNonBlank(s);
    assert s[1..] == m;
    MagnitudeOfNumeral(m);
    SignedOfMinus(s, v);
  }

  /** Text that starts with neither a blank nor a sign is read whole as the magnitude. */
  lemma SignedOfUnsigned(t: string, v: nat)
    requires |t| > 0 && IsDecimalDigit(t[0])
    requires ParseMagnitude(t) == Some(v)
    ensures ParseSigned(t) == Some(v as int)
  {
  }

  lemma TrimStartOfNonBlank(s: string)
    requires |s| > 0 && !IsJsWhitespace(s[0])
    ensures TrimStart(s) == s
  {
  }

  /** A leading '-' negates the magnitude after it. */
  lemma SignedOfMinus(t: string, v: nat)
    requires |t| > 0 && t[0] == '-'
    requires ParseMagnitude(t[1..]) == Some(v)
    ensures ParseSigned(t) == Some(-(v as int))
  {
  }

  /** `parseInt(i.toString()) == i` for every integer, and the text starts
      with '-' exactly for a negative. */
  lemma IntToStringReadsBack(i: int)
    ensures var s := IntToString(i);
            && ((|s| > 0 && s[0] == '-') <==> i < 0)
            && ParseInt(s) == Some(i)
  {
    if i >= 0 {
      NonNegativeReadsBack(i);
    } else {
      NegativeReadsBack(i);
    }
  }

  lemma NonNegativeReadsBack(n: nat)
    ensures |IntToString(n)| > 0 && IntToString(n)[0] != '-'
    ensures ParseInt(IntToString(n)) == Some(n as int)
  {
    var s := NatToString(n);
    assert IntToString(n) == s;
    ParseIntOfNatToString(n);
    assert IsDecimalDigit(s[0]);
  }

  lemma NegativeReadsBack(i: int)
    requires i < 0
    ensures |IntToString(i)| > 0 && IntToString(i)[0] == '-'
    ensures ParseInt(IntToString(i)) == Some(i)
  {
    var m := NatToString(-i);
    assert IntToString(i) == "-" + m;
    DigitsValueOfNatToString(-i);
    ParseIntOfNegativeNumeral(m, -i);
  }

  /** What `Date.now().toString()` writes, `parseInt` reads back unchanged. */
  lemma ParseIntOfNatToString(n: nat)
    ensures ParseInt(NatToString(n)) == Some(n)
  {
    ParseIntOfNumeral(NatToString(n));
    DigitsValueOfNatToString(n);
  }
}
