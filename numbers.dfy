/**
  Numbers as JavaScript turns them into text and back: `String(n)` for
  integers, `parseInt`, `Number()` on decimal text, `toFixed(1)` and
  `padStart`. Integers are unbounded here; the values the dashboard handles
  stay far below 2^53, where JavaScript's doubles are exact.
 */
module Numbers {
  import opened Wrappers

  predicate IsDigit(c: char)
  {
    '0' <= c <= '9'
  }

  function DigitChar(d: nat): (c: char)
    requires d < 10
    ensures IsDigit(c)
  {
    ('0' as int + d) as char
  }

  /** Value of c as a digit in the given radix, or the radix itself when c is not one. */
  function DigitOf(c: char, radix: nat): nat
  {
    var v := if '0' <= c <= '9' then c as int - '0' as int
             else if 'a' <= c <= 'z' then c as int - 'a' as int + 10
             else if 'A' <= c <= 'Z' then c as int - 'A' as int + 10
             else radix;
    if v < radix then v else radix
  }

  predicate IsRadixDigit(c: char, radix: nat)
  {
    DigitOf(c, radix) < radix
  }

  /** Every character of s is a digit of the radix. */
  predicate AllDigits(s: string, radix: nat)
  {
    forall i :: 0 <= i < |s| ==> IsRadixDigit(s[i], radix)
  }

  /** Value of a digit string, most significant digit first. */
  function DigitsValue(s: string, radix: nat): nat
    requires AllDigits(s, radix)
  {
    if s == [] then 0
    else DigitsValue(s[..|s| - 1], radix) * radix + DigitOf(s[|s| - 1], radix)
  }

  /** Length of the longest prefix of s made of digits of the radix. */
  function DigitRun(s: string, radix: nat): (k: nat)
    ensures k <= |s|
    ensures AllDigits(s[..k], radix)
    ensures k < |s| ==> !IsRadixDigit(s[k], radix)
  {
    if s == [] || !IsRadixDigit(s[0], radix) then 0
    else
      var k := 1 + DigitRun(s[1..], radix);
      assert s[..k] == [s[0]] + s[1..][..k - 1];
      k
  }

  /** The run of digits covers the whole string exactly when every character is a digit. */
  lemma {:induction false} DigitRunAll(s: string, radix: nat)
    requires AllDigits(s, radix)
    ensures DigitRun(s, radix) == |s|
    decreases |s|
  {
    if s != [] {
      DigitRunAll(s[1..], radix);
    }
  }

  function Pow10(k: nat): (p: nat)
    ensures p >= 1
  {
    if k == 0 then 1 else 10 * Pow10(k - 1)
  }

  /** `String(n)` for a non-negative integer below 10^21: its decimal digits. */
  function NatToString(n: nat): (r: string)
    decreases n
  {
    if n < 10 then [DigitChar(n)] else NatToString(n / 10) + [DigitChar(n % 10)]
  }

  /** `String(n)` for an integer below 10^21 in magnitude. */
  function IntToString(n: int): string
  {
    if n < 0 then "-" + NatToString(-n) else NatToString(n)
  }

  /** The decimal text of n is a non-empty digit string whose value is n. */
  lemma {:induction false} NatToStringDigits(n: nat)
    ensures |NatToString(n)| >= 1
    ensures AllDigits(NatToString(n), 10)
    ensures DigitsValue(NatToString(n), 10) == n
    decreases n
  {
    if n >= 10 {
      NatToStringDigits(n / 10);
      var s := NatToString(n);
      assert s[..|s| - 1] == NatToString(n / 10);
    }
  }

  /** Numbers below 10^k have at most k decimal digits. */
  lemma {:induction false} NatToStringLength(n: nat, k: nat)
    requires n < Pow10(k)
    ensures |NatToString(n)| <= if k == 0 then 1 else k
    decreases n
  {
    if n >= 10 {
      NatToStringLength(n / 10, k - 1);
    }
  }

  /** Leading zeros do not change the value of a digit string. */
  lemma {:induction false} LeadingZero(s: string, radix: nat)
    requires AllDigits(s, radix) && radix > 0
    ensures AllDigits("0" + s, radix)
    ensures DigitsValue("0" + s, radix) == DigitsValue(s, radix)
    decreases |s|
  {
    if s != [] {
      LeadingZero(s[..|s| - 1], radix);
      assert ("0" + s)[..|"0" + s| - 1] == "0" + s[..|s| - 1];
    }
  }

  /** `s.padStart(width, c)` */
  function PadStart(s: string, width: nat, c: char): (r: string)
    ensures |r| == if |s| >= width then |s| else width
    decreases if |s| >= width then 0 else width - |s|
  {
    if |s| >= width then s else PadStart([c] + s, width, c)
  }

  /** Padding a digit string with zeros keeps its value. */
  lemma {:induction false} PadStartZeros(s: string, width: nat)
    requires AllDigits(s, 10)
    ensures AllDigits(PadStart(s, width, '0'), 10)
    ensures DigitsValue(PadStart(s, width, '0'), 10) == DigitsValue(s, 10)
    decreases if |s| >= width then 0 else width - |s|
  {
    if |s| < width {
      LeadingZero(s, 10);
      PadStartZeros("0" + s, width);
    }
  }

  /** The characters `String.prototype.trim` and `parseInt` treat as white space. */
  predicate IsJsWhite(c: char)
  {
    ('\U{9}' <= c <= '\U{D}') || c == ' ' || c == '\U{A0}' || c == '\U{1680}'
    || ('\U{2000}' <= c <= '\U{200A}') || c == '\U{2028}' || c == '\U{2029}'
    || c == '\U{202F}' || c == '\U{205F}' || c == '\U{3000}' || c == '\U{FEFF}'
  }

  function TrimStart(s: string): (r: string)
    ensures |r| <= |s| && r == s[|s| - |r|..]
    ensures r != [] ==> !IsJsWhite(r[0])
  {
    if s != [] && IsJsWhite(s[0]) then TrimStart(s[1..]) else s
  }

  function TrimEnd(s: string): (r: string)
    ensures |r| <= |s| && r == s[..|r|]
    ensures r != [] ==> !IsJsWhite(r[|r| - 1])
  {
    if s != [] && IsJsWhite(s[|s| - 1]) then TrimEnd(s[..|s| - 1]) else s
  }

  /**
    `parseInt(s)` without a radix: leading white space, an optional sign, an
    optional `0x` prefix selecting radix 16, then the longest run of digits.
    None stands for NaN, the result when that run is empty.
   */
  function ParseInt(s: string): Option<int>
  {
    var t := TrimStart(s);
    if t != [] && t[0] == '-' then
      match ParseUnsigned(t[1..])
      case Some(v) => Some(0 - v)
      case None => None
    else if t != [] && t[0] == '+' then ParseUnsignedInt(t[1..])
    else ParseUnsignedInt(t)
  }

  /** ParseUnsigned, as an integer. */
  function ParseUnsignedInt(u: string): Option<int>
  {
    match ParseUnsigned(u)
    case Some(v) => Some(v)
    case None => None
  }

  /** The unsigned part of parseInt: a `0x` prefix selects radix 16. */
  function ParseUnsigned(u: string): Option<nat>
  {
    if |u| >= 2 && u[0] == '0' && (u[1] == 'x' || u[1] == 'X') then DigitPrefix(u[2..], 16)
    else DigitPrefix(u, 10)
  }

  /** The value of the longest run of digits at the start of w; None when there is none. */
  function DigitPrefix(w: string, radix: nat): Option<nat>
  {
    var k := DigitRun(w, radix);
    if k == 0 then None else Some(DigitsValue(w[..k], radix))
  }

  /** A non-empty digit string is read whole. */
  lemma DigitPrefixAll(w: string, radix: nat)
    requires |w| >= 1 && AllDigits(w, radix)
    ensures DigitPrefix(w, radix) == Some(DigitsValue(w, radix))
  {
    DigitRunAll(w, radix);
    assert w[..|w|] == w;
  }

  /** `parseInt(s) || 0`: NaN (and zero) become zero. */
  function ParseIntOrZero(s: string): int
  {
    ParseInt(s).GetOr(0)
  }

  /** parseInt reads back every integer that String writes. */
  lemma ParseIntOfString(n: int)
    ensures ParseInt(IntToString(n)) == Some(n)
  {
    if n < 0 {
      ParseUnsignedOfString(-n);
      var d := NatToString(-n);
      var s := "-" + d;
      TrimStartKeeps(s);
      assert s[1..] == d;
    } else {
      ParseUnsignedOfString(n);
      TrimStartKeeps(NatToString(n));
    }
  }

  /** The unsigned part of parseInt reads back the decimal text of m. */
  lemma ParseUnsignedOfString(m: nat)
    ensures var d := NatToString(m); d != [] && IsDigit(d[0]) && ParseUnsigned(d) == Some(m)
  {
    var d := NatToString(m);
    NatToStringDigits(m);
    DigitPrefixAll(d, 10);
    assert !IsRadixDigit('x', 10) && !IsRadixDigit('X', 10);
    assert IsDigit(d[0]);
  }

  /** parseInt reads a non-empty string of decimal digits whole. */
  lemma ParseIntDigits(t: string)
    requires |t| >= 1 && AllDigits(t, 10)
    ensures ParseInt(t) == Some(DigitsValue(t, 10))
  {
    assert IsRadixDigit(t[0], 10);
    TrimStartKeeps(t);
    assert ParseInt(t) == ParseUnsignedInt(t);
    ParseUnsignedDigits(t);
  }

  lemma ParseUnsignedDigits(t: string)
    requires |t| >= 1 && AllDigits(t, 10)
    ensures ParseUnsigned(t) == Some(DigitsValue(t, 10))
  {
    if |t| >= 2 {
      assert IsRadixDigit(t[1], 10);
    }
    DigitPrefixAll(t, 10);
  }

  /** Text with no minus sign never parses to a negative number. */
  lemma ParseIntWithoutMinus(s: string)
    requires '-' !in s
    ensures ParseInt(s).Some? ==> ParseInt(s).value >= 0
  {
    var t := TrimStart(s);
    if t != [] {
      assert t[0] == s[|s| - |t|];
    }
    UnsignedNonNegative(t);
  }

  /** Without a leading minus sign parseInt reads no negative number. */
  lemma UnsignedNonNegative(t: string)
    requires t == [] || t[0] != '-'
    ensures var v := if t != [] && t[0] == '+' then ParseUnsignedInt(t[1..]) else ParseUnsignedInt(t);
      v.Some? ==> v.value >= 0
  {
  }

  /** An exact decimal: mantissa / 10^scale. */
  datatype Decimal = Decimal(mantissa: int, scale: nat)

  /** The sign of a - b for two decimals: -1, 0 or 1. */
  function DecimalCompare(a: Decimal, b: Decimal): (c: int)
    ensures -1 <= c <= 1
    ensures c == 0 <==> a.mantissa * Pow10(b.scale) == b.mantissa * Pow10(a.scale)
  {
    var x, y := a.mantissa * Pow10(b.scale), b.mantissa * Pow10(a.scale);
    if x < y then -1 else if x > y then 1 else 0
  }

  /** a > b */
  predicate DecimalGreater(a: Decimal, b: Decimal)
  {
    DecimalCompare(a, b) == 1
  }

  /**
    `Number(s)` on decimal text: surrounding white space is ignored, the empty
    string is 0, otherwise an optional sign and digits with an optional
    fractional part. None stands for NaN.
   */
  function NumberValue(s: string): Option<Decimal>
  {
    var t := TrimEnd(TrimStart(s));
    if t == [] then Some(Decimal(0, 0))
    else if t[0] == '-' then
      match UnsignedDecimal(t[1..])
      case Some(v) => Some(Decimal(-v.mantissa, v.scale))
      case None => None
    else if t[0] == '+' then UnsignedDecimal(t[1..])
    else UnsignedDecimal(t)
  }

  /**
    Digits with an optional `.` and fractional digits; at least one digit in
    all. The mantissa is the value of all the digits, the scale the number of
    digits after the point.
   */
  function UnsignedDecimal(t: string): Option<Decimal>
  {
    var k := DigitRun(t, 10);
    if k == |t| then
      if k == 0 then None else Some(Decimal(DigitsValue(t[..k], 10), 0))
    else if t[k] != '.' || !AllDigits(t[k + 1..], 10) || (k == 0 && k + 1 == |t|) then None
    else
      AllDigitsAppend(t[..k], t[k + 1..], 10);
      Some(Decimal(DigitsValue(t[..k] + t[k + 1..], 10), |t| - k - 1))
  }

  lemma AllDigitsAppend(a: string, b: string, radix: nat)
    requires AllDigits(a, radix) && AllDigits(b, radix)
    ensures AllDigits(a + b, radix)
  {
    assert forall i :: 0 <= i < |a + b| ==> (a + b)[i] == if i < |a| then a[i] else b[i - |a|];
  }

  /** A digit string is read as its value. */
  lemma UnsignedDecimalWhole(w: string)
    requires |w| >= 1 && AllDigits(w, 10)
    ensures UnsignedDecimal(w) == Some(Decimal(DigitsValue(w, 10), 0))
  {
    DigitRunAll(w, 10);
    assert w[..|w|] == w;
  }

  /** Digits, a point and more digits are read as all the digits, scaled by the fraction's length. */
  lemma UnsignedDecimalPoint(w: string, f: string)
    requires |w| >= 1 && AllDigits(w, 10)
    requires |f| >= 1 && AllDigits(f, 10)
    ensures AllDigits(w + f, 10)
    ensures UnsignedDecimal(w + "." + f) == Some(Decimal(DigitsValue(w + f, 10), |f|))
  {
    AllDigitsAppend(w, f, 10);
    var u := w + "." + f;
    DigitRunBeforePoint(w, f);
    assert u[..|w|] == w && u[|w| + 1..] == f;
  }

  /** In digits followed by a point, the run of digits ends at the point. */
  lemma DigitRunBeforePoint(w: string, f: string)
    requires AllDigits(w, 10)
    ensures DigitRun(w + "." + f, 10) == |w|
  {
    var u := w + "." + f;
    assert u[..|w|] == w;
    assert u[|w|] == '.';
    DigitRunSplit(u, |w|);
  }

  /** The run of digits stops at the first non-digit. */
  lemma {:induction false} DigitRunSplit(u: string, k: nat)
    requires k < |u| && AllDigits(u[..k], 10) && !IsRadixDigit(u[k], 10)
    ensures DigitRun(u, 10) == k
    decreases k
  {
    if k > 0 {
      assert u[1..][..k - 1] == u[..k][1..];
      assert u[1..][k - 1] == u[k];
      DigitRunSplit(u[1..], k - 1);
    }
  }

  /** Text that starts with something other than white space keeps its start when trimmed. */
  lemma TrimStartKeeps(s: string)
    requires s != [] && !IsJsWhite(s[0])
    ensures TrimStart(s) == s
  {
  }

  /** Text that ends with something other than white space keeps its end when trimmed. */
  lemma TrimEndKeeps(s: string)
    requires s != [] && !IsJsWhite(s[|s| - 1])
    ensures TrimEnd(s) == s
  {
  }

  /** Text that starts and ends with a digit is read without trimming. */
  lemma NumberValueUnsigned(u: string, v: Decimal)
    requires |u| >= 1 && IsDigit(u[0]) && IsDigit(u[|u| - 1])
    requires UnsignedDecimal(u) == Some(v)
    ensures NumberValue(u) == Some(v)
  {
    TrimStartKeeps(u);
    TrimEndKeeps(u);
  }

  /** A minus sign in front of such text negates its value. */
  lemma NumberValueNegated(u: string, v: Decimal)
    requires |u| >= 1 && IsDigit(u[0]) && IsDigit(u[|u| - 1])
    requires UnsignedDecimal(u) == Some(v)
    ensures NumberValue("-" + u) == Some(Decimal(-v.mantissa, v.scale))
  {
    var s := "-" + u;
    assert s[|s| - 1] == u[|u| - 1];
    TrimStartKeeps(s);
    TrimEndKeeps(s);
    assert s[1..] == u;
  }

  /** Both signs at once. */
  lemma NumberValueSigned(u: string, negative: bool, v: Decimal)
    requires |u| >= 1 && IsDigit(u[0]) && IsDigit(u[|u| - 1])
    requires UnsignedDecimal(u) == Some(v)
    ensures NumberValue(if negative then "-" + u else u)
            == Some(if negative then Decimal(-v.mantissa, v.scale) else v)
  {
    if negative {
      NumberValueNegated(u, v);
    } else {
      NumberValueUnsigned(u, v);
    }
  }

  /** Number reads back every integer that String writes. */
  lemma NumberOfString(n: int)
    ensures NumberValue(IntToString(n)) == Some(Decimal(n, 0))
  {
    var m := if n < 0 then -n else n;
    var d := NatToString(m);
    NatToStringDigits(m);
    UnsignedDecimalWhole(d);
    NumberValueSigned(d, n < 0, Decimal(m, 0));
  }

  /**
    toFixed(1) rounds to the nearest tenth, halves upwards:
    the number of tenths in n / d.
   */
  function Tenths(n: nat, d: nat): nat
    requires d > 0
  {
    (20 * n + d) / (2 * d)
  }

  /** Tenths(n, d) / 10 lies within half a tenth of n / d, a tie going upwards. */
  lemma TenthsNearest(n: nat, d: nat)
    requires d > 0
    ensures var t := Tenths(n, d); 2 * t * d - d <= 20 * n < 2 * t * d + d
  {
    var t := Tenths(n, d);
    var r := (20 * n + d) % (2 * d);
    assert 20 * n + d == t * (2 * d) + r;
    assert 0 <= r < 2 * d;
  }

  /** The text of t tenths with one digit after the point. */
  function TenthsText(t: nat): string
  {
    NatToString(t / 10) + "." + [DigitChar(t % 10)]
  }

  /** The magnitude of n: n without its sign. */
  function Magnitude(n: int): nat
  {
    if n < 0 then -n else n
  }

  /** The text of t tenths, after a minus sign when negative. */
  function SignedTenthsText(negative: bool, t: nat): string
  {
    if negative then "-" + TenthsText(t) else TenthsText(t)
  }

  /** t tenths, negated when negative. */
  function SignedTenths(negative: bool, t: nat): int
  {
    if negative then 0 - t else t
  }

  /**
    `(num / den).toFixed(1)`: the magnitude of the quotient rounded to
    tenths, with a leading minus when the quotient is negative.
   */
  function ToFixed1(num: int, den: nat): string
    requires den > 0
  {
    SignedTenthsText(num < 0, Tenths(Magnitude(num), den))
  }

  /** The quotient num / den rounded to tenths as toFixed(1) rounds it, in tenths. */
  function RoundedTenths(num: int, den: nat): int
    requires den > 0
  {
    SignedTenths(num < 0, Tenths(Magnitude(num), den))
  }

  /** The whole tenths followed by the digit of tenths spell t. */
  lemma TenthsDigits(t: nat)
    ensures AllDigits(NatToString(t / 10) + [DigitChar(t % 10)], 10)
    ensures DigitsValue(NatToString(t / 10) + [DigitChar(t % 10)], 10) == t
  {
    var w := NatToString(t / 10);
    NatToStringDigits(t / 10);
    var s := w + [DigitChar(t % 10)];
    AllDigitsAppend(w, [DigitChar(t % 10)], 10);
    assert s[..|s| - 1] == w;
  }

  /** The text of t tenths is a digit string with a point before its last digit. */
  lemma TenthsTextDecimal(t: nat)
    ensures var u := TenthsText(t);
            |u| >= 1 && IsDigit(u[0]) && IsDigit(u[|u| - 1]) && UnsignedDecimal(u) == Some(Decimal(t, 1))
  {
    var w := NatToString(t / 10);
    NatToStringDigits(t / 10);
    var f := [DigitChar(t % 10)];
    TenthsDigits(t);
    UnsignedDecimalPoint(w, f);
    var u := w + "." + f;
    assert IsDigit(u[0]) && IsDigit(u[|u| - 1]);
    assert TenthsText(t) == u;
  }

  /** The text of t tenths is read back as t / 10. */
  lemma NumberOfTenthsText(t: nat)
    ensures NumberValue(TenthsText(t)) == Some(Decimal(t, 1))
  {
    var u := TenthsText(t);
    TenthsTextDecimal(t);
    NumberValueUnsigned(u, Decimal(t, 1));
  }

  /** A minus sign and the text of t tenths is read back as -t / 10. */
  lemma NumberOfNegatedTenthsText(t: nat)
    ensures NumberValue("-" + TenthsText(t)) == Some(Decimal(-(t as int), 1))
  {
    var u := TenthsText(t);
    TenthsTextDecimal(t);
    NegatedTenths(u, t);
  }

  /** A minus sign in front of digit text worth t tenths gives -t tenths. */
  lemma NegatedTenths(u: string, t: nat)
    requires |u| >= 1 && IsDigit(u[0]) && IsDigit(u[|u| - 1]) && UnsignedDecimal(u) == Some(Decimal(t, 1))
    ensures NumberValue("-" + u) == Some(Decimal(-(t as int), 1))
  {
    var v := Decimal(t, 1);
    NumberValueNegated(u, v);
    assert Decimal(-v.mantissa, v.scale) == Decimal(-(t as int), 1);
  }

  /** Number reads the text toFixed writes back as the rounded quotient. */
  lemma NumberOfFixed1(num: int, den: nat)
    requires den > 0
    ensures NumberValue(ToFixed1(num, den)) == Some(Decimal(RoundedTenths(num, den), 1))
  {
    NumberOfSignedTenthsText(num < 0, Tenths(Magnitude(num), den));
  }

  /** The signed text of t tenths is read back as the signed tenths. */
  lemma NumberOfSignedTenthsText(negative: bool, t: nat)
    ensures NumberValue(SignedTenthsText(negative, t)) == Some(Decimal(SignedTenths(negative, t), 1))
  {
    if negative {
      NumberOfNegatedTenthsText(t);
    } else {
      NumberOfTenthsText(t);
    }
  }
}
