/** The handful of JavaScript string semantics the decoder depends on. A text
    value is kept as the bytes it is decoded from, one char per byte of its
    UTF-8 encoding; every text the decoder compares against is ASCII, where
    bytes and code units agree. Covered: the byte-order mark TextDecoder
    drops, the class of ToNumber(s) that the loose test `name == 0` and the
    comparison of a string with null look at, the code-unit order of `<` and
    `>` on strings, and the one-letter lower-casing of test_group. */
module JsString {
  import opened Common

  /** The text of a byte string. */
  function Chars(b: seq<Byte>): (r: string)
    ensures |r| == |b| && forall i :: 0 <= i < |b| ==> r[i] as int == b[i]
  {
    seq(|b|, i requires 0 <= i < |b| => b[i] as char)
  }

  // ---------------------------------------------------------------- decoding

  /** The UTF-8 encoding of U+FEFF. */
  const BOM: string := "\U{EF}\U{BB}\U{BF}"

  /** TextDecoder('utf-8') (without ignoreBOM) drops one leading byte-order mark. */
  function StripBom(s: string): (r: string)
    ensures |s| >= 3 && s[..3] == BOM ==> r == s[3..]
    ensures !(|s| >= 3 && s[..3] == BOM) ==> r == s
  {
    if |s| >= 3 && s[..3] == BOM then s[3..] else s
  }

  // ----------------------------------------------------- ToNumber on strings

  /** The class of ToNumber(s): the decoder only looks at whether the value is
      NaN, zero (negative zero included), positive or negative. */
  datatype NumberClass = NaN | Zero | Positive | Negative

  /** The length of the UTF-8 encoding of a StrWhiteSpaceChar (a WhiteSpace or
      LineTerminator code point) that s starts with, or 0. */
  function LeadingSpace(s: string): (n: nat)
    ensures n <= |s|
  {
    if |s| >= 1 && IsAsciiSpace(s[0]) then 1
    else if |s| >= 2 && s[0] == '\U{C2}' && s[1] == '\U{A0}' then 2
    else if |s| >= 3 && SpaceTriple(s[0], s[1], s[2]) then 3
    else 0
  }

  /** The length of a StrWhiteSpaceChar encoding s ends with, or 0. */
  function TrailingSpace(s: string): (n: nat)
    ensures n <= |s|
  {
    var k := |s|;
    if k >= 1 && IsAsciiSpace(s[k - 1]) then 1
    else if k >= 2 && s[k - 2] == '\U{C2}' && s[k - 1] == '\U{A0}' then 2
    else if k >= 3 && SpaceTriple(s[k - 3], s[k - 2], s[k - 1]) then 3
    else 0
  }

  /** Tab, line feed, vertical tab, form feed, carriage return, space. */
  predicate IsAsciiSpace(c: char)
  {
    c == ' ' || '\t' <= c <= '\r'
  }

  /** The encodings of U+1680, U+2000..U+200A, U+2028, U+2029, U+202F,
      U+205F, U+3000 and U+FEFF. */
  predicate SpaceTriple(a: char, b: char, c: char)
  {
    (a == '\U{E1}' && b == '\U{9A}' && c == '\U{80}')
    || (a == '\U{E2}' && b == '\U{80}' && ('\U{80}' <= c <= '\U{8A}' || c == '\U{A8}' || c == '\U{A9}' || c == '\U{AF}'))
    || (a == '\U{E2}' && b == '\U{81}' && c == '\U{9F}')
    || (a == '\U{E3}' && b == '\U{80}' && c == '\U{80}')
    || (a == '\U{EF}' && b == '\U{BB}' && c == '\U{BF}')
  }

  /** How many leading bytes are white space, character by character. */
  function LeadingSpaces(s: string): (k: nat)
    ensures k <= |s|
    decreases |s|
  {
    var n := LeadingSpace(s);
    if n == 0 then 0 else n + LeadingSpaces(s[n..])
  }

  /** How many trailing bytes are white space, character by character. */
  function TrailingSpaces(s: string): (k: nat)
    ensures k <= |s|
    decreases |s|
  {
    var n := TrailingSpace(s);
    if n == 0 then 0 else n + TrailingSpaces(s[..|s| - n])
  }

  /** String.prototype.trimStart. */
  function TrimStart(s: string): string
  {
    s[LeadingSpaces(s)..]
  }

  /** String.prototype.trimEnd. */
  function TrimEnd(s: string): string
  {
    s[..|s| - TrailingSpaces(s)]
  }

  predicate IsDigit(c: char) { '0' <= c <= '9' }

  /** The first index at or after i that is not a decimal digit. */
  function SkipDigits(u: string, i: nat): (j: nat)
    requires i <= |u|
    ensures i <= j <= |u|
    ensures forall k :: i <= k < j ==> IsDigit(u[k])
    ensures j < |u| ==> !IsDigit(u[j])
    decreases |u| - i
  {
    if i < |u| && IsDigit(u[i]) then SkipDigits(u, i + 1) else i
  }

  predicate AllZeroDigits(u: string)
  {
    forall k :: 0 <= k < |u| ==> u[k] == '0' || u[k] == '.'
  }

  /** The value of the digits of d, any `.` skipped: the mantissa of a
      decimal literal. */
  function DecimalValue(d: string): int
  {
    if |d| == 0 then 0
    else if d[|d| - 1] == '.' then DecimalValue(d[..|d| - 1])
    else 10 * DecimalValue(d[..|d| - 1]) + (d[|d| - 1] as int - '0' as int)
  }

  function Pow(b: nat, n: nat): (r: nat)
  {
    if n == 0 then 1 else b * Pow(b, n - 1)
  }

  /** Whether the positive value m * 10^e rounds to +0 as a double: it does
      when it is at most 2^-1075, half the least subnormal, since a tie goes
      to the even neighbour 0. */
  predicate RoundsToZero(m: int, e: int)
  {
    e < 0 && m * Pow(2, 1075) <= Pow(10, -e)
  }

  /** For a StrUnsignedDecimalLiteral u, Some(whether its value rounds to
      zero); for any other u, None. The literal is `Infinity`, or digits with
      at most one `.` and at least one digit, then optionally `e` or `E`, a
      sign and digits; its value is the mantissa times ten to the exponent
      less the number of fraction digits. */
  function UnsignedDecimal(u: string): Option<bool>
  {
    if u == "Infinity" then Some(false)
    else
      var i1 := SkipDigits(u, 0);
      var dot := i1 < |u| && u[i1] == '.';
      var i2 := if dot then SkipDigits(u, i1 + 1) else i1;
      var digits := if dot then i2 - 1 else i2;
      var m := DecimalValue(u[..i2]);
      var fraction := if dot then i2 - i1 - 1 else 0;
      if digits == 0 then None
      else if i2 == |u| then Some(m == 0 || RoundsToZero(m, -fraction))
      else if u[i2] != 'e' && u[i2] != 'E' then None
      else
        var negative := i2 + 1 < |u| && u[i2 + 1] == '-';
        var i3 := if i2 + 1 < |u| && (u[i2 + 1] == '+' || negative) then i2 + 2 else i2 + 1;
        var i4 := SkipDigits(u, i3);
        var x := DecimalValue(u[i3..i4]);
        if i4 > i3 && i4 == |u| then Some(m == 0 || RoundsToZero(m, (if negative then -x else x) - fraction))
        else None
  }

  predicate IsDigitOfBase(c: char, prefix: char)
  {
    if prefix == 'x' || prefix == 'X' then IsDigit(c) || 'a' <= c <= 'f' || 'A' <= c <= 'F'
    else if prefix == 'o' || prefix == 'O' then '0' <= c <= '7'
    else c == '0' || c == '1'
  }

  /** `0x`, `0o` or `0b` (either case) followed by at least one digit of that base. */
  predicate IsNonDecimal(t: string)
  {
    |t| >= 3 && t[0] == '0' && t[1] in "xXoObB"
    && forall k :: 2 <= k < |t| ==> IsDigitOfBase(t[k], t[1])
  }

  /** The class of ToNumber(s) (section 7.1.4.1.1 of ECMA-262: white space
      trimmed, an empty string is 0, no sign before 0x, 0o or 0b). A name
      that trims to nothing is zero; one whose first character, once
      trimmed, cannot start a numeral (a letter other than the I of
      Infinity, say) is NaN; only a leading '-' gives a negative number. */
  function ToNumberClass(s: string): (r: NumberClass)
    ensures TrimEnd(TrimStart(StripBom(s))) == [] ==> r == Zero
    ensures var t := TrimEnd(TrimStart(StripBom(s)));
            t != [] && !IsDigit(t[0]) && t[0] !in "+-.I" ==> r == NaN
    ensures r == Negative ==> var t := TrimEnd(TrimStart(StripBom(s))); t != [] && t[0] == '-'
  {
    var t := TrimEnd(TrimStart(StripBom(s)));
    if t == [] then Zero
    else if IsNonDecimal(t) then (if AllZeroDigits(t[2..]) then Zero else Positive)
    else
      var signed := t[0] == '+' || t[0] == '-';
      var u := if signed then t[1..] else t;
      match UnsignedDecimal(u)
      case None => NaN
      case Some(isZero) =>
        if isZero then Zero else if t[0] == '-' then Negative else Positive
  }

  /** The loose equality `s == 0`: it holds for a name that trims to
      nothing, and never for one that starts with a character that cannot
      start a numeral, such as a channel-style letter. */
  predicate LooselyZero(s: string): (r: bool)
    ensures TrimEnd(TrimStart(StripBom(s))) == [] ==> r
    ensures var t := TrimEnd(TrimStart(StripBom(s)));
            t != [] && !IsDigit(t[0]) && t[0] !in "+-.I" ==> !r
  {
    ToNumberClass(s) == Zero
  }

  /** A string without surrounding white space or byte-order mark is its own trimmed form. */
  lemma Untrimmed(t: string)
    requires LeadingSpace(t) == 0 && TrailingSpace(t) == 0 && !(|t| >= 3 && t[..3] == BOM)
    ensures TrimEnd(TrimStart(StripBom(t))) == t
  {
    assert LeadingSpaces(t) == 0 && TrailingSpaces(t) == 0;
  }

  /** Names other than the empty one that also compare loosely equal to 0. */
  lemma LooselyZeroDigit()
    ensures LooselyZero("0")
  {
    var t := "0";
    assert LeadingSpace(t) == 0 && TrailingSpace(t) == 0;
    Untrimmed(t);
    assert !IsNonDecimal(t);
    assert SkipDigits(t, 1) == 1;
    assert SkipDigits(t, 0) == 1;
    assert t[..1] == t;
    assert UnsignedDecimal(t) == Some(true);
  }

  lemma LooselyZeroBlank()
    ensures LooselyZero("  ")
  {
    var t := "  ";
    assert StripBom(t) == t;
    assert LeadingSpace(t) == 1;
    assert t[1..] == " ";
    assert LeadingSpace(" ") == 1;
    assert " "[1..] == "";
    assert LeadingSpaces("") == 0;
    assert LeadingSpaces(t) == 2;
    assert TrimStart(t) == "";
    assert TrailingSpaces("") == 0;
    assert TrimEnd("") == "";
  }

  lemma LooselyZeroNegative()
    ensures LooselyZero("-0")
  {
    var t := "-0";
    assert LeadingSpace(t) == 0 && TrailingSpace(t) == 0;
    Untrimmed(t);
    assert !IsNonDecimal(t);
    assert t[1..] == "0";
    assert SkipDigits("0", 1) == 1;
    assert SkipDigits("0", 0) == 1;
    assert "0"[..1] == "0";
    assert UnsignedDecimal("0") == Some(true);
  }

  lemma LooselyZeroHex()
    ensures LooselyZero("0x0")
  {
    var t := "0x0";
    assert t[..3] == t && t[0] != BOM[0];
    assert LeadingSpace(t) == 0 && TrailingSpace(t) == 0;
    Untrimmed(t);
    HexZeroLiteral();
  }

  lemma HexZeroLiteral()
    ensures IsNonDecimal("0x0") && AllZeroDigits("0x0"[2..])
  {
    var t := "0x0";
    assert t[1] == "xXoObB"[0];
    assert IsDigitOfBase(t[2], t[1]);
    assert t[2..] == "0";
  }

  lemma LooselyZeroExponent()
    ensures LooselyZero(".0e5")
  {
    var d := ".0e5";
    assert d[..3] == ".0e";
    assert LeadingSpace(d) == 0 && TrailingSpace(d) == 0;
    Untrimmed(d);
    assert !IsNonDecimal(d);
    ZeroExponentLiteral();
  }

  lemma ZeroExponentLiteral()
    ensures UnsignedDecimal(".0e5") == Some(true)
  {
    var d := ".0e5";
    assert SkipDigits(d, 0) == 0;
    assert SkipDigits(d, 2) == 2;
    assert SkipDigits(d, 1) == 2;
    assert SkipDigits(d, 4) == 4;
    assert SkipDigits(d, 3) == 4;
    assert d[..2] == ".0" && ".0"[..1] == "." && "."[..0] == "";
    assert DecimalValue(".0") == 0;
  }

  lemma NotLooselyZeroLetter()
    ensures !LooselyZero("R")
  {
    var t := "R";
    assert LeadingSpace(t) == 0 && TrailingSpace(t) == 0;
    Untrimmed(t);
    assert !IsNonDecimal(t);
    assert SkipDigits(t, 0) == 0;
    assert UnsignedDecimal(t) == None;
  }

  /** A string of decimal digits has value zero exactly when every digit is 0. */
  lemma {:induction false} DecimalZero(d: string)
    requires forall k :: 0 <= k < |d| ==> IsDigit(d[k])
    ensures DecimalValue(d) >= 0
    ensures DecimalValue(d) == 0 <==> forall k :: 0 <= k < |d| ==> d[k] == '0'
    decreases |d|
  {
    if |d| > 0 {
      var p := d[..|d| - 1];
      assert forall k :: 0 <= k < |p| ==> p[k] == d[k];
      DecimalZero(p);
      if DecimalValue(d) == 0 {
        assert forall k :: 0 <= k < |d| ==> d[k] == '0' by {
          forall k | 0 <= k < |d|
            ensures d[k] == '0'
          {
            if k < |p| {
              assert p[k] == '0';
            }
          }
        }
      } else {
        assert !(DecimalValue(p) == 0 && d[|d| - 1] == '0');
      }
    }
  }

  /** A name of decimal digits is loosely equal to 0 exactly when all its
      digits are 0: "000" ends the attribute list, "010" does not. */
  lemma LooselyZeroDigits(d: string)
    requires |d| > 0 && forall k :: 0 <= k < |d| ==> IsDigit(d[k])
    ensures LooselyZero(d) <==> forall k :: 0 <= k < |d| ==> d[k] == '0'
  {
    assert IsDigit(d[0]) && IsDigit(d[|d| - 1]);
    assert LeadingSpace(d) == 0 && TrailingSpace(d) == 0;
    assert !(|d| >= 3 && d[..3] == BOM) by {
      if |d| >= 3 {
        assert d[..3][0] == d[0];
      }
    }
    Untrimmed(d);
    assert !IsNonDecimal(d) by {
      if |d| >= 3 {
        assert IsDigit(d[1]);
      }
    }
    assert SkipDigits(d, 0) == |d|;
    assert d[..|d|] == d;
    DecimalZero(d);
    assert UnsignedDecimal(d) == Some(DecimalValue(d) == 0 || RoundsToZero(DecimalValue(d), 0));
  }

  /** A minus sign before an untrimmed literal negates its value: zero stays
      zero, a positive value turns negative and a non-number stays NaN; a
      sign before 0x, 0o or 0b makes it NaN. */
  lemma NegatedClass(u: string)
    requires |u| > 0 && u[0] != '+' && u[0] != '-'
    requires LeadingSpace(u) == 0 && TrailingSpace(u) == 0
    ensures ToNumberClass("-" + u) ==
      if IsNonDecimal(u) then NaN
      else match ToNumberClass(u)
        case Positive => Negative
        case c => c
  {
    var t := "-" + u;
    NegatedUntrimmed(u);
    assert t[0] == '-' && t[1..] == u;
    assert !IsNonDecimal(t);
    var d := UnsignedDecimal(u);
    var neg := ToNumberClass(t);
    assert neg == match d case None => NaN case Some(z) => if z then Zero else Negative;
    if IsNonDecimal(u) {
      NonDecimalNotDecimal(u);
      assert neg == NaN;
    } else {
      var pos := ToNumberClass(u);
      assert pos == match d case None => NaN case Some(z) => if z then Zero else Positive;
      assert neg == match pos case Positive => Negative case c => c;
    }
  }

  /** A 0x, 0o or 0b literal is no decimal literal. */
  lemma NonDecimalNotDecimal(u: string)
    requires IsNonDecimal(u)
    ensures UnsignedDecimal(u) == None
  {
    assert u != "Infinity";
    assert !IsDigit(u[1]) && SkipDigits(u, 1) == 1 && SkipDigits(u, 0) == 1;
  }

  /** u and "-" + u are their own trimmed forms when u has no white space
      at either end. */
  lemma NegatedUntrimmed(u: string)
    requires |u| > 0 && LeadingSpace(u) == 0 && TrailingSpace(u) == 0
    ensures TrimEnd(TrimStart(StripBom(u))) == u
    ensures TrimEnd(TrimStart(StripBom("-" + u))) == "-" + u
  {
    var t := "-" + u;
    assert |u| >= 3 ==> u[..3][0] == u[0] && u[..3][1] == u[1] && u[..3][2] == u[2];
    Untrimmed(u);
    assert LeadingSpace(t) == 0;
    assert TrailingSpace(t) == 0 by {
      var k := |t|;
      assert t[0] == '-';
      assert t[k - 1] == u[|u| - 1];
      if |u| >= 2 {
        assert t[k - 2] == u[|u| - 2];
      }
      if |u| >= 3 {
        assert t[k - 3] == u[|u| - 3];
      }
    }
    assert !(|t| >= 3 && t[..3] == BOM) by {
      if |t| >= 3 {
        assert t[..3][0] == '-';
      }
    }
    Untrimmed(t);
  }

  /** A literal below 2^-1075 reads as 0, so it is loosely equal to 0. */
  lemma LooselyZeroUnderflow()
    ensures LooselyZero("1e-400")
  {
    var t := "1e-400";
    assert LeadingSpace(t) == 0 && TrailingSpace(t) == 0;
    Untrimmed(t);
    assert !IsNonDecimal(t);
    UnderflowLiteral();
  }

  lemma UnderflowLiteral()
    ensures UnsignedDecimal("1e-400") == Some(true)
  {
    UnderflowLiteralShape();
    PowBelowTenPower();
    assert RoundsToZero(1, -400);
  }

  lemma UnderflowLiteralShape()
    ensures UnsignedDecimal("1e-400") == Some(RoundsToZero(1, -400))
  {
    var u := "1e-400";
    assert SkipDigits(u, 1) == 1 && SkipDigits(u, 0) == 1;
    assert u[..1] == "1" && "1"[..0] == "";
    assert DecimalValue("1") == 1;
    assert SkipDigits(u, 6) == 6 && SkipDigits(u, 5) == 6 && SkipDigits(u, 4) == 6 && SkipDigits(u, 3) == 6;
    assert u[3..6] == "400" && "400"[..2] == "40" && "40"[..1] == "4" && "4"[..0] == "";
    assert DecimalValue("400") == 400;
  }

  /** A literal well above 2^-1075 keeps its sign: "1e-300" is positive. */
  lemma SmallNotLooselyZero()
    ensures ToNumberClass("1e-300") == Positive
  {
    var t := "1e-300";
    assert LeadingSpace(t) == 0 && TrailingSpace(t) == 0;
    Untrimmed(t);
    assert !IsNonDecimal(t);
    SmallLiteral();
  }

  lemma SmallLiteral()
    ensures UnsignedDecimal("1e-300") == Some(false)
  {
    SmallLiteralShape();
    PowAboveTenPower();
    assert !RoundsToZero(1, -300);
  }

  lemma SmallLiteralShape()
    ensures UnsignedDecimal("1e-300") == Some(RoundsToZero(1, -300))
  {
    var u := "1e-300";
    assert SkipDigits(u, 1) == 1 && SkipDigits(u, 0) == 1;
    assert u[..1] == "1" && "1"[..0] == "";
    assert DecimalValue("1") == 1;
    assert SkipDigits(u, 6) == 6 && SkipDigits(u, 5) == 6 && SkipDigits(u, 4) == 6 && SkipDigits(u, 3) == 6;
    assert u[3..6] == "300" && "300"[..2] == "30" && "30"[..1] == "3" && "3"[..0] == "";
    assert DecimalValue("300") == 300;
  }

  lemma {:induction false} PowAdd(b: nat, m: nat, n: nat)
    ensures Pow(b, m + n) == Pow(b, m) * Pow(b, n)
    decreases m
  {
    if m > 0 {
      PowAdd(b, m - 1, n);
      assert Pow(b, m + n) == b * Pow(b, m - 1 + n);
      assert b * (Pow(b, m - 1) * Pow(b, n)) == (b * Pow(b, m - 1)) * Pow(b, n);
    }
  }

  lemma {:induction false} PowMul(b: nat, k: nat, n: nat)
    ensures Pow(b, k * n) == Pow(Pow(b, k), n)
    decreases n
  {
    if n > 0 {
      PowMul(b, k, n - 1);
      assert k * n == k + k * (n - 1);
      PowAdd(b, k, k * (n - 1));
    }
  }

  lemma {:induction false} PowBase(a: nat, b: nat, n: nat)
    requires a <= b
    ensures Pow(a, n) <= Pow(b, n)
    decreases n
  {
    if n > 0 {
      PowBase(a, b, n - 1);
      var x, y := Pow(a, n - 1), Pow(b, n - 1);
      if a > 0 {
        MulLe(a, y, x);
        MulLe(y + 1, b, a);
        assert a * x <= a * y;
        assert a * y <= b * y;
      }
    }
  }

  lemma {:induction false} PowExp(b: nat, m: nat, n: nat)
    requires 1 <= b && m <= n
    ensures 1 <= Pow(b, m) <= Pow(b, n)
    decreases n
  {
    if m < n {
      PowExp(b, m, n - 1);
      assert Pow(b, n - 1) <= b * Pow(b, n - 1);
    } else if n > 0 {
      PowExp(b, 0, n - 1);
      assert 1 <= b * Pow(b, n - 1);
    }
  }

  /** 2^1075 <= 2^1200 = 8^400 <= 10^400. */
  lemma PowBelowTenPower()
    ensures Pow(2, 1075) <= Pow(10, 400)
  {
    PowExp(2, 1075, 1200);
    PowMul(2, 3, 400);
    assert Pow(2, 3) == 8;
    PowBase(8, 10, 400);
  }

  /** 10^300 = 1000^100 <= 1024^100 = 2^1000 < 2^1075. */
  lemma PowAboveTenPower()
    ensures Pow(10, 300) < Pow(2, 1075)
  {
    PowMul(10, 3, 100);
    assert Pow(10, 3) == 1000;
    PowBase(1000, 1024, 100);
    PowMul(2, 10, 100);
    assert Pow(2, 10) == 1024;
    var low, high := Pow(2, 1000), Pow(2, 75);
    PowAdd(2, 1000, 75);
    PowExp(2, 1, 75);
    PowExp(2, 0, 1000);
    assert Pow(2, 1) == 2;
    MulLe(low, high, 2);
    assert Pow(10, 300) <= low < low * high;
  }

  // ------------------------------------------------------ string ordering

  /** `a < b` on strings: code-unit order, a proper prefix first. */
  predicate Less(a: string, b: string)
    decreases |a|
  {
    if |a| == 0 then |b| > 0
    else if |b| == 0 then false
    else if a[0] != b[0] then a[0] < b[0]
    else Less(a[1..], b[1..])
  }

  lemma {:induction false} LessIrreflexive(a: string)
    ensures !Less(a, a)
    decreases |a|
  {
    if |a| > 0 {
      LessIrreflexive(a[1..]);
    }
  }

  lemma {:induction false} LessTrichotomy(a: string, b: string)
    ensures Less(a, b) || Less(b, a) || a == b
    ensures !(Less(a, b) && Less(b, a))
    decreases |a|
  {
    if |a| > 0 && |b| > 0 && a[0] == b[0] {
      LessTrichotomy(a[1..], b[1..]);
      if a[1..] == b[1..] {
        assert a == [a[0]] + a[1..] && b == [b[0]] + b[1..];
      }
    }
  }

  lemma {:induction false} LessTransitive(a: string, b: string, c: string)
    requires Less(a, b) && Less(b, c)
    ensures Less(a, c)
    decreases |a|
  {
    if |a| > 0 && a[0] == b[0] && b[0] == c[0] {
      LessTransitive(a[1..], b[1..], c[1..]);
    }
  }

  // ------------------------------------------------------------ lower case

  /** `s.toLowerCase() === c` for a one-letter lower-case ASCII string c:
      only c itself and its capital lower-case to it. */
  predicate LowerCaseIs(s: string, c: char)
    requires 'a' <= c <= 'z'
  {
    s == [c] || s == [(c as int - 32) as char]
  }
}
