/**
 * ECMAScript `parseInt(string)` with no radix argument: leading white space
 * is skipped, one sign is read, a `0x`/`0X` prefix selects radix 16 and
 * radix 10 otherwise, and the longest run of digits is read. No digit at all
 * gives NaN, here `None`.
 */
module JsParseInt {
  import opened Wrappers
  import opened Text

  /** The value of a digit character in radices up to 36; 36 when the character is not a digit. */
  function DigitValue(c: char): nat {
    if '0' <= c <= '9' then c as int - '0' as int
    else if 'a' <= c <= 'z' then c as int - 'a' as int + 10
    else if 'A' <= c <= 'Z' then c as int - 'A' as int + 10
    else 36
  }

  /** Length of the leading run of digits of the given radix. */
  function DigitRun(s: string, radix: nat): (n: nat)
    ensures n <= |s|
    ensures forall j :: 0 <= j < n ==> DigitValue(s[j]) < radix
    ensures n < |s| ==> DigitValue(s[n]) >= radix
  {
    if |s| == 0 || DigitValue(s[0]) >= radix then 0 else 1 + DigitRun(s[1..], radix)
  }

  /** The number the digits denote, most significant first. */
  function ValueOf(digits: string, radix: nat): nat {
    if |digits| == 0 then 0
    else ValueOf(digits[..|digits| - 1], radix) * radix + DigitValue(digits[|digits| - 1])
  }

  /** The digits after the sign: a `0x`/`0X` prefix selects radix 16; `None` when no digit follows. */
  function Magnitude(u: string): Option<nat> {
    if |u| >= 2 && u[0] == '0' && (u[1] == 'x' || u[1] == 'X') then Digits(u[2..], 16)
    else Digits(u, 10)
  }

  /** The value of the leading run of digits of the given radix; `None` when there is none. */
  function Digits(v: string, radix: nat): Option<nat> {
    var run := DigitRun(v, radix);
    if run == 0 then None else Some(ValueOf(v[..run], radix))
  }

  /** `parseInt(s)`; `None` stands for NaN. */
  function ParseInt(s: string): Option<int> {
    var t := TrimStart(s);
    var negative := |t| > 0 && t[0] == '-';
    var u := if |t| > 0 && (t[0] == '-' || t[0] == '+') then t[1..] else t;
    Signed(negative, Magnitude(u))
  }

  /** Applies the sign read before the digits; NaN stays NaN. */
  function Signed(negative: bool, m: Option<nat>): Option<int> {
    match m
    case None => None
    case Some(v) => Some(if negative then -(v as int) else v as int)
  }

  // ---------------------------------------------------------------------
  // Reference: the plain decimal text of an integer, as `String(n)` writes it for a magnitude below 10^21

  function DigitChar(d: nat): char
    requires d < 10
  {
    ('0' as int + d) as char
  }

  predicate AllDigits(s: string) {
    forall j :: 0 <= j < |s| ==> '0' <= s[j] <= '9'
  }

  /** The decimal digits of `n`, without leading zeros. */
  function Decimal(n: nat): (r: string)
    ensures |r| >= 1
    ensures AllDigits(r)
  {
    if n < 10 then [DigitChar(n)] else Decimal(n / 10) + [DigitChar(n % 10)]
  }

  /** The decimal text of an integer, with a leading `-` when it is negative. */
  function IntToString(i: int): string {
    if i < 0 then "-" + Decimal(-i) else Decimal(i)
  }

  lemma {:induction false} DecimalValue(n: nat)
    ensures ValueOf(Decimal(n), 10) == n
  {
    if n >= 10 {
      DecimalValue(n / 10);
      var d := Decimal(n);
      assert d[..|d| - 1] == Decimal(n / 10);
    }
  }

  lemma AllDigitsRun(s: string)
    requires AllDigits(s)
    ensures DigitRun(s, 10) == |s|
  {
  }

  /** Decimal digits alone are read in radix 10, all of them. */
  lemma DecimalMagnitude(u: string)
    requires |u| >= 1 && AllDigits(u)
    ensures Magnitude(u) == Some(ValueOf(u, 10))
  {
    AllDigitsRun(u);
    assert u[..|u|] == u;
  }

  lemma TrimStartKeeps(s: string)
    requires |s| > 0 && !IsSpace(s[0])
    ensures TrimStart(s) == s
  {
  }

  lemma ParseIntMinus(s: string, u: string, m: nat)
    requires |s| > 0 && s[0] == '-' && s[1..] == u && Magnitude(u) == Some(m)
    ensures ParseInt(s) == Some(-(m as int))
  {
    TrimStartKeeps(s);
  }

  /** parseInt on a `-` followed by decimal digits only. */
  lemma ParseNegative(s: string, u: string)
    requires |u| >= 1 && AllDigits(u)
    requires |s| > 0 && s[0] == '-' && s[1..] == u
    ensures ParseInt(s) == Some(-(ValueOf(u, 10) as int))
  {
    DecimalMagnitude(u);
    ParseIntMinus(s, u, ValueOf(u, 10));
  }

  /** parseInt on decimal digits only. */
  lemma ParsePlain(u: string)
    requires |u| >= 1 && AllDigits(u)
    ensures ParseInt(u) == Some(ValueOf(u, 10) as int)
  {
    DecimalMagnitude(u);
    assert '0' <= u[0] <= '9';
    TrimStartKeeps(u);
  }

  /** `parseInt` of the plain decimal text of an integer gives that integer back. */
  lemma ParseIntRoundTrip(i: int)
    ensures ParseInt(IntToString(i)) == Some(i)
  {
    var n: nat := if i < 0 then -i else i;
    DecimalValue(n);
    if i < 0 {
      var s := IntToString(i);
      assert s[1..] == Decimal(n);
      ParseNegative(s, Decimal(n));
    } else {
      ParsePlain(Decimal(n));
    }
  }

  lemma ParseIntSeven()
    ensures ParseInt("7") == Some(7)
  {
    ParsePlain("7");
  }

  lemma ParseIntMinusThree()
    ensures ParseInt("-3") == Some(-3)
  {
    assert "-3"[1..] == "3";
    ParseNegative("-3", "3");
  }

  /** A value with no leading digit is NaN, not 0. */
  lemma ParseIntWord()
    ensures ParseInt("abc") == None
  {
    assert TrimStart("abc") == "abc";
    assert DigitValue('a') == 10;
  }

  /** Leading blanks are skipped and the digits end at the first non-digit. */
  lemma ParseIntSuffix()
    ensures ParseInt(" 12px") == Some(12)
  {
    assert " 12px"[1..] == "12px";
    assert TrimStart(" 12px") == "12px";
    assert "12px"[1..] == "2px" && "2px"[1..] == "px";
    assert DigitRun("px", 10) == 0;
    assert DigitRun("12px", 10) == 2;
    assert "12px"[..2] == "12";
    assert "12"[..1] == "1" && "1"[..0] == "";
    assert ValueOf("1", 10) == 1;
    assert ValueOf("12", 10) == 12;
    assert Magnitude("12px") == Some(12);
  }

  /** A `0x` prefix switches to radix 16; with no hexadecimal digit after it the result is NaN. */
  lemma ParseIntHex()
    ensures ParseInt("0x1f") == Some(31)
    ensures ParseInt("0x") == None
  {
    assert TrimStart("0x1f") == "0x1f";
    assert "0x1f"[2..] == "1f";
    assert "1f"[1..] == "f";
    assert DigitValue('f') == 15;
    assert DigitRun("1f", 16) == 2;
    assert "1f"[..2] == "1f";
    assert "1f"[..1] == "1" && "1"[..0] == "";
    assert ValueOf("1", 16) == 1;
    assert ValueOf("1f", 16) == 31;
    assert Magnitude("0x1f") == Some(31);
    assert TrimStart("0x") == "0x";
    assert "0x"[2..] == "";
    assert Magnitude("0x") == None;
  }
}
