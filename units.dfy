/** `extractUnit` of the later revision on the text of a positional value:
    the suffix that follows the numeral at the start of the string. The
    source measures that numeral as `parseFloat(str).toString().length`;
    for a canonical numeral this is the length of the longest prefix of the
    form `-?d+(.d+)?`, which is what is computed here. */
module Units {

  predicate IsDigit(c: char) {
    '0' <= c <= '9'
  }

  predicate AllDigits(s: string) {
    forall i :: 0 <= i < |s| ==> IsDigit(s[i])
  }

  /** The number of decimal digits at the start of `s`. */
  function DigitRun(s: string): (n: nat)
    ensures n <= |s|
  {
    if s != [] && IsDigit(s[0]) then 1 + DigitRun(s[1..]) else 0
  }

  /** The length of the numeral `-?d+(.d+)?` at the start of `s`, or 0 when
      `s` does not start with one. */
  function NumeralLength(s: string): (n: nat)
    ensures n <= |s|
  {
    var sign := if s != [] && s[0] == '-' then 1 else 0;
    var whole := DigitRun(s[sign..]);
    if whole == 0 then 0 else sign + whole + FractionLength(s[sign + whole..])
  }

  /** The length of a fraction `.d+` at the start of `s`, or 0. */
  function FractionLength(s: string): (n: nat)
    ensures n <= |s|
  {
    if |s| >= 2 && s[0] == '.' && IsDigit(s[1]) then 1 + DigitRun(s[1..]) else 0
  }

  /** `extractUnit(str)` for a string `str`: `str.substr(numberLength)`. */
  function ExtractUnit(s: string): string {
    s[NumeralLength(s)..]
  }

  /** The text of a numeral: optional minus sign, whole digits, and a
      fraction after a point when there is one. */
  function Numeral(negative: bool, whole: string, fraction: string): string {
    (if negative then "-" else "") + whole + FractionText(fraction)
  }

  function FractionText(fraction: string): string {
    if fraction == [] then "" else "." + fraction
  }

  /** A unit suffix cannot be read as more of the numeral. */
  predicate StartsUnit(unit: string) {
    unit == [] || (!IsDigit(unit[0]) && unit[0] != '.')
  }

  lemma {:induction false} DigitRunOf(digits: string, rest: string)
    requires AllDigits(digits)
    requires rest == [] || !IsDigit(rest[0])
    ensures DigitRun(digits + rest) == |digits|
  {
    if digits == [] {
      assert digits + rest == rest;
    } else {
      assert (digits + rest)[1..] == digits[1..] + rest;
      DigitRunOf(digits[1..], rest);
    }
  }

  /** `extractUnit` recovers the unit of any numeral followed by a unit:
      "10px" gives "px", "-2.5em" gives "em", "0" gives "". */
  lemma ExtractUnitOfNumeral(negative: bool, whole: string, fraction: string, unit: string)
    requires whole != [] && AllDigits(whole) && AllDigits(fraction)
    requires StartsUnit(unit)
    ensures ExtractUnit(Numeral(negative, whole, fraction) + unit) == unit
  {
    var sign: string := if negative then "-" else "";
    var tail := FractionText(fraction) + unit;
    var s := Numeral(negative, whole, fraction) + unit;
    assert s == sign + whole + tail;
    FractionLengthOf(fraction, unit);
    NumeralLengthOf(sign, whole, tail);
    assert s[|s| - |unit|..] == unit;
  }

  /** The numeral at the start of `sign + whole + tail` spans the sign, the
      whole digits and the fraction at the start of `tail`. */
  lemma NumeralLengthOf(sign: string, whole: string, tail: string)
    requires sign == "" || sign == "-"
    requires whole != [] && AllDigits(whole)
    requires tail == [] || !IsDigit(tail[0])
    ensures NumeralLength(sign + whole + tail) == |sign| + |whole| + FractionLength(tail)
  {
    var s := sign + whole + tail;
    assert s[0] == if sign == "" then whole[0] else '-';
    assert s[|sign|..] == whole + tail;
    DigitRunOf(whole, tail);
    assert s[|sign| + |whole|..] == tail;
  }

  lemma FractionLengthOf(fraction: string, unit: string)
    requires AllDigits(fraction) && StartsUnit(unit)
    ensures FractionLength(FractionText(fraction) + unit) == |FractionText(fraction)|
    ensures FractionText(fraction) + unit == [] || !IsDigit((FractionText(fraction) + unit)[0])
  {
    var t := FractionText(fraction) + unit;
    if fraction == [] {
      assert t == unit;
    } else {
      assert t[1..] == fraction + unit;
      DigitRunOf(fraction, unit);
    }
  }

  /** `extractUnit` on positional values with a unit. */
  lemma ExtractUnitExamples()
    ensures ExtractUnit("10px") == "px"
    ensures ExtractUnit("-2.5em") == "em"
  {
    ExtractUnitOfNumeral(false, "10", "", "px");
    assert Numeral(false, "10", "") + "px" == "10px";
    ExtractUnitOfNumeral(true, "2", "5", "em");
    assert Numeral(true, "2", "5") + "em" == "-2.5em";
  }

  /** `extractUnit` on unitless numerals. */
  lemma ExtractUnitUnitless()
    ensures ExtractUnit("0") == ""
    ensures ExtractUnit("12.75") == ""
  {
    ExtractUnitOfNumeral(false, "0", "", "");
    assert Numeral(false, "0", "") + "" == "0";
    ExtractUnitOfNumeral(false, "12", "75", "");
    assert Numeral(false, "12", "75") + "" == "12.75";
  }
}
