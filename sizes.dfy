/** Human-readable sizes (src/rules/mod.rs: `parse_size_string`,
    `format_size`). Units are binary multiples: 1 KB = 1024 B. */
module Sizes {
  import opened Text
  import opened Base

  const BytesPerKB: nat := 1024
  const BytesPerMB: nat := BytesPerKB * 1024
  const BytesPerGB: nat := BytesPerMB * 1024
  const BytesPerTB: nat := BytesPerGB * 1024

  /** Largest value of the u64 the source stores sizes in. */
  const U64Max: nat := 0xFFFF_FFFF_FFFF_FFFF

  const SizeUnits: seq<string> := ["B", "KB", "MB", "GB", "TB"]

  function Pow10(n: nat): (p: nat)
    ensures p >= 1
  {
    if n == 0 then 1 else 10 * Pow10(n - 1)
  }

  function Pow1024(n: nat): (p: nat)
    ensures p >= 1
  {
    if n == 0 then 1 else 1024 * Pow1024(n - 1)
  }

  /** The multiplier of each unit in SizeUnits. */
  function Multiplier(unit: nat): nat
    requires unit < |SizeUnits|
  {
    [1, BytesPerKB, BytesPerMB, BytesPerGB, BytesPerTB][unit]
  }

  lemma MultiplierIsPower(unit: nat)
    requires unit < |SizeUnits|
    ensures Multiplier(unit) == Pow1024(unit)
  {
  }

  /** The numeric part of a size, as the float parser reads it: a sign, a
      whole part and `fractionDigits` digits after the point. */
  datatype Decimal = Decimal(negative: bool, whole: nat, fraction: nat, fractionDigits: nat)

  /** Accepts [+|-] then digits with at most one point: "12", "1.5", "1.",
      ".5"; rejects "", ".", "+" and anything with other characters. */
  function ParseDecimal(s: string): (r: Option<Decimal>)
    ensures r.Some? ==> r.value.negative == (|s| > 0 && s[0] == '-')
  {
    var signed := |s| > 0 && (s[0] == '-' || s[0] == '+');
    var negative := signed && s[0] == '-';
    var body := if signed then s[1..] else s;
    var dot := IndexOf(body, '.');
    if dot == |body| then
      if |body| > 0 && AllDigits(body) then Some(Decimal(negative, DigitsValue(body), 0, 0)) else None
    else
      var whole := body[..dot];
      var fraction := body[dot + 1..];
      if |whole| + |fraction| > 0 && AllDigits(whole) && AllDigits(fraction) then
        Some(Decimal(negative, DigitsValue(whole), DigitsValue(fraction), |fraction|))
      else None
  }

  /** The value times `multiplier`, truncated toward zero (the `as u64` cast
      of a non-negative float), before saturation. */
  function Scale(d: Decimal, multiplier: nat): nat
  {
    Quotient(Times(Times(d.whole, Pow10(d.fractionDigits)) + d.fraction, multiplier), Pow10(d.fractionDigits))
  }

  function Times(a: nat, b: nat): nat
  {
    a * b
  }

  /** Division of naturals, rounding down. */
  function Quotient(a: nat, b: nat): nat
    requires b >= 1
  {
    a / b
  }

  /** A number without a fraction is scaled exactly. */
  lemma ScaleWhole(negative: bool, n: nat, multiplier: nat)
    ensures Scale(Decimal(negative, n, 0, 0), multiplier) == n * multiplier
  {
    assert Pow10(0) == 1;
  }

  /** `as u64` saturates values beyond the range of u64. */
  function Saturate(n: nat): (r: nat)
    ensures r <= U64Max
    ensures n <= U64Max ==> r == n
  {
    if n > U64Max then U64Max else n
  }

  /** The unit a letter before a final 'B' names: T, G, M or K. */
  function UnitLetter(c: char): (u: nat)
    ensures u < |SizeUnits|
    ensures u > 0 ==> SizeUnits[u] == [c, 'B']
  {
    if c == 'T' then 4 else if c == 'G' then 3 else if c == 'M' then 2 else if c == 'K' then 1 else 0
  }

  /** Splits the unit suffix off, trying TB, GB, MB, KB, then B, as the
      chain of `ends_with` tests does; a bare number is in bytes. Returns
      the number text and the unit's index in SizeUnits. */
  function SplitUnit(s: string): (r: (string, nat))
    ensures r.1 < |SizeUnits|
    ensures r.1 > 0 ==> s == r.0 + SizeUnits[r.1]
    ensures r.1 == 0 ==> s == r.0 || s == r.0 + "B"
    ensures r.1 == 0 && s == r.0 + "B" ==> r.0 == [] || UnitLetter(r.0[|r.0| - 1]) == 0
  {
    var n := |s|;
    if n >= 2 && s[n - 1] == 'B' && UnitLetter(s[n - 2]) > 0 then (s[..n - 2], UnitLetter(s[n - 2]))
    else if n >= 1 && s[n - 1] == 'B' then (s[..n - 1], 0)
    else (s, 0)
  }

  /** `parse_size_string`: trims and upper-cases the text, then reads it.
      Errors carry the trimmed upper-cased text. */
  function ParseSizeString(input: string): (r: Result<nat>)
    ensures r.Ok? ==> r.value <= U64Max
    ensures r.Err? ==> r.error.InvalidSizeFormat? && r.error.input == ToUpper(Trim(input))
    ensures Trim(input) == [] ==> r == Err(InvalidSizeFormat([], "Empty size string"))
  {
    ParseNormalised(ToUpper(Trim(input)))
  }

  /** Reads trimmed upper-cased text: strips the unit, reads the number,
      rejects negatives, and scales by the unit. */
  function ParseNormalised(s: string): (r: Result<nat>)
    ensures r.Ok? ==> r.value <= U64Max
    ensures r.Err? ==> r.error.InvalidSizeFormat? && r.error.input == s
    ensures s == [] ==> r == Err(InvalidSizeFormat([], "Empty size string"))
  {
    if s == [] then Err(InvalidSizeFormat(s, "Empty size string"))
    else
      var (numberPart, unit) := SplitUnit(s);
      match ParseDecimal(numberPart)
      case None => Err(InvalidSizeFormat(s, "Invalid size number: " + numberPart))
      case Some(d) =>
        if d.negative && (d.whole > 0 || d.fraction > 0) then
          Err(InvalidSizeFormat(s, "Size cannot be negative"))
        else
          Ok(Saturate(Scale(d, Multiplier(unit))))
  }

  /** The suffix written after a number for each unit index. */
  function Suffix(unit: nat): string
    requires unit < |SizeUnits|
  {
    SizeUnits[unit]
  }

  /** Once the text is trimmed and upper-cased, parsing depends only on the
      number part and the unit. */
  lemma ParseOfPrepared(text: string, number: string, unit: nat, d: Decimal)
    requires ToUpper(Trim(text)) == text && text != []
    requires SplitUnit(text) == (number, unit)
    requires ParseDecimal(number) == Some(d)
    ensures ParseSizeString(text)
         == if d.negative && (d.whole > 0 || d.fraction > 0) then Err(InvalidSizeFormat(text, "Size cannot be negative"))
            else Ok(Saturate(Scale(d, Multiplier(unit))))
  {
  }

  predicate NoLowerCase(t: string)
  {
    forall i | 0 <= i < |t| :: !('a' <= t[i] <= 'z')
  }

  /** Text with no outer whitespace and no lower-case letter is left alone
      by the trimming and upper-casing that parsing starts with. */
  lemma Normalised(t: string)
    requires t != [] && !IsWhitespace(t[0]) && !IsWhitespace(t[|t| - 1])
    requires NoLowerCase(t)
    ensures ToUpper(Trim(t)) == t
  {
    TrimUnpadded(t);
  }

  lemma ParseDecimalOfDigits(s: string)
    requires |s| >= 1 && AllDigits(s)
    ensures ParseDecimal(s) == Some(Decimal(false, DigitsValue(s), 0, 0))
  {
    assert s[0] != '-' && s[0] != '+';
  }

  /** The unit suffix is split off a number exactly; "KB" is never read as a
      number ending in 'K' followed by the unit "B". */
  lemma SplitUnitOfNumber(number: string, unit: nat, bare: bool)
    requires |number| >= 1 && UnitLetter(number[|number| - 1]) == 0 && number[|number| - 1] != 'B'
    requires unit < |SizeUnits|
    requires bare ==> unit == 0
    ensures SplitUnit(number + (if bare then "" else Suffix(unit))) == (number, unit)
  {
    var text := number + (if bare then "" else Suffix(unit));
    if bare {
      assert text == number;
    } else {
      assert text[..|number|] == number;
      assert text[|text| - 1] == 'B';
      if unit == 0 {
        assert text[|text| - 2] == number[|number| - 1];
      } else {
        assert text[|text| - 2] == Suffix(unit)[0];
      }
    }
  }

  /** Reads "<whole>.<fraction>" with both parts decimal digits. */
  lemma ParseDecimalOfFraction(whole: string, fraction: string)
    requires |whole| >= 1 && AllDigits(whole) && AllDigits(fraction)
    ensures ParseDecimal(whole + "." + fraction)
         == Some(Decimal(false, DigitsValue(whole), DigitsValue(fraction), |fraction|))
  {
    var s := whole + "." + fraction;
    assert s[0] == whole[0];
    var dot := IndexOf(s, '.');
    assert s[|whole|] == '.';
    assert s[..dot] == whole && s[dot + 1..] == fraction;
  }

  lemma NoLowerCaseAppend(a: string, b: string)
    requires NoLowerCase(a) && NoLowerCase(b)
    ensures NoLowerCase(a + b)
  {
    forall i | 0 <= i < |a + b|
      ensures !('a' <= (a + b)[i] <= 'z')
    {
      if i >= |a| {
        assert (a + b)[i] == b[i - |a|];
      }
    }
  }

  lemma SuffixNoLowerCase(unit: nat)
    requires unit < |SizeUnits|
    ensures NoLowerCase(Suffix(unit))
  {
  }

  /** A number followed by a unit suffix (or nothing) passes through the
      trimming and upper-casing unchanged, and the suffix comes off intact. */
  lemma NumberWithSuffix(number: string, unit: nat, bare: bool)
    requires |number| >= 1 && !IsWhitespace(number[0]) && NoLowerCase(number)
    requires UnitLetter(number[|number| - 1]) == 0 && number[|number| - 1] != 'B'
    requires bare ==> !IsWhitespace(number[|number| - 1])
    requires unit < |SizeUnits|
    requires bare ==> unit == 0
    ensures var text := number + (if bare then "" else Suffix(unit));
      ToUpper(Trim(text)) == text && SplitUnit(text) == (number, unit)
  {
    var text := number + (if bare then "" else Suffix(unit));
    SuffixNoLowerCase(unit);
    NoLowerCaseAppend(number, if bare then "" else Suffix(unit));
    assert text[0] == number[0];
    assert bare ==> text == number;
    assert !bare ==> text[|text| - 1] == 'B';
    Normalised(text);
    SplitUnitOfNumber(number, unit, bare);
  }

  lemma DigitsNoLowerCase(s: string)
    requires AllDigits(s)
    ensures NoLowerCase(s)
  {
  }

  /** Decimal digits with any unit suffix (or none) parse to their value
      times the unit's multiplier, saturated at the u64 maximum. */
  lemma ParseDigitsWithUnit(digits: string, unit: nat, bare: bool)
    requires |digits| >= 1 && AllDigits(digits)
    requires unit < |SizeUnits|
    requires bare ==> unit == 0
    ensures ParseSizeString(digits + (if bare then "" else Suffix(unit)))
         == Ok(Saturate(DigitsValue(digits) * Pow1024(unit)))
  {
    DigitsNoLowerCase(digits);
    NumberWithSuffix(digits, unit, bare);
    ParseDecimalOfDigits(digits);
    ParseOfPrepared(digits + (if bare then "" else Suffix(unit)), digits, unit, Decimal(false, DigitsValue(digits), 0, 0));
    ScaleWhole(false, DigitsValue(digits), Multiplier(unit));
    MultiplierIsPower(unit);
  }

  /** A whole number printed in decimal, with any unit suffix (or none),
      parses to the number times the unit's multiplier, saturated at the
      u64 maximum. */
  lemma ParseNumberWithUnit(n: nat, unit: nat, bare: bool)
    requires unit < |SizeUnits|
    requires bare ==> unit == 0
    ensures ParseSizeString(NatToString(n) + (if bare then "" else Suffix(unit)))
         == Ok(Saturate(n * Pow1024(unit)))
  {
    ParseDigitsWithUnit(NatToString(n), unit, bare);
    NatToStringRoundTrip(n);
  }

  /** The number part "<whole>.<fraction>" passes through unchanged and
      reads as that decimal. */
  lemma FractionPrepared(whole: string, fraction: string, unit: nat)
    requires |whole| >= 1 && AllDigits(whole) && AllDigits(fraction)
    requires unit < |SizeUnits|
    ensures var text := whole + "." + fraction + Suffix(unit);
      ToUpper(Trim(text)) == text && text != [] && SplitUnit(text) == (whole + "." + fraction, unit)
  {
    var number := whole + "." + fraction;
    DigitsNoLowerCase(whole);
    DigitsNoLowerCase(fraction);
    NoLowerCaseAppend(whole, ".");
    NoLowerCaseAppend(whole + ".", fraction);
    assert number[0] == whole[0];
    assert number[|number| - 1] == '.' || number[|number| - 1] == fraction[|fraction| - 1];
    NumberWithSuffix(number, unit, false);
  }

  /** A number with a fractional part, followed by any unit, is scaled by
      the unit's multiplier and truncated toward zero. */
  lemma ParseFractionWithUnit(whole: string, fraction: string, unit: nat)
    requires |whole| >= 1 && AllDigits(whole) && AllDigits(fraction)
    requires unit < |SizeUnits|
    ensures ParseSizeString(whole + "." + fraction + Suffix(unit))
         == Ok(Saturate(Scale(Decimal(false, DigitsValue(whole), DigitsValue(fraction), |fraction|), Pow1024(unit))))
  {
    FractionPrepared(whole, fraction, unit);
    ParseDecimalOfFraction(whole, fraction);
    ParseOfPrepared(whole + "." + fraction + Suffix(unit), whole + "." + fraction, unit,
      Decimal(false, DigitsValue(whole), DigitsValue(fraction), |fraction|));
    MultiplierIsPower(unit);
  }

  /** ParseNumberWithUnit for one concrete text and its expected value. */
  lemma ParseNumberInstance(n: nat, unit: nat, bare: bool, text: string, expected: nat)
    requires unit < |SizeUnits|
    requires bare ==> unit == 0
    requires text == NatToString(n) + (if bare then "" else Suffix(unit))
    requires expected == n * Pow1024(unit) && expected <= U64Max
    ensures ParseSizeString(text) == Ok(expected)
  {
    ParseNumberWithUnit(n, unit, bare);
  }

  // The examples of the source's unit test for `parse_size_string`.

  lemma ParseBareNumberExample()
    ensures ParseSizeString("100") == Ok(100)
  {
    ParseNumberInstance(100, 0, true, "100", 100);
  }

  lemma ParseBytesExample()
    ensures ParseSizeString("100B") == Ok(100)
  {
    ParseNumberInstance(100, 0, false, "100B", 100);
  }

  lemma ParseKilobytesExample()
    ensures ParseSizeString("1KB") == Ok(1024)
  {
    ParseNumberInstance(1, 1, false, "1KB", 1024);
  }

  lemma ParseMegabytesExample()
    ensures ParseSizeString("1MB") == Ok(1048576)
  {
    ParseNumberInstance(1, 2, false, "1MB", 1048576);
  }

  lemma ParseGigabytesExample()
    ensures ParseSizeString("1GB") == Ok(1073741824)
  {
    ParseNumberInstance(1, 3, false, "1GB", 1073741824);
  }

  lemma ParseFractionExample()
    ensures ParseSizeString("1.5MB") == Ok(1572864)
  {
    ParseFractionInstance("1.5MB");
  }

  lemma ParseFractionInstance(text: string)
    requires text == "1" + "." + "5" + Suffix(2)
    ensures ParseSizeString(text) == Ok(1572864)
  {
    assert DigitsValue("1") == 1 && DigitsValue("5") == 5;
    ParseFractionWithUnit("1", "5", 2);
    assert Pow10(1) == 10 && Pow1024(2) == 1048576;
    assert Scale(Decimal(false, 1, 5, 1), 1048576) == 1572864;
  }

  lemma ParsePaddedExample()
    ensures ParseSizeString("  2MB  ") == Ok(2097152)
  {
    ParseNumberInstance(2, 2, false, "2MB", 2097152);
    ParsePaddedInstance();
  }

  lemma ParsePaddedInstance()
    ensures ParseSizeString("  2MB  ") == ParseSizeString("2MB")
  {
    assert "  2MB  " == "  " + "2MB" + "  ";
    PaddingIgnored("  ", "2MB", "  ");
  }

  /** Any negative amount is refused, whatever unit follows. */
  lemma NegativeRejected(n: nat, unit: nat)
    requires n > 0 && unit < |SizeUnits|
    ensures ParseSizeString("-" + NatToString(n) + Suffix(unit))
         == Err(InvalidSizeFormat("-" + NatToString(n) + Suffix(unit), "Size cannot be negative"))
  {
    var digits := NatToString(n);
    NegativePrepared(digits, unit);
    ParseDecimalOfNegative(digits);
    NatToStringRoundTrip(n);
    ParseOfPrepared("-" + digits + Suffix(unit), "-" + digits, unit, Decimal(true, n, 0, 0));
  }

  lemma NegativePrepared(digits: string, unit: nat)
    requires |digits| >= 1 && AllDigits(digits) && unit < |SizeUnits|
    ensures var text := "-" + digits + Suffix(unit);
      ToUpper(Trim(text)) == text && text != [] && SplitUnit(text) == ("-" + digits, unit)
  {
    var number := "-" + digits;
    DigitsNoLowerCase(digits);
    NoLowerCaseAppend("-", digits);
    assert number[|number| - 1] == digits[|digits| - 1];
    NumberWithSuffix(number, unit, false);
  }

  lemma ParseDecimalOfNegative(digits: string)
    requires |digits| >= 1 && AllDigits(digits)
    ensures ParseDecimal("-" + digits) == Some(Decimal(true, DigitsValue(digits), 0, 0))
  {
    assert ("-" + digits)[1..] == digits;
    ParseDecimalOfDigits(digits);
  }

  /** Whitespace around a size does not change how it parses. */
  lemma PaddingIgnored(left: string, t: string, right: string)
    requires AllWhitespace(left) && AllWhitespace(right)
    requires t == [] || (!IsWhitespace(t[0]) && !IsWhitespace(t[|t| - 1]))
    ensures ParseSizeString(left + t + right) == ParseSizeString(t)
  {
    TrimPadded(left, t, right);
    TrimUnpadded(t);
    SameTrimSameParse(left + t + right, t);
  }

  lemma TrimUnpadded(t: string)
    requires t == [] || (!IsWhitespace(t[0]) && !IsWhitespace(t[|t| - 1]))
    ensures Trim(t) == t
  {
    TrimPadded([], t, []);
    assert [] + t + [] == t;
  }

  lemma SameTrimSameParse(a: string, b: string)
    requires Trim(a) == Trim(b)
    ensures ParseSizeString(a) == ParseSizeString(b)
  {
  }

  /** What `format_size` prints for byte counts below 1024 ("<n> B") is not
      accepted back by `parse_size_string`: the space stays in the number
      part once the unit is stripped. */
  lemma FormattedBytesRejected(n: nat)
    ensures ParseSizeString(NatToString(n) + " B").Err?
  {
    var digits := NatToString(n);
    assert digits + " B" == digits + " " + Suffix(0);
    SpacedPrepared(digits);
    NoNumberWithTrailingSpace(digits + " ");
  }

  lemma SpacedPrepared(digits: string)
    requires |digits| >= 1 && AllDigits(digits)
    ensures var text := digits + " " + Suffix(0);
      ToUpper(Trim(text)) == text && text != [] && SplitUnit(text) == (digits + " ", 0)
  {
    var number := digits + " ";
    DigitsNoLowerCase(digits);
    NoLowerCaseAppend(digits, " ");
    assert number[0] == digits[0];
    NumberWithSuffix(number, 0, false);
  }

  /** A number part ending in a space is not a number. */
  lemma NoNumberWithTrailingSpace(number: string)
    requires |number| >= 1 && number[|number| - 1] == ' '
    ensures ParseDecimal(number).None?
  {
    var signed := number[0] == '-' || number[0] == '+';
    var body := if signed then number[1..] else number;
    var dot := IndexOf(body, '.');
    if dot == |body| && |body| > 0 {
      assert !IsDigit(body[|body| - 1]);
    } else if dot < |body| {
      var fraction := body[dot + 1..];
      if fraction != [] {
        assert !IsDigit(fraction[|fraction| - 1]);
      }
    }
  }

  /** The unit `format_size` picks: how many times the value can be divided
      by 1024 while staying at least 1024, but never past TB. */
  function UnitIndex(size: nat): (k: nat)
    ensures k < |SizeUnits|
    ensures k > 0 ==> Pow1024(k) <= size
    ensures k < |SizeUnits| - 1 ==> size < Pow1024(k + 1)
  {
    if size < 1024 then 0
    else
      var k := UnitIndex(size / 1024);
      DividedBound(size, k);
      DividedBound(size, k + 1);
      if k == |SizeUnits| - 1 then k else k + 1
  }

  lemma DividedBound(size: nat, k: nat)
    ensures Pow1024(k) <= size / 1024 <==> Pow1024(k + 1) <= size
  {
    assert Pow1024(k + 1) == 1024 * Pow1024(k);
    var q := size / 1024;
    assert size == 1024 * q + size % 1024;
  }

  /** What `format_size` prints: a whole number of bytes ("<n> B"), or an
      amount with one decimal followed by a unit. */
  datatype SizeText = Bytes(count: nat) | Scaled(amount: real, unit: string)

  lemma PowMonotone(i: nat, j: nat)
    requires i <= j
    ensures Pow1024(i) <= Pow1024(j)
  {
    if i < j {
      PowMonotone(i, j - 1);
    }
  }

  /** Comparing a quotient with a bound is comparing the dividend with the
      scaled bound. */
  lemma QuotientBelow(x: real, p: real, c: real)
    requires p > 0.0
    ensures x / p < c <==> x < c * p
  {
    var q := x / p;
    assert x == q * p;
    if q < c {
      assert q * p < c * p;
    } else {
      assert q * p >= c * p;
    }
  }

  lemma QuotientStep(size: nat, k: nat)
    ensures size as real / Pow1024(k) as real / 1024.0 == size as real / Pow1024(k + 1) as real
  {
    assert Pow1024(k + 1) as real == 1024.0 * Pow1024(k) as real;
  }

  /** The loop of `format_size` stops at the unit UnitIndex names. */
  lemma FormatLoopExit(size: nat, unitIndex: nat)
    requires unitIndex < |SizeUnits|
    requires unitIndex > 0 ==> Pow1024(unitIndex) <= size
    requires unitIndex < |SizeUnits| - 1 ==> size as real / Pow1024(unitIndex) as real < 1024.0
    ensures unitIndex == UnitIndex(size)
  {
    if unitIndex < |SizeUnits| - 1 {
      BelowNextUnit(size, unitIndex);
    }
    var k := UnitIndex(size);
    if k < unitIndex {
      PowMonotone(k + 1, unitIndex);
    } else if unitIndex < k {
      PowMonotone(unitIndex + 1, k);
    }
  }

  lemma BelowNextUnit(size: nat, k: nat)
    requires size as real / Pow1024(k) as real < 1024.0
    ensures size < Pow1024(k + 1)
  {
    QuotientBelow(size as real, Pow1024(k) as real, 1024.0);
    assert Pow1024(k + 1) == 1024 * Pow1024(k);
  }

  /** One more round of the loop keeps its invariant. */
  lemma FormatLoopStep(size: nat, unitIndex: nat)
    requires size as real / Pow1024(unitIndex) as real >= 1024.0
    ensures Pow1024(unitIndex + 1) <= size
    ensures size as real / Pow1024(unitIndex) as real / 1024.0 == size as real / Pow1024(unitIndex + 1) as real
  {
    QuotientBelow(size as real, Pow1024(unitIndex) as real, 1024.0);
    assert Pow1024(unitIndex + 1) == 1024 * Pow1024(unitIndex);
    QuotientStep(size, unitIndex);
  }

  /** `format_size`: repeatedly divides by 1024 while the value is at least
      1024 and a larger unit remains. */
  method FormatSize(size: nat) returns (r: SizeText)
    ensures r.Bytes? <==> size < 1024
    ensures r.Bytes? ==> r.count == size
    ensures r.Scaled? ==> r.unit == SizeUnits[UnitIndex(size)]
    ensures r.Scaled? ==> r.amount == size as real / Pow1024(UnitIndex(size)) as real
  {
    var sizeF: real := size as real;
    var unitIndex: nat := 0;
    while sizeF >= 1024.0 && unitIndex < |SizeUnits| - 1
      invariant unitIndex < |SizeUnits|
      invariant sizeF == size as real / Pow1024(unitIndex) as real
      invariant unitIndex > 0 ==> Pow1024(unitIndex) <= size
    {
      FormatLoopStep(size, unitIndex);
      sizeF := sizeF / 1024.0;
      unitIndex := unitIndex + 1;
    }
    FormatLoopExit(size, unitIndex);
    if unitIndex == 0 {
      r := Bytes(size);
    } else {
      r := Scaled(sizeF, SizeUnits[unitIndex]);
    }
  }

  /** The boundaries the source's unit test pins down: 1023 stays in bytes,
      1024 is 1.0 KB, 1536 KB is 1.5 MB, 1 GB is 1.0 GB. */
  lemma FormatSizeExamples()
    ensures UnitIndex(100) == 0 && UnitIndex(1023) == 0
    ensures UnitIndex(1024) == 1 && 1024 as real / Pow1024(1) as real == 1.0
    ensures UnitIndex(1536 * 1024) == 2 && (1536 * 1024) as real / Pow1024(2) as real == 1.5
    ensures UnitIndex(1024 * 1024 * 1024) == 3
  {
    assert UnitIndex(1) == 0;
    assert UnitIndex(1536) == 1;
    assert UnitIndex(1024 * 1024) == 2;
  }
}
