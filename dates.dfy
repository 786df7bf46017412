/** `java.time.LocalDate` as the person record uses it: a calendar date in the
    ISO proleptic calendar, compared field by field and rendered as
    `yyyy-MM-dd`. */
module Dates {
  import opened JavaLang

  const MinYear: int := -999_999_999
  const MaxYear: int := 999_999_999

  datatype Date = Date(year: int, month: int, day: int)

  /** `IsoChronology.isLeapYear`. */
  predicate IsLeapYear(year: int) {
    year % 4 == 0 && (year % 100 != 0 || year % 400 == 0)
  }

  /** `LocalDate.lengthOfMonth`. */
  function LengthOfMonth(year: int, month: int): (n: int)
    requires 1 <= month <= 12
    ensures 28 <= n <= 31
    ensures month == 2 ==> (n == 29 <==> IsLeapYear(year))
  {
    if month == 2 then (if IsLeapYear(year) then 29 else 28)
    else if month == 4 || month == 6 || month == 9 || month == 11 then 30
    else 31
  }

  /** The dates `LocalDate.of` accepts. */
  predicate ValidDate(d: Date) {
    MinYear <= d.year <= MaxYear && 1 <= d.month <= 12 && 1 <= d.day <= LengthOfMonth(d.year, d.month)
  }

  type LocalDate = d: Date | ValidDate(d) witness Date(1970, 1, 1)

  /** `LocalDate.compareTo0`: the first non-zero difference of year, month, day. */
  function CompareTo(a: Date, b: Date): int {
    if a.year != b.year then a.year - b.year
    else if a.month != b.month then a.month - b.month
    else a.day - b.day
  }

  /** `LocalDate.isAfter`. */
  predicate IsAfter(a: Date, b: Date) {
    CompareTo(a, b) > 0
  }

  /** `isAfter` is a strict total order: never reflexive, transitive, and any
      two different dates are ordered one way or the other but not both. */
  lemma IsAfterStrictTotalOrder(a: Date, b: Date, c: Date)
    ensures !IsAfter(a, a)
    ensures IsAfter(a, b) && IsAfter(b, c) ==> IsAfter(a, c)
    ensures a != b <==> (IsAfter(a, b) != IsAfter(b, a))
  {
  }

  /** `isAfter` is the lexicographic order on (year, month, day). */
  lemma IsAfterLexicographic(a: Date, b: Date)
    ensures IsAfter(a, b) <==>
      a.year > b.year ||
      (a.year == b.year && a.month > b.month) ||
      (a.year == b.year && a.month == b.month && a.day > b.day)
  {
  }

  /** Four-digit, zero-padded rendering of a number below 1000, as
      `LocalDate.toString` builds it by appending `year + 10000` and deleting
      the leading `1`. */
  function Pad4(n: nat): (r: string)
    requires n < 1000
    ensures |r| == 4 && IsDigits(r) && ParseDecimal(r) == n
  {
    DecimalLength(n, 3);
    LeadingZerosIgnored(4 - |Decimal(n)|, Decimal(n));
    DecimalRoundTrip(n);
    Zeros(4 - |Decimal(n)|) + Decimal(n)
  }

  /** The month or day part: `"-0"` before a single digit, `"-"` otherwise. */
  function Field2(n: int): (r: string)
    requires 1 <= n <= 31
    ensures |r| == 3 && r[0] == '-' && IsDigits(r[1..]) && ParseDecimal(r[1..]) == n
  {
    if n < 10 then
      OneDigitField(n);
      "-0" + Decimal(n)
    else
      TwoDigitField(n);
      "-" + Decimal(n)
  }

  lemma OneDigitField(n: nat)
    requires n < 10
    ensures var r := "-0" + Decimal(n);
      |r| == 3 && r[0] == '-' && IsDigits(r[1..]) && ParseDecimal(r[1..]) == n
  {
    LeadingZerosIgnored(1, Decimal(n));
    DecimalRoundTrip(n);
    assert ("-0" + Decimal(n))[1..] == Zeros(1) + Decimal(n);
  }

  lemma TwoDigitField(n: nat)
    requires 10 <= n < 100
    ensures var r := "-" + Decimal(n);
      |r| == 3 && r[0] == '-' && IsDigits(r[1..]) && ParseDecimal(r[1..]) == n
  {
    DecimalLength(n, 1);
    DecimalLength(n, 2);
    DecimalRoundTrip(n);
    assert ("-" + Decimal(n))[1..] == Decimal(n);
  }

  /** The year part of `LocalDate.toString`. */
  function YearText(year: int): string
    requires MinYear <= year <= MaxYear
  {
    if -1000 < year < 1000 then
      (if year < 0 then "-" + Pad4(-year) else Pad4(year))
    else
      (if year > 9999 then "+" + IntText(year as int32) else IntText(year as int32))
  }

  /** `LocalDate.toString`: `yyyy-MM-dd`. */
  function DateText(d: LocalDate): string {
    YearText(d.year) + Field2(d.month) + Field2(d.day)
  }

  /** For years 0 to 9999 the year part is four digits that read back as the year. */
  lemma YearTextFourDigits(year: int)
    requires 0 <= year <= 9999
    ensures var y := YearText(year); |y| == 4 && IsDigits(y) && ParseDecimal(y) == year
  {
    if year >= 1000 {
      FourDigitDecimal(year);
      assert YearText(year) == IntText(year as int32) == Decimal(year);
    } else {
      assert YearText(year) == Pad4(year);
    }
  }

  lemma FourDigitDecimal(n: nat)
    requires 1000 <= n <= 9999
    ensures |Decimal(n)| == 4 && ParseDecimal(Decimal(n)) == n
  {
    assert Pow10(3) == 1000 && Pow10(4) == 10000;
    DecimalLength(n, 4);
    DecimalLength(n, 3);
    DecimalRoundTrip(n);
  }

  /** Where the fields sit in `y + m + d` for a four-character year and
      three-character month and day parts. */
  lemma FieldPositions(y: string, m: string, d: string)
    requires |y| == 4 && |m| == 3 && |d| == 3
    ensures var t := y + m + d;
      |t| == 10 && t[..4] == y && t[4] == m[0] && t[5..7] == m[1..] && t[7] == d[0] && t[8..] == d[1..]
  {
  }

  /** For years 0 to 9999 the rendering is exactly ten characters,
      `yyyy-MM-dd`, and each field reads back as the date's own. */
  lemma DateTextRoundTrip(d: LocalDate)
    requires 0 <= d.year <= 9999
    ensures var t := DateText(d);
      |t| == 10 && t[4] == '-' && t[7] == '-' &&
      IsDigits(t[..4]) && IsDigits(t[5..7]) && IsDigits(t[8..]) &&
      ParseDecimal(t[..4]) == d.year &&
      ParseDecimal(t[5..7]) == d.month &&
      ParseDecimal(t[8..]) == d.day
  {
    YearTextFourDigits(d.year);
    FieldPositions(YearText(d.year), Field2(d.month), Field2(d.day));
  }
}
