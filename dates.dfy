/**
 * The lodgement-date normalisation of scraper.js: moment's strict parse of
 * the format `D/MM/YYYY` followed by `format("YYYY-MM-DD")`, the extended
 * calendar-date form of ISO 8601.
 */
module Dates {
  import opened Wrappers
  import opened Text

  datatype Date = Date(year: nat, month: nat, day: nat)

  /** Leap years of the proleptic Gregorian calendar. */
  predicate IsLeapYear(y: nat) {
    y % 4 == 0 && (y % 100 != 0 || y % 400 == 0)
  }

  function DaysInMonth(y: nat, m: nat): (n: nat)
    requires 1 <= m <= 12
    ensures 28 <= n <= 31
  {
    if m == 2 then (if IsLeapYear(y) then 29 else 28)
    else if m == 4 || m == 6 || m == 9 || m == 11 then 30
    else 31
  }

  /** A real calendar date whose year fits in four digits. */
  predicate IsValidDate(d: Date) {
    d.year < 10000 && 1 <= d.month <= 12 && 1 <= d.day <= DaysInMonth(d.year, d.month)
  }

  /** A date that exists, such as the clock gives for the day of the run. */
  type CalendarDate = d: Date | IsValidDate(d) witness Date(1970, 1, 1)

  /** What moment prints for a date it could not parse. */
  const InvalidDate: string := "Invalid date"

  /** `D/MM/YYYY` with the day zero-filled to two digits or not. */
  function LodgementText(d: Date, padDay: bool): (s: string)
    requires IsValidDate(d)
  {
    Numeral(d.day, if padDay || d.day >= 10 then 2 else 1) + "/" + Numeral(d.month, 2) + "/" + Numeral(d.year, 4)
  }

  /** The `MM/YYYY` part and the day digits already split off. */
  function ParseMonthYear(dayDigits: string, rest: string): (r: Option<Date>)
    requires AllDigits(dayDigits)
  {
    if |rest| == 7 && AllDigits(rest[..2]) && rest[2] == '/' && AllDigits(rest[3..]) then
      var d := Date(NumeralValue(rest[3..]), NumeralValue(rest[..2]), NumeralValue(dayDigits));
      if IsValidDate(d) then Some(d) else None
    else None
  }

  /**
   * moment's strict `D/MM/YYYY`: a one- or two-digit day, a two-digit month,
   * a four-digit year, nothing else, and a date that exists.
   */
  function ParseLodgementDate(s: string): (r: Option<Date>)
    ensures r.Some? ==> IsValidDate(r.value)
  {
    if |s| == 9 && IsDigit(s[0]) && s[1] == '/' then ParseMonthYear(s[..1], s[2..])
    else if |s| == 10 && IsDigit(s[0]) && IsDigit(s[1]) && s[2] == '/' then ParseMonthYear(s[..2], s[3..])
    else None
  }

  /** `format("YYYY-MM-DD")`: each field can be read back from its digits. */
  function FormatIsoDate(d: Date): (s: string)
    requires IsValidDate(d)
    ensures |s| == 10 && s[4] == '-' && s[7] == '-'
    ensures AllDigits(s[..4]) && AllDigits(s[5..7]) && AllDigits(s[8..])
    ensures NumeralValue(s[..4]) == d.year && NumeralValue(s[5..7]) == d.month
            && NumeralValue(s[8..]) == d.day
  {
    var s := Numeral(d.year, 4) + "-" + Numeral(d.month, 2) + "-" + Numeral(d.day, 2);
    assert s[..4] == Numeral(d.year, 4);
    assert s[5..7] == Numeral(d.month, 2);
    assert s[8..] == Numeral(d.day, 2);
    s
  }

  /** The shape of every text `FormatIsoDate` produces. */
  predicate IsIsoDateText(s: string) {
    |s| == 10 && s[4] == '-' && s[7] == '-'
    && AllDigits(s[..4]) && AllDigits(s[5..7]) && AllDigits(s[8..])
    && IsValidDate(Date(NumeralValue(s[..4]), NumeralValue(s[5..7]), NumeralValue(s[8..])))
  }

  /** Distinct dates give distinct ISO texts. */
  lemma FormatIsoDateInjective(d1: Date, d2: Date)
    requires IsValidDate(d1) && IsValidDate(d2)
    requires FormatIsoDate(d1) == FormatIsoDate(d2)
    ensures d1 == d2
  {
  }

  /** Strict parse followed by ISO formatting; `None` is moment's invalid date. */
  function NormaliseDate(s: string): (r: Option<string>)
    ensures r.Some? ==> IsIsoDateText(r.value)
  {
    match ParseLodgementDate(s)
    case None => None
    case Some(d) => Some(FormatIsoDate(d))
  }

  /** The received-date column: the ISO text, or moment's invalid-date text. */
  function ReceivedDateText(lodgement: string): (r: string)
    ensures r == InvalidDate || IsIsoDateText(r)
    ensures r == InvalidDate <==> ParseLodgementDate(lodgement).None?
    ensures ParseLodgementDate(lodgement).Some? ==> r == FormatIsoDate(ParseLodgementDate(lodgement).value)
  {
    match NormaliseDate(lodgement)
    case None => InvalidDate
    case Some(iso) => iso
  }

  lemma ParseMonthYearOfNumerals(d: Date, dd: string)
    requires IsValidDate(d) && AllDigits(dd) && NumeralValue(dd) == d.day
    ensures ParseMonthYear(dd, Numeral(d.month, 2) + "/" + Numeral(d.year, 4)) == Some(d)
  {
    var mm, yyyy := Numeral(d.month, 2), Numeral(d.year, 4);
    var rest := mm + "/" + yyyy;
    assert rest[..2] == mm && rest[3..] == yyyy;
  }

  /** A one- or two-digit day, then the slash, then the month and year. */
  lemma ParseDayThenRest(d: Date, w: nat)
    requires IsValidDate(d) && (w == 1 || w == 2) && d.day < Pow10(w)
    ensures ParseLodgementDate(Numeral(d.day, w) + "/" + (Numeral(d.month, 2) + "/" + Numeral(d.year, 4))) == Some(d)
  {
    var dd := Numeral(d.day, w);
    var rest := Numeral(d.month, 2) + "/" + Numeral(d.year, 4);
    var s := dd + "/" + rest;
    assert s[..w] == dd && s[w + 1..] == rest && s[w] == '/';
    ParseMonthYearOfNumerals(d, dd);
    if w == 1 {
      assert |s| == 9 && IsDigit(s[0]);
    } else {
      assert |s| == 10 && IsDigit(s[0]) && IsDigit(s[1]);
    }
  }

  /** Every date, written with or without the day's leading zero, parses back to itself. */
  lemma ParseLodgementText(d: Date, padDay: bool)
    requires IsValidDate(d)
    ensures ParseLodgementDate(LodgementText(d, padDay)) == Some(d)
  {
    var w := if padDay || d.day >= 10 then 2 else 1;
    var rest := Numeral(d.month, 2) + "/" + Numeral(d.year, 4);
    assert LodgementText(d, padDay) == Numeral(d.day, w) + "/" + rest;
    ParseDayThenRest(d, w);
  }

  /** The parts the month-and-year parse accepted are the zero-filled numerals of the date it yields. */
  lemma ParsedPartsAreNumerals(dayDigits: string, rest: string)
    requires AllDigits(dayDigits) && ParseMonthYear(dayDigits, rest).Some?
    ensures var d := ParseMonthYear(dayDigits, rest).value;
      dayDigits == Numeral(d.day, |dayDigits|) && rest == Numeral(d.month, 2) + "/" + Numeral(d.year, 4)
  {
    var mm, yyyy := rest[..2], rest[3..];
    NumeralOfValue(dayDigits);
    NumeralOfValue(mm);
    NumeralOfValue(yyyy);
    SlashSplit(rest, 2);
  }

  lemma SlashSplit(s: string, i: nat)
    requires i < |s| && s[i] == '/'
    ensures s == s[..i] + "/" + s[i + 1..]
  {
  }

  /** A text of a given day width splits into the day digits, a slash and the month and year. */
  lemma ParsedTextOfWidth(s: string, w: nat)
    requires (w == 1 || w == 2) && |s| == 8 + w && s[w] == '/'
    requires AllDigits(s[..w]) && ParseMonthYear(s[..w], s[w + 1..]).Some?
    ensures var d := ParseMonthYear(s[..w], s[w + 1..]).value;
      s == Numeral(d.day, w) + "/" + (Numeral(d.month, 2) + "/" + Numeral(d.year, 4))
  {
    ParsedPartsAreNumerals(s[..w], s[w + 1..]);
    assert s == s[..w] + "/" + s[w + 1..];
  }

  /** Strictness: the only texts accepted are the renderings of the date they yield. */
  lemma ParsedTextIsCanonical(s: string)
    requires ParseLodgementDate(s).Some?
    ensures s == LodgementText(ParseLodgementDate(s).value, |s| == 10)
  {
    if |s| == 10 {
      ParsedTextOfWidth(s, 2);
    } else {
      ParsedTextOfWidth(s, 1);
    }
  }

  /** The normalised date of either rendering of a date is its ISO text. */
  lemma NormaliseLodgementText(d: Date, padDay: bool)
    requires IsValidDate(d)
    ensures NormaliseDate(LodgementText(d, padDay)) == Some(FormatIsoDate(d))
  {
    ParseLodgementText(d, padDay);
  }

  /** The numerals and texts of the 5th of March 2019 used by the examples below. */
  lemma ExampleNumerals()
    ensures Numeral(5, 1) == "5" && Numeral(5, 2) == "05"
    ensures Numeral(3, 2) == "03" && Numeral(2019, 4) == "2019"
  {
  }

  lemma ShortDayParts()
    ensures LodgementText(Date(2019, 3, 5), false) == Numeral(5, 1) + "/" + Numeral(3, 2) + "/" + Numeral(2019, 4)
  {
  }

  lemma ShortDayText()
    ensures LodgementText(Date(2019, 3, 5), false) == "5/03/2019"
  {
    ExampleNumerals();
    ShortDayParts();
  }

  lemma PaddedDayParts()
    ensures LodgementText(Date(2019, 3, 5), true) == Numeral(5, 2) + "/" + Numeral(3, 2) + "/" + Numeral(2019, 4)
  {
  }

  lemma PaddedDayText()
    ensures LodgementText(Date(2019, 3, 5), true) == "05/03/2019"
  {
    ExampleNumerals();
    PaddedDayParts();
  }

  lemma IsoParts()
    ensures FormatIsoDate(Date(2019, 3, 5)) == Numeral(2019, 4) + "-" + Numeral(3, 2) + "-" + Numeral(5, 2)
  {
  }

  lemma IsoText()
    ensures FormatIsoDate(Date(2019, 3, 5)) == "2019-03-05"
  {
    ExampleNumerals();
    IsoParts();
  }

  /** The leading zero of the day is optional: both texts give the same ISO date. */
  lemma OptionalLeadingZeroExample()
    ensures NormaliseDate("5/03/2019") == Some("2019-03-05")
    ensures NormaliseDate("05/03/2019") == Some("2019-03-05")
  {
    ShortDayText();
    PaddedDayText();
    IsoText();
    NormaliseLodgementText(Date(2019, 3, 5), false);
    NormaliseLodgementText(Date(2019, 3, 5), true);
  }

  /** A one-digit month makes the text one character short. */
  lemma OneDigitMonthExample()
    ensures NormaliseDate("5/3/2019") == None
  {
    assert |"5/3/2019"| == 8;
  }

  /** A two-digit year makes the text two characters short. */
  lemma TwoDigitYearExample()
    ensures NormaliseDate("05/03/19") == None
  {
    assert |"05/03/19"| == 8;
  }

  /** Free text of the right length is refused at its first character. */
  lemma FreeTextExample()
    ensures NormaliseDate("not a date") == None
  {
    assert "not a date"[0] == 'n';
  }

  /** A one-digit month, a two-digit year or free text is refused. */
  lemma MalformedExamples()
    ensures NormaliseDate("5/3/2019") == None
    ensures NormaliseDate("05/03/19") == None
    ensures NormaliseDate("not a date") == None
  {
    OneDigitMonthExample();
    TwoDigitYearExample();
    FreeTextExample();
  }

  /** The 29th of February outside a leap year is refused rather than rolled over. */
  lemma NonLeapYearValues()
    ensures NumeralValue("29") == 29 && NumeralValue("02") == 2 && NumeralValue("2019") == 2019
  {
    assert "2019"[..3] == "201" && "201"[..2] == "20" && "20"[..1] == "2";
  }

  lemma NonLeapYearParts()
    ensures ParseLodgementDate("29/02/2019") == ParseMonthYear("29", "02/2019")
  {
    var s := "29/02/2019";
    assert s[..2] == "29" && s[3..] == "02/2019";
    var rest := "02/2019";
    assert rest[..2] == "02" && rest[3..] == "2019";
  }

  lemma NonLeapYearMonth()
    ensures ParseMonthYear("29", "02/2019") == None
  {
    NonLeapYearValues();
    var rest := "02/2019";
    assert rest[..2] == "02" && rest[3..] == "2019";
    assert !IsValidDate(Date(2019, 2, 29));
  }

  lemma NonLeapYearExample()
    ensures NormaliseDate("29/02/2019") == None
  {
    NonLeapYearParts();
    NonLeapYearMonth();
  }

  /** Day zero is refused. */
  lemma DayZeroExample()
    ensures NormaliseDate("0/01/2019") == None
  {
  }
}
