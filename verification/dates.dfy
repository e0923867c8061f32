/** Date hierarchy values (`parseDMY` and `getDateHierarchyValue` of
    src/utils/pivotData.js): the year, quarter or month of a day-month-year
    string, or `"N/A"`. */
module Dates {
  import opened Wrappers
  import opened Strings
  import opened Records

  /** The hierarchy level a derived field asks for. */
  datatype Level = Year | Quarter | Month

  /** Month names as `toLocaleString('default', { month: 'long' })` gives
      them in an English locale. */
  const MonthNames: seq<string> := ["January", "February", "March", "April", "May", "June",
    "July", "August", "September", "October", "November", "December"]

  /** The characters a date string is split on. */
  const DateSeparators: set<char> := {'-', '/'}

  /** A calendar date; `month0` counts from 0, as `getMonth()` does. */
  datatype CivilDate = CivilDate(year: int, month0: nat, day: nat)

  predicate IsLeapYear(y: int)
  {
    (y % 4 == 0 && y % 100 != 0) || y % 400 == 0
  }

  function DaysInMonth(y: int, month0: nat): nat
    requires month0 < 12
  {
    if month0 == 1 then (if IsLeapYear(y) then 29 else 28)
    else if month0 == 3 || month0 == 5 || month0 == 8 || month0 == 10 then 30
    else 31
  }

  /** Day `d` of a month, with days past the end of the month carried into
      the following months. */
  function Carry(y: int, month0: nat, d: nat): (r: CivilDate)
    requires month0 < 12 && d >= 1
    ensures r.month0 < 12 && 1 <= r.day <= DaysInMonth(r.year, r.month0)
    ensures r.year >= y
    ensures d <= DaysInMonth(y, month0) ==> r == CivilDate(y, month0, d)
    decreases d
  {
    var len := DaysInMonth(y, month0);
    if d <= len then CivilDate(y, month0, d)
    else if month0 == 11 then Carry(y + 1, 0, d - len)
    else Carry(y, month0 + 1, d - len)
  }

  /** The year `new Date` reads from its first argument. */
  function FullYear(year: nat): nat
  {
    if year <= 99 then 1900 + year else year
  }

  /** `new Date(year, monthIndex, day)`: a year from 0 to 99 means 1900 plus
      that year, month indexes past 11 carry into the following years and days
      past the end of the month into the following months. */
  function MakeDate(year: nat, monthIndex: nat, day: nat): (r: CivilDate)
    requires day >= 1
    ensures r.month0 < 12 && 1 <= r.day <= DaysInMonth(r.year, r.month0)
    ensures r.year >= 100
  {
    Carry(FullYear(year) + monthIndex / 12, monthIndex % 12, day)
  }

  /** `Number(part)` for a piece of a date string: the empty string is 0, a
      string of decimal digits is its value, anything else is `NaN` (`None`). */
  function PartNumber(part: string): Option<nat>
  {
    if part == "" then Some(0) else ParseDigits(part)
  }

  /** The test `!day` fails: the part is a number other than 0. */
  predicate PartOk(n: Option<nat>)
  {
    n.Some? && n.value != 0
  }

  /** `parseDMY`: a date from "day-month-year" (either separator), or `None`
      for `null`. */
  function ParseDMY(s: string): Option<CivilDate>
  {
    if s == "" then None else DateOfParts(SplitOn(s, DateSeparators))
  }

  /** The date `parseDMY` builds from the pieces of its input. */
  function DateOfParts(parts: seq<string>): Option<CivilDate>
  {
    if |parts| != 3 then None
    else
      var day, month, year := PartNumber(parts[0]), PartNumber(parts[1]), PartNumber(parts[2]);
      if !PartOk(day) || !PartOk(month) || !PartOk(year) then None
      else Some(MakeDate(year.value, month.value - 1, day.value))
  }

  /** The value `getDateHierarchyValue` reads from a parsed date. */
  function LevelValue(date: CivilDate, level: Level): string
    requires date.month0 < 12 && date.year >= 0
  {
    match level
    case Year => NatToString(date.year)
    case Quarter => "Q" + NatToString(date.month0 / 3 + 1)
    case Month => MonthNames[date.month0]
  }

  /** The base value is one `getDateHierarchyValue` can take: `.split` is only
      reached for a truthy value, and it throws unless that value is a string. */
  predicate DateBaseOk(base: Option<Value>)
  {
    !Truthy(base) || base.value.Str?
  }

  /** `getDateHierarchyValue(base, level)`. */
  function HierarchyValue(base: Option<Value>, level: Level): string
    requires DateBaseOk(base)
  {
    if !Truthy(base) then "N/A"
    else
      match ParseDMY(base.value.s)
      case None => "N/A"
      case Some(date) => LevelValue(date, level)
  }

  /** A quarter is always one of Q1 to Q4, or `"N/A"`. */
  lemma QuarterLabels(base: Option<Value>)
    requires DateBaseOk(base)
    ensures HierarchyValue(base, Quarter) in ["N/A", "Q1", "Q2", "Q3", "Q4"]
  {
    if Truthy(base) && ParseDMY(base.value.s).Some? {
      var q := ParseDMY(base.value.s).value.month0 / 3 + 1;
      assert NatToString(q) == [DigitChar(q)];
      if q == 1 {
        assert "Q" + [DigitChar(1)] == "Q1";
      } else if q == 2 {
        assert "Q" + [DigitChar(2)] == "Q2";
      } else if q == 3 {
        assert "Q" + [DigitChar(3)] == "Q3";
      } else {
        assert "Q" + [DigitChar(4)] == "Q4";
      }
    }
  }

  /** No parsed date gives `"N/A"` at any level. */
  lemma LevelValueNotNA(date: CivilDate, level: Level)
    requires date.month0 < 12 && date.year >= 0
    ensures LevelValue(date, level) != "N/A"
  {
    match level
    case Year =>
      assert LevelValue(date, level)[0] != 'N';
    case Quarter =>
      assert LevelValue(date, level)[0] == 'Q';
    case Month =>
      assert MonthNames[date.month0][0] != 'N' || MonthNames[date.month0][1] != '/';
  }

  /** A derived field resolves to `"N/A"` exactly when its base value is not
      a non-empty string that splits on `-` or `/` into three parts, each a
      non-zero number. */
  lemma DerivedNAUnlessThreeNonZeroParts(base: Option<Value>, level: Level)
    requires DateBaseOk(base)
    ensures HierarchyValue(base, level) != "N/A" <==>
      (Truthy(base) &&
       var parts := SplitOn(base.value.s, DateSeparators);
       |parts| == 3 && PartOk(PartNumber(parts[0])) && PartOk(PartNumber(parts[1]))
       && PartOk(PartNumber(parts[2])))
  {
    if Truthy(base) {
      match ParseDMY(base.value.s)
      case None =>
      case Some(date) => LevelValueNotNA(date, level);
    }
  }

  /** Digits are never date separators. */
  lemma DigitsHaveNoSeparators(s: string)
    requires IsDigits(s)
    ensures forall i :: 0 <= i < |s| ==> s[i] !in DateSeparators
  {
    forall i | 0 <= i < |s| ensures s[i] !in DateSeparators {
      assert '0' <= s[i] <= '9';
    }
  }

  /** A string of three digit groups joined by separators splits into them. */
  lemma SplitThreeGroups(d: string, s1: char, m: string, s2: char, y: string)
    requires IsDigits(d) && IsDigits(m) && IsDigits(y)
    requires s1 in DateSeparators && s2 in DateSeparators
    ensures SplitOn(d + [s1] + m + [s2] + y, DateSeparators) == [d, m, y]
  {
    DigitsHaveNoSeparators(d);
    DigitsHaveNoSeparators(m);
    DigitsHaveNoSeparators(y);
    assert d + [s1] + m + [s2] + y == d + [s1] + (m + [s2] + y);
    SplitOnPiece(d, s1, m + [s2] + y, DateSeparators);
    SplitOnPiece(m, s2, y, DateSeparators);
    SplitOnWhole(y, DateSeparators);
  }

  /** Three pieces that read as non-zero numbers make `new Date(year, month - 1, day)`. */
  lemma DateOfGroups(d: string, m: string, y: string, day: nat, month: nat, year: nat)
    requires PartNumber(d) == Some(day) && PartNumber(m) == Some(month) && PartNumber(y) == Some(year)
    requires day >= 1 && month >= 1 && year >= 1
    ensures DateOfParts([d, m, y]) == Some(MakeDate(year, month - 1, day))
  {
  }

  /** "day-month-year" written with digit groups parses to `new Date(year, month - 1, day)`. */
  lemma ParseThreeGroups(s: string, d: string, s1: char, m: string, s2: char, y: string,
                         day: nat, month: nat, year: nat)
    requires s == d + [s1] + m + [s2] + y
    requires ParseDigits(d) == Some(day) && ParseDigits(m) == Some(month) && ParseDigits(y) == Some(year)
    requires s1 in DateSeparators && s2 in DateSeparators
    requires day >= 1 && month >= 1 && year >= 1
    ensures ParseDMY(s) == Some(MakeDate(year, month - 1, day))
  {
    assert IsDigits(d) && IsDigits(m) && IsDigits(y) && d != "" && m != "" && y != "";
    SplitThreeGroups(d, s1, m, s2, y);
    DateOfGroups(d, m, y, day, month, year);
    assert s != "" by { assert |s| > 0; }
  }

  /** A day that exists in its month is not carried. */
  lemma MakeDateInRange(year: nat, month0: nat, day: nat)
    requires month0 < 12 && 1 <= day <= DaysInMonth(FullYear(year), month0)
    ensures MakeDate(year, month0, day) == CivilDate(FullYear(year), month0, day)
  {
  }

  /** For a valid "day-month-year" date (either separator), the levels are the
      year (two-digit years read as 19xx), the quarter `Q(floor((month-1)/3)+1)`
      and the month's name. */
  lemma ValidDateLevels(d: string, s1: char, m: string, s2: char, y: string,
                        day: nat, month: nat, year: nat)
    requires ParseDigits(d) == Some(day) && ParseDigits(m) == Some(month) && ParseDigits(y) == Some(year)
    requires s1 in DateSeparators && s2 in DateSeparators
    requires 1 <= month <= 12 && year >= 1
    requires 1 <= day <= DaysInMonth(FullYear(year), month - 1)
    ensures var base := Some(Str(d + [s1] + m + [s2] + y));
      DateBaseOk(base) &&
      HierarchyValue(base, Year) == NatToString(FullYear(year)) &&
      HierarchyValue(base, Quarter) == "Q" + NatToString((month - 1) / 3 + 1) &&
      HierarchyValue(base, Month) == MonthNames[month - 1]
  {
    var s := d + [s1] + m + [s2] + y;
    ParseValidDate(s, d, s1, m, s2, y, day, month, year);
    ParsedLevels(s, day, month, year);
  }

  /** A valid "day-month-year" date parses to exactly that calendar day. */
  lemma ParseValidDate(s: string, d: string, s1: char, m: string, s2: char, y: string,
                       day: nat, month: nat, year: nat)
    requires s == d + [s1] + m + [s2] + y
    requires ParseDigits(d) == Some(day) && ParseDigits(m) == Some(month) && ParseDigits(y) == Some(year)
    requires s1 in DateSeparators && s2 in DateSeparators
    requires 1 <= month <= 12 && year >= 1
    requires 1 <= day <= DaysInMonth(FullYear(year), month - 1)
    ensures ParseDMY(s) == Some(CivilDate(FullYear(year), month - 1, day))
  {
    ParseThreeGroups(s, d, s1, m, s2, y, day, month, year);
    MakeDateInRange(year, month - 1, day);
  }

  /** A string that parses to the calendar day `day`/`month`/`FullYear(year)`
      has that year, that month's quarter and that month's name as levels. */
  lemma ParsedLevels(s: string, day: nat, month: nat, year: nat)
    requires 1 <= month <= 12
    requires ParseDMY(s) == Some(CivilDate(FullYear(year), month - 1, day))
    ensures var base := Some(Str(s));
      DateBaseOk(base) &&
      HierarchyValue(base, Year) == NatToString(FullYear(year)) &&
      HierarchyValue(base, Quarter) == "Q" + NatToString((month - 1) / 3 + 1) &&
      HierarchyValue(base, Month) == MonthNames[month - 1]
  {
    assert s != "";
  }

  lemma Parse2023() ensures ParseDigits("2023") == Some(2023)
  {
    DigitsAppend("", '2');
    assert "" + ['2'] == "2";
    DigitsAppend("2", '0');
    assert "2" + ['0'] == "20";
    DigitsAppend("20", '2');
    assert "20" + ['2'] == "202";
    DigitsAppend("202", '3');
    assert "202" + ['3'] == "2023";
  }

  /** A date written with the groups 15, 3 and 2023 (such as "15-03-2023" or
      "15/3/2023") is in 2023, in Q1 and in March. */
  lemma MidMarchExample(d: string, s1: char, m: string, s2: char, y: string)
    requires ParseDigits(d) == Some(15) && ParseDigits(m) == Some(3) && ParseDigits(y) == Some(2023)
    requires s1 in DateSeparators && s2 in DateSeparators
    ensures var base := Some(Str(d + [s1] + m + [s2] + y));
      HierarchyValue(base, Year) == "2023" &&
      HierarchyValue(base, Quarter) == "Q1" &&
      HierarchyValue(base, Month) == "March"
  {
    ValidDateLevels(d, s1, m, s2, y, 15, 3, 2023);
    Parse2023();
    PrintParsed("2023");
    assert "Q" + NatToString(1) == "Q1";
  }

  /** The first piece of "not-a-date" is not a number:
      every level of it is `"N/A"`. */
  lemma NotADate()
    ensures forall level :: HierarchyValue(Some(Str("not-a-date")), level) == "N/A"
  {
    assert "not-a-date" == "not" + ['-'] + "a-date";
    assert !IsDigits("not") by { assert !('0' <= "not"[0] <= '9'); }
    FirstPieceNotNumber("not", '-', "a-date");
  }

  /** A date string whose first piece is not a number does not parse. */
  lemma FirstPieceNotNumber(a: string, c: char, b: string)
    requires a != "" && !IsDigits(a) && c in DateSeparators
    requires forall i :: 0 <= i < |a| ==> a[i] !in DateSeparators
    ensures ParseDMY(a + [c] + b) == None
  {
    SplitOnPiece(a, c, b, DateSeparators);
    assert PartNumber(a).None?;
  }

  /** `new Date` carries a day past the end of the month into the next month:
      the 31st of February 2023 (as in "31-02-2023") falls in March. */
  lemma DayCarryExample(d: string, s1: char, m: string, s2: char, y: string)
    requires ParseDigits(d) == Some(31) && ParseDigits(m) == Some(2) && ParseDigits(y) == Some(2023)
    requires s1 in DateSeparators && s2 in DateSeparators
    ensures HierarchyValue(Some(Str(d + [s1] + m + [s2] + y)), Month) == "March"
  {
    ParseThreeGroups(d + [s1] + m + [s2] + y, d, s1, m, s2, y, 31, 2, 2023);
    assert MakeDate(2023, 1, 31) == CivilDate(2023, 2, 3);
  }

  /** A month 13 carries into January of the next year ("01-13-2023" is in
      January 2024). */
  lemma MonthCarryExample(d: string, s1: char, m: string, s2: char, y: string)
    requires ParseDigits(d) == Some(1) && ParseDigits(m) == Some(13) && ParseDigits(y) == Some(2023)
    requires s1 in DateSeparators && s2 in DateSeparators
    ensures var base := Some(Str(d + [s1] + m + [s2] + y));
      HierarchyValue(base, Year) == "2024" && HierarchyValue(base, Month) == "January"
  {
    ParseThreeGroups(d + [s1] + m + [s2] + y, d, s1, m, s2, y, 1, 13, 2023);
    assert MakeDate(2023, 12, 1) == CivilDate(2024, 0, 1);
    Parse2024();
    PrintParsed("2024");
  }

  /** A two-digit year is read as a year of the 1900s ("15-03-23" is in 1923). */
  lemma TwoDigitYearExample(d: string, s1: char, m: string, s2: char, y: string)
    requires ParseDigits(d) == Some(15) && ParseDigits(m) == Some(3) && ParseDigits(y) == Some(23)
    requires s1 in DateSeparators && s2 in DateSeparators
    ensures HierarchyValue(Some(Str(d + [s1] + m + [s2] + y)), Year) == "1923"
  {
    ParseThreeGroups(d + [s1] + m + [s2] + y, d, s1, m, s2, y, 15, 3, 23);
    assert MakeDate(23, 2, 15) == CivilDate(1923, 2, 15);
    Parse1923();
    PrintParsed("1923");
  }

  lemma Parse2024() ensures ParseDigits("2024") == Some(2024)
  {
    DigitsAppend("", '2');
    assert "" + ['2'] == "2";
    DigitsAppend("2", '0');
    assert "2" + ['0'] == "20";
    DigitsAppend("20", '2');
    assert "20" + ['2'] == "202";
    DigitsAppend("202", '4');
    assert "202" + ['4'] == "2024";
  }

  lemma Parse1923() ensures ParseDigits("1923") == Some(1923)
  {
    DigitsAppend("", '1');
    assert "" + ['1'] == "1";
    DigitsAppend("1", '9');
    assert "1" + ['9'] == "19";
    DigitsAppend("19", '2');
    assert "19" + ['2'] == "192";
    DigitsAppend("192", '3');
    assert "192" + ['3'] == "1923";
  }
}
