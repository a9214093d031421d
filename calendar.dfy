/** Proleptic Gregorian dates, the day arithmetic of `pd.date_range(start,
    end)` with its default daily step, and the `strftime('%d-%m-%Y')`
    rendering that turns the range into the slider's date labels. */
module Calendar {

  datatype Date = Date(year: int, month: int, day: int)

  predicate IsLeapYear(y: int)
  {
    y % 4 == 0 && (y % 100 != 0 || y % 400 == 0)
  }

  function DaysInMonth(y: int, m: int): (r: int)
    requires 1 <= m <= 12
  {
    if m == 2 then (if IsLeapYear(y) then 29 else 28)
    else if m == 4 || m == 6 || m == 9 || m == 11 then 30
    else 31
  }

  function DaysInYear(y: int): (r: int)
  {
    if IsLeapYear(y) then 366 else 365
  }

  predicate ValidDate(d: Date)
  {
    1 <= d.year && 1 <= d.month <= 12 && 1 <= d.day <= DaysInMonth(d.year, d.month)
  }

  /** Days in the years 1 .. y-1. */
  function DaysBeforeYear(y: int): (r: int)
    requires y >= 1
  {
    var p := y - 1;
    365 * p + p / 4 - p / 100 + p / 400
  }

  /** Days in the months 1 .. m-1 of year y. */
  function DaysBeforeMonth(y: int, m: int): (r: int)
    requires 1 <= m <= 12
  {
    if m == 1 then 0 else DaysBeforeMonth(y, m - 1) + DaysInMonth(y, m - 1)
  }

  /** The day number of d, 0001-01-01 being day 1 (`date.toordinal()`). */
  function Ordinal(d: Date): (r: int)
    requires ValidDate(d)
  {
    DaysBeforeYear(d.year) + DaysBeforeMonth(d.year, d.month) + d.day
  }

  /** The first day of the month after d's. */
  function FirstOfNextMonth(d: Date): (r: Date)
  {
    if d.month == 12 then Date(d.year + 1, 1, 1) else Date(d.year, d.month + 1, 1)
  }

  lemma DaysBeforeDecember(y: int)
    ensures DaysBeforeMonth(y, 12) + 31 == DaysInYear(y)
  {
    assert DaysBeforeMonth(y, 2) == 31;
    assert DaysBeforeMonth(y, 3) == DaysInYear(y) - 306;
    assert DaysBeforeMonth(y, 4) == DaysInYear(y) - 275;
    assert DaysBeforeMonth(y, 5) == DaysInYear(y) - 245;
    assert DaysBeforeMonth(y, 6) == DaysInYear(y) - 214;
    assert DaysBeforeMonth(y, 7) == DaysInYear(y) - 184;
    assert DaysBeforeMonth(y, 8) == DaysInYear(y) - 153;
    assert DaysBeforeMonth(y, 9) == DaysInYear(y) - 122;
    assert DaysBeforeMonth(y, 10) == DaysInYear(y) - 92;
    assert DaysBeforeMonth(y, 11) == DaysInYear(y) - 61;
  }

  lemma DaysBeforeNextYear(y: int)
    requires y >= 1
    ensures DaysBeforeYear(y + 1) == DaysBeforeYear(y) + DaysInYear(y)
  {
    var p := y - 1;
    assert y / 4 == p / 4 + (if y % 4 == 0 then 1 else 0);
    assert y / 100 == p / 100 + (if y % 100 == 0 then 1 else 0);
    assert y / 400 == p / 400 + (if y % 400 == 0 then 1 else 0);
  }

  /** Stepping from d to the first of the next month advances the day
      number by the days left in d's month plus one. */
  lemma FirstOfNextMonthOrdinal(d: Date)
    requires ValidDate(d)
    ensures ValidDate(FirstOfNextMonth(d))
    ensures Ordinal(FirstOfNextMonth(d)) == Ordinal(d) + DaysInMonth(d.year, d.month) - d.day + 1
  {
    if d.month == 12 {
      DaysBeforeDecember(d.year);
      DaysBeforeNextYear(d.year);
    }
  }

  /** The days of d's year up to and including d fit in that year. */
  lemma {:induction false} MonthsFitInYear(y: int, m: int)
    requires 1 <= m <= 12
    ensures DaysBeforeMonth(y, m) + DaysInMonth(y, m) <= DaysInYear(y)
    decreases 12 - m
  {
    if m == 12 {
      DaysBeforeDecember(y);
    } else {
      MonthsFitInYear(y, m + 1);
    }
  }

  lemma {:induction false} MonthsBeforeNonNegative(y: int, m: int)
    requires 1 <= m <= 12
    ensures 0 <= DaysBeforeMonth(y, m)
  {
    if m > 1 {
      MonthsBeforeNonNegative(y, m - 1);
    }
  }

  /** Every day of year a comes before the first day of a later year b. */
  lemma {:induction false} YearsBefore(a: int, b: int)
    requires 1 <= a < b
    ensures DaysBeforeYear(a) + DaysInYear(a) <= DaysBeforeYear(b)
    decreases b - a
  {
    DaysBeforeNextYear(a);
    if a + 1 < b {
      YearsBefore(a + 1, b);
      DaysBeforeNextYear(a + 1);
    }
  }

  /** Day numbers never run backwards across years: a date numbered no
      later than another is in the same year or an earlier one. */
  lemma OrdinalYearOrder(a: Date, b: Date)
    requires ValidDate(a) && ValidDate(b) && Ordinal(a) <= Ordinal(b)
    ensures a.year <= b.year
  {
    if b.year < a.year {
      MonthsFitInYear(b.year, b.month);
      YearsBefore(b.year, a.year);
      MonthsBeforeNonNegative(a.year, a.month);
    }
  }

  /** d plus n days. Whole months are skipped at once, so the recursion
      depth is the number of month boundaries crossed. */
  function AddDays(d: Date, n: nat): (r: Date)
    requires ValidDate(d)
    ensures ValidDate(r)
    ensures Ordinal(r) == Ordinal(d) + n
    ensures d.year <= r.year <= d.year + n
    decreases n
  {
    var rest := DaysInMonth(d.year, d.month) - d.day;
    if n <= rest then Date(d.year, d.month, d.day + n)
    else
      FirstOfNextMonthOrdinal(d);
      AddDays(FirstOfNextMonth(d), n - rest - 1)
  }

  /** `pd.date_range(start, end)`: every day from start through end, both
      included, one day apart. */
  function DateRange(start: Date, end: Date): (r: seq<Date>)
    requires ValidDate(start) && ValidDate(end)
    ensures |r| == if Ordinal(end) < Ordinal(start) then 0 else Ordinal(end) - Ordinal(start) + 1
    ensures forall i :: 0 <= i < |r| ==> ValidDate(r[i]) && Ordinal(r[i]) == Ordinal(start) + i
    ensures forall i :: 0 <= i < |r| ==> start.year <= r[i].year <= start.year + i
  {
    if Ordinal(end) < Ordinal(start) then []
    else seq(Ordinal(end) - Ordinal(start) + 1, i requires 0 <= i => AddDays(start, i))
  }

  /** The character of a decimal digit. */
  function Digit(k: int): (r: char)
    requires 0 <= k < 10
  {
    (48 + k) as char
  }

  /** n in exactly two digits, zero-padded. */
  function Pad2(n: int): (r: string)
    requires 0 <= n < 100
  {
    [Digit(n / 10), Digit(n % 10)]
  }

  /** n in exactly four digits, zero-padded. */
  function Pad4(n: int): (r: string)
    requires 0 <= n < 10000
  {
    Pad2(n / 100) + Pad2(n % 100)
  }

  /** Years that render as four digits under `%Y`. */
  predicate FourDigitYear(d: Date)
  {
    1000 <= d.year <= 9999
  }

  /** `date.strftime('%d-%m-%Y')`. */
  function Strftime(d: Date): (r: string)
    requires ValidDate(d) && FourDigitYear(d)
    ensures |r| == 10 && r[2] == '-' && r[5] == '-'
  {
    Pad2(d.day) + "-" + Pad2(d.month) + "-" + Pad4(d.year)
  }

  lemma Pad2Injective(m: int, n: int)
    requires 0 <= m < 100 && 0 <= n < 100
    requires Pad2(m) == Pad2(n)
    ensures m == n
  {
    assert Pad2(m)[0] == Pad2(n)[0] && Pad2(m)[1] == Pad2(n)[1];
  }

  lemma Pad4Injective(m: int, n: int)
    requires 0 <= m < 10000 && 0 <= n < 10000
    requires Pad4(m) == Pad4(n)
    ensures m == n
  {
    assert Pad4(m)[..2] == Pad2(m / 100) && Pad4(n)[..2] == Pad2(n / 100);
    assert Pad4(m)[2..] == Pad2(m % 100) && Pad4(n)[2..] == Pad2(n % 100);
    Pad2Injective(m / 100, n / 100);
    Pad2Injective(m % 100, n % 100);
  }

  /** Different dates never share a label. */
  lemma StrftimeInjective(a: Date, b: Date)
    requires ValidDate(a) && FourDigitYear(a) && ValidDate(b) && FourDigitYear(b)
    requires a != b
    ensures Strftime(a) != Strftime(b)
  {
    if Strftime(a) == Strftime(b) {
      var s, t := Strftime(a), Strftime(b);
      assert s[..2] == Pad2(a.day) && t[..2] == Pad2(b.day);
      assert s[3..5] == Pad2(a.month) && t[3..5] == Pad2(b.month);
      assert s[6..] == Pad4(a.year) && t[6..] == Pad4(b.year);
      Pad2Injective(a.day, b.day);
      Pad2Injective(a.month, b.month);
      Pad4Injective(a.year, b.year);
    }
  }

  /** The first and last day of `datelist`. */
  const RangeStart := Date(2020, 1, 1)
  const RangeEnd := Date(2020, 4, 16)

  /** `pd.date_range(start, end).strftime("%d-%m-%Y")`: the label of every
      day from start through end, both included. The script calls it on
      RangeStart and RangeEnd. Labels are written with four-digit years. */
  function DateList(start: Date, end: Date): (r: seq<string>)
    requires ValidDate(start) && ValidDate(end) && FourDigitYear(start) && FourDigitYear(end)
    ensures |r| == |DateRange(start, end)|
    ensures forall i :: 0 <= i < |r| ==> |r[i]| == 10
  {
    var days := DateRange(start, end);
    RangeYears(start, end);
    seq(|days|, i requires 0 <= i < |days| => Strftime(days[i]))
  }

  /** Every day of a range lies between its ends' years. */
  lemma RangeYears(start: Date, end: Date)
    requires ValidDate(start) && ValidDate(end)
    ensures forall i :: 0 <= i < |DateRange(start, end)| ==>
      start.year <= DateRange(start, end)[i].year <= end.year
  {
    var days := DateRange(start, end);
    forall i | 0 <= i < |days|
      ensures days[i].year <= end.year
    {
      OrdinalYearOrder(days[i], end);
    }
  }

  lemma DateListAt(d: nat)
    requires d < 107
    ensures |DateList(RangeStart, RangeEnd)| == 107
    ensures FourDigitYear(AddDays(RangeStart, d))
    ensures DateList(RangeStart, RangeEnd)[d] == Strftime(AddDays(RangeStart, d))
  {
    assert |DateRange(RangeStart, RangeEnd)| == 107;
  }

  /** The range holds 107 labels, from 01-01-2020 to 16-04-2020; 2020 being a
      leap year, February contributes 29 of them. */
  lemma DateListEnds()
    ensures |DateList(RangeStart, RangeEnd)| == 107
    ensures DateList(RangeStart, RangeEnd)[0] == "01-01-2020"
    ensures DateList(RangeStart, RangeEnd)[106] == "16-04-2020"
  {
    DateListAt(0);
    DateListAt(106);
    LastDayOfRange();
    EndLabels();
  }

  lemma EndLabels()
    ensures Strftime(RangeStart) == "01-01-2020"
    ensures Strftime(RangeEnd) == "16-04-2020"
  {
  }

  /** Day 106 of the range is 2020-04-16, crossing three month ends on the
      way (31 days of January, 29 of February, 31 of March). */
  lemma LastDayOfRange()
    ensures AddDays(RangeStart, 106) == RangeEnd
  {
    assert AddDays(Date(2020, 4, 1), 15) == Date(2020, 4, 16);
    assert AddDays(Date(2020, 3, 1), 46) == AddDays(Date(2020, 4, 1), 15);
    assert AddDays(Date(2020, 2, 1), 75) == AddDays(Date(2020, 3, 1), 46);
    assert AddDays(RangeStart, 106) == AddDays(Date(2020, 2, 1), 75);
  }

  /** No two days of the range share a label. */
  lemma DateListDistinct(i: nat, j: nat)
    requires i < j < 107
    ensures |DateList(RangeStart, RangeEnd)| == 107
    ensures DateList(RangeStart, RangeEnd)[i] != DateList(RangeStart, RangeEnd)[j]
  {
    DateListAt(i);
    DateListAt(j);
    var a, b := AddDays(RangeStart, i), AddDays(RangeStart, j);
    assert Ordinal(a) != Ordinal(b);
    StrftimeInjective(a, b);
  }

  /** r holds, in order, the label of each of the 107 days counted from
      RangeStart. */
  ghost predicate LabelsOfRange(r: seq<string>)
  {
    |r| == 107 &&
    forall i :: 0 <= i < 107 ==>
      FourDigitYear(AddDays(RangeStart, i)) && r[i] == Strftime(AddDays(RangeStart, i))
  }

  /** Labels of the range run from 01-01-2020 through 16-04-2020. */
  lemma LabelsOfRangeEnds(r: seq<string>)
    requires LabelsOfRange(r)
    ensures r[0] == "01-01-2020" && r[106] == "16-04-2020"
  {
    DateListAt(0);
    DateListAt(106);
    DateListEnds();
  }

  /** `datelist`: the labels of the script's range, one per day, no two
      alike. */
  method RangeLabels() returns (r: seq<string>)
    ensures LabelsOfRange(r)
    ensures forall i, j :: 0 <= i < j < |r| ==> r[i] != r[j]
  {
    r := DateList(RangeStart, RangeEnd);
    forall i | 0 <= i < 107
      ensures FourDigitYear(AddDays(RangeStart, i)) && r[i] == Strftime(AddDays(RangeStart, i))
    {
      DateListAt(i);
    }
    forall i, j | 0 <= i < j < |r|
      ensures r[i] != r[j]
    {
      DateListDistinct(i, j);
    }
  }
}
