/** The report windows shared by the Reports tab and the console reports
    menu: each is a test on a record's date (or vendor) relative to today. */
module ReportWindows {
  import opened Text
  import opened Transactions

  /** java.time.YearMonth. */
  datatype YearMonth = YearMonth(year: int, month: Month)

  function YearMonthOf(d: Date): YearMonth {
    YearMonth(d.year, d.month)
  }

  /** Months counted from January of year 0: a numbering of year-months
      used to state what month arithmetic must do. */
  function MonthIndex(ym: YearMonth): int {
    ym.year * 12 + ym.month - 1
  }

  /** The numbering is a bijection: year and month are its quotient and
      remainder by twelve. */
  lemma MonthIndexDivMod(ym: YearMonth)
    ensures MonthIndex(ym) / 12 == ym.year && MonthIndex(ym) % 12 == ym.month - 1
  {
  }

  lemma MonthIndexInjective(a: YearMonth, b: YearMonth)
    requires MonthIndex(a) == MonthIndex(b)
    ensures a == b
  {
    MonthIndexDivMod(a);
    MonthIndexDivMod(b);
  }

  /** YearMonth.minusMonths(1): January rolls back to December of the
      year before. */
  function MinusOneMonth(ym: YearMonth): (p: YearMonth)
    ensures MonthIndex(p) == MonthIndex(ym) - 1
  {
    if ym.month == 1 then YearMonth(ym.year - 1, 12) else YearMonth(ym.year, ym.month - 1)
  }

  /** The month before is the only year-month one step down the numbering. */
  lemma MinusOneMonthUnique(ym: YearMonth, p: YearMonth)
    requires MonthIndex(p) == MonthIndex(ym) - 1
    ensures p == MinusOneMonth(ym)
  {
    MonthIndexInjective(p, MinusOneMonth(ym));
  }

  /** The reports a user can run. VendorSearch holds the query already
      trimmed and lower-cased. */
  datatype Report = MonthToDate | PreviousMonth | YearToDate | PreviousYear | VendorSearch(query: string)

  /** Whether a report keeps record t when run on the given day. */
  predicate InWindow(r: Report, today: Date, t: Transaction) {
    match r
    case MonthToDate => t.date.year == today.year && t.date.month == today.month
    case PreviousMonth => YearMonthOf(t.date) == MinusOneMonth(YearMonthOf(today))
    case YearToDate => t.date.year == today.year
    case PreviousYear => t.date.year == today.year - 1
    case VendorSearch(q) => Contains(Lower(t.vendor), q)
  }

  function Window(r: Report, today: Date): Transaction -> bool {
    t => InWindow(r, today, t)
  }

  /** The report's title as both front ends print it. */
  function Title(r: Report): string {
    match r
    case MonthToDate => "MONTH TO DATE"
    case PreviousMonth => "PREVIOUS MONTH"
    case YearToDate => "YEAR TO DATE"
    case PreviousYear => "PREVIOUS YEAR"
    case VendorSearch(q) => "VENDOR SEARCH: " + q
  }

  lemma TitleNotEmpty(r: Report)
    ensures |Title(r)| > 0
  {
  }

  /** The query a vendor search runs with: the input trimmed, then
      lower-cased. */
  function VendorQuery(input: string): string {
    Lower(Trim(input))
  }

  /** The query is already in normal form: trimming or lower-casing it
      again changes nothing. */
  lemma VendorQueryIsNormal(input: string)
    ensures Trim(VendorQuery(input)) == VendorQuery(input)
    ensures Lower(VendorQuery(input)) == VendorQuery(input)
  {
    LowerTrim(input);
    TrimIdempotent(Lower(input));
    LowerIdempotent(Trim(input));
  }

  /** A vendor search keeps a record exactly when its vendor matches the
      input case-insensitively; an input that trims to nothing keeps
      every record. */
  lemma VendorSearchMatches(input: string, today: Date, t: Transaction)
    ensures InWindow(VendorSearch(VendorQuery(input)), today, t) == MatchesIgnoringCase(t.vendor, input)
    ensures Trim(input) == "" ==> InWindow(VendorSearch(VendorQuery(input)), today, t)
  {
  }

  /** The previous-month window holds exactly the records one month before
      today's month; in January that is December of the year before. */
  lemma PreviousMonthWindow(today: Date, t: Transaction)
    ensures InWindow(PreviousMonth, today, t)
        <==> MonthIndex(YearMonthOf(t.date)) == MonthIndex(YearMonthOf(today)) - 1
    ensures today.month == 1 ==>
      (InWindow(PreviousMonth, today, t) <==> t.date.year == today.year - 1 && t.date.month == 12)
  {
    if MonthIndex(YearMonthOf(t.date)) == MonthIndex(YearMonthOf(today)) - 1 {
      MinusOneMonthUnique(YearMonthOf(today), YearMonthOf(t.date));
    }
  }

  /** Month to date lies inside year to date, the previous month lies in
      this year or the previous one, and no record is in both this month
      and the previous one. */
  lemma WindowsNest(today: Date, t: Transaction)
    ensures InWindow(MonthToDate, today, t) ==> InWindow(YearToDate, today, t)
    ensures InWindow(PreviousMonth, today, t) ==> InWindow(YearToDate, today, t) || InWindow(PreviousYear, today, t)
    ensures !(InWindow(MonthToDate, today, t) && InWindow(PreviousMonth, today, t))
    ensures !(InWindow(YearToDate, today, t) && InWindow(PreviousYear, today, t))
  {
    PreviousMonthWindow(today, t);
  }

  /** "Month to date" does not look at the day: a record dated later in
      the current month is included. */
  lemma MonthToDateIgnoresDay(today: Date, t: Transaction)
    requires t.date.year == today.year && t.date.month == today.month && t.date.day > today.day
    ensures InWindow(MonthToDate, today, t)
  {
  }
}
