/** ReportsPanel: the Reports tab. Each button loads every transaction,
    keeps the ones in its window, and shows them newest first with their
    total; Refresh re-runs the last report. Today's date is a parameter
    where the panel reads the clock. */
module ReportsView {
  import opened Wrappers
  import opened Text
  import opened Transactions
  import opened Sorting
  import opened Store
  import opened ReportWindows

  /** The title label's text for a report name; the empty name is the
      initial state. */
  function TitleText(name: string): (text: string)
    ensures name == "" ==> text == "Pick a report..."
    ensures name != "" ==> |text| == 8 + |name| && text[..8] == "Report: " && text[8..] == name
  {
    if name == "" then "Pick a report..." else "Report: " + name
  }

  class ReportsPanel {
    var title: string
    /** The report table's rows. */
    var rows: seq<Transaction>
    /** The total label's value, and whether it is painted green. */
    var total: int
    var totalInGreen: bool
    /** lastReportAction: the report Refresh re-runs, if one was run. */
    var lastReport: Option<Report>

    constructor ()
      ensures title == "Pick a report..." && rows == [] && total == 0 && totalInGreen
      ensures lastReport == None
    {
      lastReport := None;
      new;
      SetReport("", []);
    }

    /** setReport: the title, the rows sorted newest first by (date, time)
        and their total. */
    method SetReport(name: string, transactions: seq<Transaction>)
      modifies this`title, this`rows, this`total, this`totalInGreen
      ensures title == TitleText(name)
      ensures rows == SortNewestFirst(ByDateTime, transactions)
      ensures total == Total(rows) == Total(transactions) && totalInGreen == (total >= 0)
    {
      title := TitleText(name);
      rows := SortNewestFirst(ByDateTime, transactions);
      total := SumAmounts(rows);
      SortKeepsTotal(ByDateTime, transactions);
      totalInGreen := total >= 0;
    }

    /** The body every report shares: one pass over the loaded rows keeping
        those in the window, then setReport. */
    method RunReport(r: Report, store: TransactionStore, today: Date)
      modifies this`title, this`rows, this`total, this`totalInGreen
      ensures title == "Report: " + Title(r)
      ensures rows == SortNewestFirst(ByDateTime, Select(store.Load(), Window(r, today)))
      ensures total == Total(rows) && totalInGreen == (total >= 0)
    {
      var filtered := Collect(store.Load(), Window(r, today));
      TitleNotEmpty(r);
      SetReport(Title(r), filtered);
    }

    method ShowMonthToDate(store: TransactionStore, today: Date)
      modifies this
      ensures lastReport == Some(MonthToDate)
      ensures title == "Report: " + Title(MonthToDate)
      ensures rows == SortNewestFirst(ByDateTime, Select(store.Load(), Window(MonthToDate, today)))
      ensures total == Total(rows) && totalInGreen == (total >= 0)
    {
      lastReport := Some(MonthToDate);
      RunReport(MonthToDate, store, today);
    }

    method ShowPreviousMonth(store: TransactionStore, today: Date)
      modifies this
      ensures lastReport == Some(PreviousMonth)
      ensures title == "Report: " + Title(PreviousMonth)
      ensures rows == SortNewestFirst(ByDateTime, Select(store.Load(), Window(PreviousMonth, today)))
      ensures total == Total(rows) && totalInGreen == (total >= 0)
    {
      lastReport := Some(PreviousMonth);
      RunReport(PreviousMonth, store, today);
    }

    method ShowYearToDate(store: TransactionStore, today: Date)
      modifies this
      ensures lastReport == Some(YearToDate)
      ensures title == "Report: " + Title(YearToDate)
      ensures rows == SortNewestFirst(ByDateTime, Select(store.Load(), Window(YearToDate, today)))
      ensures total == Total(rows) && totalInGreen == (total >= 0)
    {
      lastReport := Some(YearToDate);
      RunReport(YearToDate, store, today);
    }

    method ShowPreviousYear(store: TransactionStore, today: Date)
      modifies this
      ensures lastReport == Some(PreviousYear)
      ensures title == "Report: " + Title(PreviousYear)
      ensures rows == SortNewestFirst(ByDateTime, Select(store.Load(), Window(PreviousYear, today)))
      ensures total == Total(rows) && totalInGreen == (total >= 0)
    {
      lastReport := Some(PreviousYear);
      RunReport(PreviousYear, store, today);
    }

    /** searchByVendor: a cancelled dialog (None) changes nothing; otherwise
        the search runs with the trimmed, lower-cased input and becomes the
        report Refresh re-runs. */
    method SearchByVendor(input: Option<string>, store: TransactionStore, today: Date)
      modifies this
      ensures input.None? ==> unchanged(this)
      ensures input.Some? ==> lastReport == Some(VendorSearch(VendorQuery(input.value)))
      ensures input.Some? ==> title == "Report: " + Title(lastReport.value)
      ensures input.Some? ==> rows == SortNewestFirst(ByDateTime, Select(store.Load(), Window(lastReport.value, today)))
      ensures input.Some? ==> total == Total(rows) && totalInGreen == (total >= 0)
    {
      match input {
        case None =>
        case Some(text) =>
          var r := VendorSearch(VendorQuery(text));
          lastReport := Some(r);
          RunReport(r, store, today);
      }
    }

    /** The Refresh button: re-run the last report against the current rows
        and date, or show the empty initial report. */
    method Refresh(store: TransactionStore, today: Date)
      modifies this
      ensures lastReport == old(lastReport)
      ensures lastReport.None? ==> title == "Pick a report..." && rows == [] && total == 0
      ensures lastReport.Some? ==>
        && title == "Report: " + Title(lastReport.value)
        && rows == SortNewestFirst(ByDateTime, Select(store.Load(), Window(lastReport.value, today)))
      ensures total == Total(rows) && totalInGreen == (total >= 0)
    {
      match lastReport {
        case None =>
          SetReport("", []);
        case Some(r) =>
          RunReport(r, store, today);
          SortKeepsTotal(ByDateTime, Select(store.Load(), Window(r, today)));
      }
    }
  }

  /** A report lists every loaded record in its window exactly once per
      stored copy and nothing else, and the sort in setReport leaves the
      loaded order as it is. */
  lemma ReportRows(store: TransactionStore, r: Report, today: Date)
    ensures SortNewestFirst(ByDateTime, Select(store.Load(), Window(r, today))) == Select(store.Load(), Window(r, today))
    ensures forall t :: t in Select(store.Load(), Window(r, today)) <==> t in store.rows && InWindow(r, today, t)
  {
    var w := Window(r, today);
    store.LoadOrder();
    SelectKeepsOrder(ByDateTime, store.Load(), w);
    SortSortedIsIdentity(ByDateTime, Select(store.Load(), w));
    forall t ensures t in Select(store.Load(), w) <==> t in store.rows && InWindow(r, today, t) {
      SelectMembers(store.Load(), w, t);
      assert t in store.Load() <==> t in multiset(store.rows);
    }
  }

  /** The three records of the March example, in insertion order. */
  function MarchRows(): seq<Transaction> {
    [ Transaction(Date(2024, 3, 1), Time(12, 0, 0), "Pay", "Acme", 100),
      Transaction(Date(2024, 3, 15), Time(12, 0, 0), "Lunch", "Cafe", -40),
      Transaction(Date(2024, 2, 1), Time(12, 0, 0), "Refund", "Shop", 10) ]
  }

  /** Loading them lists the 15 March record, then 1 March, then February. */
  lemma MarchLoad(store: TransactionStore)
    requires store.rows == MarchRows()
    ensures store.Load() == [MarchRows()[1], MarchRows()[0], MarchRows()[2]]
    ensures SortNewestFirst(ByDateTime, [MarchRows()[1], MarchRows()[0]]) == [MarchRows()[1], MarchRows()[0]]
  {
    var a, b, c := store.rows[0], store.rows[1], store.rows[2];
    assert Reversed(store.rows) == [c, b, a];
    assert SortNewestFirst(ByDateTime, [a]) == [a];
    assert SortNewestFirst(ByDateTime, [b, a]) == Insert(ByDateTime, b, [a]) == [b, a];
    assert Insert(ByDateTime, c, [a]) == [a, c];
    assert Insert(ByDateTime, c, [b, a]) == [b, a, c];
  }

  /** The two windows of 20 March 2024 over the loaded list. */
  lemma MarchWindows()
    ensures Select([MarchRows()[1], MarchRows()[0], MarchRows()[2]], Window(MonthToDate, Date(2024, 3, 20)))
         == [MarchRows()[1], MarchRows()[0]]
    ensures Select([MarchRows()[1], MarchRows()[0], MarchRows()[2]], Window(PreviousMonth, Date(2024, 3, 20)))
         == [MarchRows()[2]]
  {
    var a, b, c := MarchRows()[0], MarchRows()[1], MarchRows()[2];
    var mtd, prev := Window(MonthToDate, Date(2024, 3, 20)), Window(PreviousMonth, Date(2024, 3, 20));
    assert Select([c], mtd) == [];
    assert Select([a, c], mtd) == [a];
    assert Select([c], prev) == [c];
    assert Select([a, c], prev) == [c];
  }

  /** The amounts of the two shown lists add up to 60 and 10. */
  lemma MarchTotals()
    ensures Total([MarchRows()[1], MarchRows()[0]]) == 60
    ensures Total([MarchRows()[2]]) == 10
  {
    var a, b := MarchRows()[0], MarchRows()[1];
    assert Total([a]) == 100;
    assert [b, a][1..] == [a];
  }

  /** Run on 20 March 2024, month to date shows the two March records
      newest first with total 60. */
  lemma MarchMonthToDate(store: TransactionStore)
    requires store.rows == MarchRows()
    ensures SortNewestFirst(ByDateTime, Select(store.Load(), Window(MonthToDate, Date(2024, 3, 20))))
         == [MarchRows()[1], MarchRows()[0]]
    ensures Total(Select(store.Load(), Window(MonthToDate, Date(2024, 3, 20)))) == 60
  {
    MarchLoad(store);
    MarchWindows();
    MarchTotals();
  }

  /** On the same day the previous month shows the February record with
      total 10. */
  lemma MarchPreviousMonth(store: TransactionStore)
    requires store.rows == MarchRows()
    ensures SortNewestFirst(ByDateTime, Select(store.Load(), Window(PreviousMonth, Date(2024, 3, 20))))
         == [MarchRows()[2]]
    ensures Total(Select(store.Load(), Window(PreviousMonth, Date(2024, 3, 20)))) == 10
  {
    MarchLoad(store);
    MarchWindows();
    MarchTotals();
    assert SortNewestFirst(ByDateTime, [MarchRows()[2]]) == [MarchRows()[2]];
  }
}
