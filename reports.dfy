/** Reports: the console reports menu. Each choice loads every
    transaction, keeps the ones in its window and prints them; the printed
    block is modelled as a ConsoleDisplay value. The console is a list of
    input lines and today's date is a parameter. */
module ConsoleReports {
  import opened Wrappers
  import opened Text
  import opened Transactions
  import opened Sorting
  import opened Store
  import opened ReportWindows

  /** What displayResults prints: the title and either the no-match line,
      or the rows newest first by date and their total. */
  datatype ConsoleDisplay =
    | NoMatches(title: string)
    | Listing(title: string, rows: seq<Transaction>, total: int)

  /** The block displayResults prints for a list. */
  function Shown(title: string, transactions: seq<Transaction>): ConsoleDisplay {
    if transactions == [] then NoMatches(title)
    else Listing(title, SortNewestFirst(ByDate, transactions), Total(transactions))
  }

  /** A listing holds every given record once per copy, newest date first,
      records of the same date in the order they were given, with their
      total; only an empty list prints the no-match line. */
  lemma ShownListing(title: string, transactions: seq<Transaction>)
    ensures Shown(title, transactions).NoMatches? <==> transactions == []
    ensures Shown(title, transactions).title == title
    ensures Shown(title, transactions).Listing? ==>
      && multiset(Shown(title, transactions).rows) == multiset(transactions)
      && NewestFirst(ByDate, Shown(title, transactions).rows)
      && KeepsTieOrder(ByDate, Shown(title, transactions).rows, transactions)
      && Shown(title, transactions).total == Total(Shown(title, transactions).rows)
  {
    SortIsSorted(ByDate, transactions);
    SortIsStable(ByDate, transactions);
    SortKeepsTotal(ByDate, transactions);
  }

  /** displayResults: print the title; for an empty list the no-match line,
      otherwise sort the caller's list in place by date, newest first, and
      print it with its total. `sorted` is the caller's list afterwards. */
  method DisplayResults(transactions: seq<Transaction>, title: string)
    returns (display: ConsoleDisplay, sorted: seq<Transaction>)
    ensures display == Shown(title, transactions)
    ensures sorted == if transactions == [] then [] else SortNewestFirst(ByDate, transactions)
  {
    if transactions == [] {
      return NoMatches(title), transactions;
    }
    sorted := SortNewestFirst(ByDate, transactions);
    var total := SumAmounts(sorted);
    SortKeepsTotal(ByDate, transactions);
    display := Listing(title, sorted, total);
  }

  /** What running report r prints on the given day. */
  function ReportShown(r: Report, loaded: seq<Transaction>, today: Date): ConsoleDisplay {
    Shown(Title(r), Select(loaded, Window(r, today)))
  }

  /** showMonthToDate, showPreviousMonth, showYearToDate, showPreviousYear
      and searchByVendor share this shape: load, keep the window, display. */
  method ShowReport(r: Report, store: TransactionStore, today: Date) returns (display: ConsoleDisplay)
    ensures display == ReportShown(r, store.Load(), today)
  {
    var filtered := Collect(store.Load(), Window(r, today));
    display, filtered := DisplayResults(filtered, Title(r));
  }

  /** A console report prints exactly the loaded records in its window, and
      in the order the store returned them: the date sort in displayResults
      and the (date, time) sort in the Reports tab both leave that order
      unchanged. */
  lemma ConsoleMatchesPanel(r: Report, store: TransactionStore, today: Date)
    ensures ReportShown(r, store.Load(), today).Listing? ==>
      && ReportShown(r, store.Load(), today).rows == Select(store.Load(), Window(r, today))
      && ReportShown(r, store.Load(), today).rows
         == SortNewestFirst(ByDateTime, Select(store.Load(), Window(r, today)))
  {
    var filtered := Select(store.Load(), Window(r, today));
    store.LoadOrder();
    SelectKeepsOrder(ByDateTime, store.Load(), Window(r, today));
    DateTimeOrderRefinesDateOrder(filtered);
    SortSortedIsIdentity(ByDate, filtered);
    SortSortedIsIdentity(ByDateTime, filtered);
  }

  /** On a list not already in order the two front ends' sorts differ: two
      records of one day, the earlier time first, keep their order under
      the console's date-only sort and swap under the tab's (date, time)
      sort. */
  lemma DateSortKeepsSameDayOrder(early: Transaction, late: Transaction)
    requires early.date == late.date && TimeBefore(early.time, late.time)
    ensures SortNewestFirst(ByDate, [early, late]) == [early, late]
    ensures SortNewestFirst(ByDateTime, [early, late]) == [late, early]
  {
    assert [early, late][1..] == [late];
    assert SortNewestFirst(ByDate, [late]) == [late];
    assert SortNewestFirst(ByDateTime, [late]) == [late];
  }

  /** The menu's switch on the trimmed choice. */
  datatype MenuChoice = RunReport(report: Report) | AskVendor | Back | Invalid

  function Choose(choice: string): MenuChoice {
    if choice == "1" then RunReport(MonthToDate)
    else if choice == "2" then RunReport(PreviousMonth)
    else if choice == "3" then RunReport(YearToDate)
    else if choice == "4" then RunReport(PreviousYear)
    else if choice == "5" then AskVendor
    else if choice == "0" then Back
    else Invalid
  }

  /** The reports a console session runs, given the lines typed at the
      menu: "1" to "4" run the date reports, "5" runs a vendor search with
      the next line as its query, "0" goes back, anything else is
      rejected and the menu asks again. The session ends when input runs
      out. */
  function MenuRuns(lines: seq<string>): (runs: seq<Report>)
    ensures |runs| <= |lines|
  {
    if lines == [] then []
    else match Choose(Trim(lines[0]))
      case RunReport(r) => [r] + MenuRuns(lines[1..])
      case AskVendor =>
        if |lines| == 1 then []
        else [VendorSearch(VendorQuery(lines[1]))] + MenuRuns(lines[2..])
      case Back => []
      case Invalid => MenuRuns(lines[1..])
  }

  /** The switch on the trimmed choice, case by case. */
  lemma MenuDispatch(line: string)
    ensures Trim(line) == "1" <==> Choose(Trim(line)) == RunReport(MonthToDate)
    ensures Trim(line) == "2" <==> Choose(Trim(line)) == RunReport(PreviousMonth)
    ensures Trim(line) == "3" <==> Choose(Trim(line)) == RunReport(YearToDate)
    ensures Trim(line) == "4" <==> Choose(Trim(line)) == RunReport(PreviousYear)
    ensures Trim(line) == "5" <==> Choose(Trim(line)) == AskVendor
    ensures Trim(line) == "0" <==> Choose(Trim(line)) == Back
    ensures Choose(Trim(line)).RunReport? ==> !Choose(Trim(line)).report.VendorSearch?
  {
  }

  /** Choices are trimmed: " 3 " runs the year-to-date report. */
  lemma ChoiceIsTrimmed(rest: seq<string>)
    ensures MenuRuns([" 3 "] + rest) == [YearToDate] + MenuRuns(rest)
  {
    var lines := [" 3 "] + rest;
    PaddedThree();
    assert lines[0] == " 3 " && lines[1..] == rest;
    assert Choose(Trim(lines[0])) == RunReport(YearToDate);
  }

  lemma PaddedThree()
    ensures Trim(" 3 ") == "3"
  {
    var padded := " 3 ";
    assert padded[0] == ' ' && padded[1..] == "3 ";
    assert TrimStart("3 ") == "3 ";
    assert TrimEnd("3 ") == "3" by {
      assert "3 "[..1] == "3";
    }
  }

  /** After "0" nothing more is read, whatever follows. */
  lemma BackEndsMenu(lines: seq<string>, more: seq<string>)
    requires lines != [] && Trim(lines[0]) == "0"
    ensures MenuRuns(lines + more) == MenuRuns(lines) == []
  {
    assert Choose("0") == Back;
    assert (lines + more)[0] == lines[0];
    assert Choose(Trim((lines + more)[0])) == Back;
  }

  /** A line the switch rejects is skipped. */
  lemma InvalidChoiceSkipped(line: string, rest: seq<string>)
    requires Trim(line) !in {"0", "1", "2", "3", "4", "5"}
    ensures MenuRuns([line] + rest) == MenuRuns(rest)
  {
    assert ([line] + rest)[1..] == rest;
  }

  /** What a session prints: each report's block, in the order run. */
  function ShownInTurn(runs: seq<Report>, loaded: seq<Transaction>, today: Date): (displays: seq<ConsoleDisplay>)
    ensures |displays| == |runs|
  {
    if runs == [] then []
    else ShownInTurn(runs[..|runs| - 1], loaded, today) + [ReportShown(runs[|runs| - 1], loaded, today)]
  }

  lemma ShownInTurnSnoc(runs: seq<Report>, r: Report, loaded: seq<Transaction>, today: Date)
    ensures ShownInTurn(runs + [r], loaded, today) == ShownInTurn(runs, loaded, today) + [ReportShown(r, loaded, today)]
  {
    assert (runs + [r])[..|runs|] == runs;
  }

  /** The i-th block printed is the i-th report run. */
  lemma {:induction false} ShownInTurnIndex(runs: seq<Report>, loaded: seq<Transaction>, today: Date)
    ensures forall i :: 0 <= i < |runs| ==> ShownInTurn(runs, loaded, today)[i] == ReportShown(runs[i], loaded, today)
  {
    if runs != [] {
      var init := runs[..|runs| - 1];
      var last := ReportShown(runs[|runs| - 1], loaded, today);
      ShownInTurnIndex(init, loaded, today);
      var earlier := ShownInTurn(init, loaded, today);
      assert ShownInTurn(runs, loaded, today) == earlier + [last];
      forall i | 0 <= i < |runs|
        ensures (earlier + [last])[i] == ReportShown(runs[i], loaded, today)
      {
        if i < |init| {
          assert init[i] == runs[i];
          assert (earlier + [last])[i] == earlier[i];
        }
      }
    }
  }

  /** One turn of the menu loop in terms of MenuRuns: the runs from line
      pos on, by the choice read there. */
  lemma MenuStep(lines: seq<string>, pos: nat)
    requires pos < |lines|
    ensures Choose(Trim(lines[pos])).RunReport? ==>
      MenuRuns(lines[pos..]) == [Choose(Trim(lines[pos])).report] + MenuRuns(lines[pos + 1..])
    ensures Choose(Trim(lines[pos])).AskVendor? && pos + 1 == |lines| ==> MenuRuns(lines[pos..]) == []
    ensures Choose(Trim(lines[pos])).AskVendor? && pos + 1 < |lines| ==>
      MenuRuns(lines[pos..]) == [VendorSearch(VendorQuery(lines[pos + 1]))] + MenuRuns(lines[pos + 2..])
    ensures Choose(Trim(lines[pos])).Back? ==> MenuRuns(lines[pos..]) == []
    ensures Choose(Trim(lines[pos])).Invalid? ==> MenuRuns(lines[pos..]) == MenuRuns(lines[pos + 1..])
  {
    var rest := lines[pos..];
    assert rest[0] == lines[pos] && rest[1..] == lines[pos + 1..];
    if |rest| > 1 {
      assert rest[1] == lines[pos + 1] && rest[2..] == lines[pos + 2..];
    }
  }

  /** showReportsMenu: loop reading a choice until "0" (or the end of
      input), running the chosen report each time. */
  method ShowReportsMenu(lines: seq<string>, store: TransactionStore, today: Date)
    returns (runs: seq<Report>, displays: seq<ConsoleDisplay>)
    ensures runs == MenuRuns(lines)
    ensures displays == ShownInTurn(runs, store.Load(), today)
  {
    var viewingReports := true;
    var pos := 0;
    runs, displays := [], [];
    while viewingReports
      invariant 0 <= pos <= |lines|
      invariant viewingReports ==> runs + MenuRuns(lines[pos..]) == MenuRuns(lines)
      invariant !viewingReports ==> runs == MenuRuns(lines)
      invariant displays == ShownInTurn(runs, store.Load(), today)
      decreases |lines| - pos + (if viewingReports then 1 else 0)
    {
      if pos == |lines| {
        viewingReports := false;
        continue;
      }
      MenuStep(lines, pos);
      var choice := Trim(lines[pos]);
      pos := pos + 1;
      var chosen: Option<Report> := None;
      match Choose(choice) {
        case RunReport(r) =>
          chosen := Some(r);
        case AskVendor =>
          if pos == |lines| {
            viewingReports := false;
          } else {
            chosen := Some(VendorSearch(VendorQuery(lines[pos])));
            pos := pos + 1;
          }
        case Back =>
          viewingReports := false;
        case Invalid =>
      }
      if chosen.Some? {
        var r := chosen.value;
        assert runs + [r] + MenuRuns(lines[pos..]) == runs + ([r] + MenuRuns(lines[pos..]));
        var display := ShowReport(r, store, today);
        ShownInTurnSnoc(runs, r, store.Load(), today);
        runs, displays := runs + [r], displays + [display];
      }
    }
  }

  /** The five custom search inputs as customSearch holds them: every line
      trimmed, the description and vendor also lower-cased. */
  datatype SearchInput = SearchInput(start: string, end: string, description: string, vendor: string, amount: string)

  function ReadSearchInput(start: string, end: string, description: string, vendor: string, amount: string): SearchInput {
    SearchInput(Trim(start), Trim(end), Lower(Trim(description)), Lower(Trim(vendor)), Trim(amount))
  }

  /** The five criteria of customSearch; each blank one passes every
      record. parseDate stands for LocalDate.parse and render for
      Double.toString. */
  predicate OnOrAfterStart(input: SearchInput, parseDate: string -> Date, t: Transaction) {
    input.start == "" || !DateBefore(t.date, parseDate(input.start))
  }

  predicate OnOrBeforeEnd(input: SearchInput, parseDate: string -> Date, t: Transaction) {
    input.end == "" || !DateBefore(parseDate(input.end), t.date)
  }

  predicate DescriptionMatches(input: SearchInput, t: Transaction) {
    input.description == "" || Contains(Lower(t.description), input.description)
  }

  predicate VendorMatches(input: SearchInput, t: Transaction) {
    input.vendor == "" || Contains(Lower(t.vendor), input.vendor)
  }

  predicate AmountMatches(input: SearchInput, render: int -> string, t: Transaction) {
    input.amount == "" || render(t.amount) == input.amount
  }

  /** A record is kept when it passes every criterion. */
  predicate MatchesSearch(input: SearchInput, parseDate: string -> Date, render: int -> string, t: Transaction) {
    && OnOrAfterStart(input, parseDate, t)
    && OnOrBeforeEnd(input, parseDate, t)
    && DescriptionMatches(input, t)
    && VendorMatches(input, t)
    && AmountMatches(input, render, t)
  }

  function SearchFilter(input: SearchInput, parseDate: string -> Date, render: int -> string): Transaction -> bool {
    t => MatchesSearch(input, parseDate, render, t)
  }

  /** The title of every custom search display. */
  const CustomSearchTitle := "CUSTOM SEARCH RESULTS"

  /** What customSearch prints for a list of matches: one display after
      each match, showing the matches so far. */
  function ProgressiveDisplays(title: string, matches: seq<Transaction>): (displays: seq<ConsoleDisplay>)
    ensures |displays| == |matches|
  {
    if matches == [] then []
    else ProgressiveDisplays(title, matches[..|matches| - 1]) + [Shown(title, matches)]
  }

  /** The i-th display lists the first i + 1 matches, newest date first;
      with no match nothing is printed, not even the no-match line. */
  lemma {:induction false} ProgressiveDisplaysShowPrefixes(title: string, matches: seq<Transaction>)
    ensures forall i :: 0 <= i < |matches| ==>
      ProgressiveDisplays(title, matches)[i] == Shown(title, matches[..i + 1])
    ensures forall i :: 0 <= i < |matches| ==> ProgressiveDisplays(title, matches)[i].Listing?
  {
    if matches != [] {
      var init := matches[..|matches| - 1];
      ProgressiveDisplaysShowPrefixes(title, init);
      forall i | 0 <= i < |init|
        ensures ProgressiveDisplays(title, matches)[i] == Shown(title, matches[..i + 1])
      {
        assert init[..i + 1] == matches[..i + 1];
      }
      assert matches[..|matches|] == matches;
    }
  }

  /** customSearch: one pass over the loaded rows skipping each record that
      fails a criterion. displayResults runs after every match, on the
      matches so far, and sorts that list in place before the next match
      is appended; sorting again after the append gives what sorting the
      matches once would (SortAgainAfterAppend). */
  method CustomSearch(input: SearchInput, store: TransactionStore, parseDate: string -> Date, render: int -> string)
    returns (displays: seq<ConsoleDisplay>)
    ensures displays == ProgressiveDisplays(CustomSearchTitle, Select(store.Load(), SearchFilter(input, parseDate, render)))
  {
    var all := store.Load();
    ghost var keep := SearchFilter(input, parseDate, render);
    ghost var matches := Select(all, keep);
    ghost var n := 0;
    var filtered := [];
    displays := [];
    for i := 0 to |all|
      invariant n <= |matches|
      invariant Select(all[..i], keep) == matches[..n]
      invariant filtered == SortNewestFirst(ByDate, matches[..n])
      invariant displays == ProgressiveDisplays(CustomSearchTitle, matches[..n])
    {
      var t := all[i];
      CustomSearchStep(all, i, keep, n);
      var passes := CheckCriteria(input, parseDate, render, t);
      if !passes { continue; }
      AppendMatch(CustomSearchTitle, matches, n, t, filtered, displays);
      filtered := filtered + [t];
      var display;
      display, filtered := DisplayResults(filtered, CustomSearchTitle);
      displays := displays + [display];
      n := n + 1;
    }
    assert all[..|all|] == all;
    assert matches[..|matches|] == matches;
  }

  /** The body of customSearch's loop up to the first failing criterion:
      each check that fails skips the record. */
  method CheckCriteria(input: SearchInput, parseDate: string -> Date, render: int -> string, t: Transaction)
    returns (passes: bool)
    ensures passes == SearchFilter(input, parseDate, render)(t)
  {
    if !OnOrAfterStart(input, parseDate, t) { return false; }
    if !OnOrBeforeEnd(input, parseDate, t) { return false; }
    if !DescriptionMatches(input, t) { return false; }
    if !VendorMatches(input, t) { return false; }
    if !AmountMatches(input, render, t) { return false; }
    return true;
  }

  /** One turn of customSearch's loop, in terms of all the matches: row i
      either is the next match or changes nothing. */
  lemma CustomSearchStep(all: seq<Transaction>, i: nat, keep: Transaction -> bool, n: nat)
    requires i < |all| && n <= |Select(all, keep)|
    requires Select(all[..i], keep) == Select(all, keep)[..n]
    ensures !keep(all[i]) ==> Select(all[..i + 1], keep) == Select(all, keep)[..n]
    ensures keep(all[i]) ==>
      && n + 1 <= |Select(all, keep)|
      && Select(all[..i + 1], keep) == Select(all, keep)[..n + 1]
      && Select(all, keep)[..n] + [all[i]] == Select(all, keep)[..n + 1]
  {
    SelectSnoc(all, i, keep);
    SelectPrefix(all, i + 1, keep);
  }

  /** A turn that finds the next match t: displaying the in-place sorted
      list with t appended shows the first n + 1 matches, leaves them
      sorted, and extends the displays by one. */
  lemma AppendMatch(title: string, matches: seq<Transaction>, n: nat, t: Transaction,
                    filtered: seq<Transaction>, displays: seq<ConsoleDisplay>)
    requires n < |matches| && matches[..n] + [t] == matches[..n + 1]
    requires filtered == SortNewestFirst(ByDate, matches[..n])
    requires displays == ProgressiveDisplays(title, matches[..n])
    ensures Shown(title, filtered + [t]) == Shown(title, matches[..n + 1])
    ensures SortNewestFirst(ByDate, filtered + [t]) == SortNewestFirst(ByDate, matches[..n + 1])
    ensures displays + [Shown(title, filtered + [t])] == ProgressiveDisplays(title, matches[..n + 1])
  {
    ShownAfterAppend(title, matches[..n], t);
    SortAgainAfterAppend(ByDate, matches[..n], [t]);
    assert matches[..n + 1][..n] == matches[..n];
  }

  /** Displaying a list that an earlier display sorted in place, with one
      record appended, shows what displaying the unsorted list would. */
  lemma ShownAfterAppend(title: string, s: seq<Transaction>, t: Transaction)
    ensures Shown(title, SortNewestFirst(ByDate, s) + [t]) == Shown(title, s + [t])
  {
    SortAgainAfterAppend(ByDate, s, [t]);
    SortKeepsTotal(ByDate, s);
    TotalConcat(SortNewestFirst(ByDate, s), [t]);
    TotalConcat(s, [t]);
  }

  /** The matches among the first i rows are a prefix of all the matches. */
  lemma SelectPrefix(all: seq<Transaction>, i: nat, keep: Transaction -> bool)
    requires i <= |all|
    ensures |Select(all[..i], keep)| <= |Select(all, keep)|
    ensures Select(all[..i], keep) == Select(all, keep)[..|Select(all[..i], keep)|]
  {
    assert all == all[..i] + all[i..];
    SelectConcat(all[..i], all[i..], keep);
  }

  /** Criteria typed as blanks keep every record: the last display then
      lists every loaded record. */
  lemma BlankSearchKeepsAll(start: string, end: string, description: string, vendor: string, amount: string,
                            parseDate: string -> Date, render: int -> string, t: Transaction)
    requires Trim(start) == "" && Trim(end) == "" && Trim(description) == "" && Trim(vendor) == "" && Trim(amount) == ""
    ensures MatchesSearch(ReadSearchInput(start, end, description, vendor, amount), parseDate, render, t)
  {
    assert Lower("") == "";
  }

  /** For example, a space, an empty line, a tab, another empty line and two
      spaces. */
  lemma BlankLinesKeepAll(parseDate: string -> Date, render: int -> string, t: Transaction)
    ensures MatchesSearch(ReadSearchInput(" ", "", "\t", "", "  "), parseDate, render, t)
  {
    assert Trim(" ") == "" by {
      assert TrimStart(" ") == "";
    }
    assert Trim("\t") == "" by {
      assert TrimStart("\t") == "";
    }
    assert Trim("  ") == "" by {
      assert TrimStart("  ") == TrimStart(" ") == "";
    }
    BlankSearchKeepsAll(" ", "", "\t", "", "  ", parseDate, render, t);
  }

  /** Both date bounds are inclusive: a record dated on the start date or
      on the end date passes them. */
  lemma DateBoundsInclusive(input: SearchInput, parseDate: string -> Date, render: int -> string, t: Transaction)
    requires input.description == "" && input.vendor == "" && input.amount == ""
    requires input.start != "" && input.end != ""
    requires t.date == parseDate(input.start) || t.date == parseDate(input.end)
    requires !DateBefore(parseDate(input.end), parseDate(input.start))
    ensures MatchesSearch(input, parseDate, render, t)
  {
  }

  /** The description and vendor criteria are case-insensitive. */
  lemma SearchIgnoresCase(start: string, end: string, description: string, vendor: string, amount: string,
                          parseDate: string -> Date, render: int -> string, t: Transaction)
    requires Trim(start) == "" && Trim(end) == "" && Trim(amount) == "" && Trim(vendor) == ""
    ensures MatchesSearch(ReadSearchInput(start, end, description, vendor, amount), parseDate, render, t)
        <==> MatchesIgnoringCase(t.description, description)
  {
    LowerTrim(description);
    if Trim(description) == "" {
      assert Lower(Trim(description)) == "";
      ContainsEmpty(Lower(t.description));
    }
  }
}
