/** LedgerPanel: the ledger tab. Its type box and vendor search field
    build the filter it installs in the shared LedgerTableModel, and its
    totals bar shows the totals of the visible rows. */
module LedgerView {
  import opened Wrappers
  import opened Text
  import opened Transactions
  import opened Sorting
  import opened Store
  import opened LedgerModel

  /** The entries of the "Type" combo box. */
  datatype TypeChoice = All | Deposits | Payments

  /** The filter lambda of applyFilters; `vendor` is the search text after
      trim and toLowerCase. */
  predicate Passes(choice: TypeChoice, vendor: string, t: Transaction) {
    if choice == Deposits && t.amount < 0 then false
    else if choice == Payments && t.amount >= 0 then false
    else if vendor != "" then Contains(Lower(t.vendor), vendor)
    else true
  }

  /** The predicate applyFilters builds from the two controls. */
  function LedgerFilter(choice: TypeChoice, searchText: string): Transaction -> bool {
    var vendor := Lower(Trim(searchText));
    t => Passes(choice, vendor, t)
  }

  /** What the type box asks for, decided by the sign of the amount. */
  predicate KindAccepts(choice: TypeChoice, t: Transaction) {
    match choice
    case All => true
    case Deposits => t.amount >= 0
    case Payments => t.amount < 0
  }

  /** The filter is the type criterion AND, for a non-blank search text,
      the case-insensitive vendor match. */
  lemma FilterIsConjunction(choice: TypeChoice, searchText: string, t: Transaction)
    ensures LedgerFilter(choice, searchText)(t)
        <==> KindAccepts(choice, t) && (Trim(searchText) == "" || MatchesIgnoringCase(t.vendor, searchText))
  {
  }

  /** "Deposits" rejects every negative amount; "Payments" rejects every
      non-negative one. */
  lemma KindFiltersBySign(searchText: string, t: Transaction)
    ensures LedgerFilter(Deposits, searchText)(t) ==> t.amount >= 0
    ensures LedgerFilter(Payments, searchText)(t) ==> t.amount < 0
  {
  }

  /** With a blank search text "All" accepts everything and each record
      passes exactly one of "Deposits" and "Payments". */
  lemma BlankSearchPartitions(searchText: string, t: Transaction)
    requires Trim(searchText) == ""
    ensures LedgerFilter(All, searchText)(t)
    ensures LedgerFilter(Deposits, searchText)(t) != LedgerFilter(Payments, searchText)(t)
  {
  }

  /** Under "Deposits" the totals bar shows no payments; under "Payments"
      it shows no deposits. */
  lemma {:induction false} OneSidedTotals(all: seq<Transaction>, searchText: string)
    ensures Expenses(Select(all, LedgerFilter(Deposits, searchText))) == 0
    ensures Income(Select(all, LedgerFilter(Payments, searchText))) == 0
  {
    if all != [] {
      OneSidedTotals(all[1..], searchText);
      var d, p := LedgerFilter(Deposits, searchText), LedgerFilter(Payments, searchText);
      TotalConcat(if d(all[0]) then [all[0]] else [], Select(all[1..], d));
      TotalConcat(if p(all[0]) then [all[0]] else [], Select(all[1..], p));
    }
  }

  class LedgerPanel {
    const model: LedgerTableModel
    var choice: TypeChoice
    var searchText: string
    /** The income, expenses and net labels. */
    var shown: Totals

    constructor (model: LedgerTableModel)
      ensures this.model == model
      ensures choice == All && searchText == ""
      ensures shown == Totals(Income(model.visible), Expenses(model.visible), Total(model.visible))
    {
      this.model := model;
      choice := All;
      searchText := "";
      new;
      RefreshTotals();
    }

    /** refreshTotals: copy the model's totals into the labels. */
    method RefreshTotals()
      modifies this`shown
      ensures shown == Totals(Income(model.visible), Expenses(model.visible), Total(model.visible))
    {
      shown := model.GetTotalsForVisible();
    }

    /** applyFilters: install the predicate for the current controls, then
        recompute the totals of the new visible rows. */
    method ApplyFilters()
      requires model.Valid()
      modifies model, this`shown
      ensures model.Valid()
      ensures model.all == old(model.all)
      ensures model.filter == LedgerFilter(choice, searchText)
      ensures model.visible == Select(model.all, LedgerFilter(choice, searchText))
      ensures shown == Totals(Income(model.visible), Expenses(model.visible), Total(model.visible))
    {
      var f := LedgerFilter(choice, searchText);
      model.ApplyFilter(Some(f));
      RefreshTotals();
    }

    /** The type box's listener. */
    method SelectType(c: TypeChoice)
      requires model.Valid()
      modifies model, this`choice, this`shown
      ensures choice == c && model.Valid() && model.all == old(model.all)
      ensures model.filter == LedgerFilter(c, searchText)
      ensures model.visible == Select(model.all, LedgerFilter(c, searchText))
      ensures shown == Totals(Income(model.visible), Expenses(model.visible), Total(model.visible))
    {
      choice := c;
      ApplyFilters();
    }

    /** The search field's document listener. */
    method EditSearch(text: string)
      requires model.Valid()
      modifies model, this`searchText, this`shown
      ensures searchText == text && model.Valid() && model.all == old(model.all)
      ensures model.filter == LedgerFilter(choice, text)
      ensures model.visible == Select(model.all, LedgerFilter(choice, text))
      ensures shown == Totals(Income(model.visible), Expenses(model.visible), Total(model.visible))
    {
      searchText := text;
      ApplyFilters();
    }

    /** The Refresh button: reload from the store, then re-apply the
        current controls. */
    method Refresh(store: TransactionStore)
      requires model.Valid()
      modifies model, this`shown
      ensures model.Valid()
      ensures model.all == SortNewestFirst(ByDateTime, store.Load())
      ensures model.filter == LedgerFilter(choice, searchText)
      ensures model.visible == Select(model.all, LedgerFilter(choice, searchText))
      ensures shown == Totals(Income(model.visible), Expenses(model.visible), Total(model.visible))
    {
      model.ReloadAll(store);
      ApplyFilters();
    }
  }
}
