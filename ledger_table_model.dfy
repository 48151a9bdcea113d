/** LedgerTableModel: the ledger tab's table state. It keeps every loaded
    transaction in `all`, newest first, and the ones passing the current
    filter in `visible`. */
module LedgerModel {
  import opened Wrappers
  import opened Transactions
  import opened Sorting
  import opened Store

  /** Income, expenses and their sum for the rows on screen. */
  datatype Totals = Totals(income: int, expenses: int, net: int)

  /** The default filter, t -> true. */
  function AcceptAll(): Transaction -> bool {
    t => true
  }

  class LedgerTableModel {
    var all: seq<Transaction>
    var visible: seq<Transaction>
    var filter: Transaction -> bool

    /** visible is always all filtered by the stored filter, and all is
        always newest first. */
    ghost predicate Valid()
      reads this
    {
      && visible == Select(all, filter)
      && NewestFirst(ByDateTime, all)
    }

    constructor ()
      ensures Valid()
      ensures all == [] && visible == []
      ensures forall t :: filter(t)
    {
      all := [];
      visible := [];
      filter := AcceptAll();
    }

    /** reloadAll: replace `all` by the store's rows sorted newest first by
        (date, time), then re-apply the stored filter. */
    method ReloadAll(store: TransactionStore)
      requires Valid()
      modifies this
      ensures Valid()
      ensures all == SortNewestFirst(ByDateTime, store.Load())
      ensures filter == old(filter)
    {
      all := SortNewestFirst(ByDateTime, store.Load());
      SortIsSorted(ByDateTime, store.Load());
      ApplyFilter(Some(filter));
    }

    /** applyFilter: store the filter (none means accept everything) and
        rebuild `visible` by one pass over `all`. */
    method ApplyFilter(f: Option<Transaction -> bool>)
      requires NewestFirst(ByDateTime, all)
      modifies this
      ensures Valid()
      ensures all == old(all)
      ensures f.Some? ==> filter == f.value
      ensures f.None? ==> (forall t :: filter(t)) && visible == all
    {
      match f {
        case None => filter := AcceptAll();
        case Some(p) => filter := p;
      }
      ghost var installed := filter;
      visible := [];
      for i := 0 to |all|
        invariant all == old(all) && filter == installed
        invariant visible == Select(all[..i], filter)
      {
        SelectSnoc(all, i, filter);
        if filter(all[i]) {
          visible := visible + [all[i]];
        }
      }
      assert all[..|all|] == all;
      if f.None? {
        SelectAll(all, filter);
      }
    }

    /** getVisibleTransactions: a copy of the visible rows. */
    method GetVisibleTransactions() returns (copy: seq<Transaction>)
      ensures copy == visible
    {
      copy := visible;
    }

    /** getRowCount. */
    method GetRowCount() returns (n: nat)
      ensures n == |visible|
    {
      n := |visible|;
    }

    /** getTotalsForVisible: one pass adding non-negative amounts to income
        and negative ones to expenses. */
    method GetTotalsForVisible() returns (totals: Totals)
      ensures totals.income == Income(visible) && totals.expenses == Expenses(visible)
      ensures totals.income >= 0 && totals.expenses <= 0
      ensures totals.net == totals.income + totals.expenses == Total(visible)
    {
      var income, expenses := 0, 0;
      for i := 0 to |visible|
        invariant income == Income(visible[..i])
        invariant expenses == Expenses(visible[..i])
      {
        TotalSnoc(visible, i);
        if visible[i].amount >= 0 {
          income := income + visible[i].amount;
        } else {
          expenses := expenses + visible[i].amount;
        }
      }
      assert visible[..|visible|] == visible;
      IncomePlusExpenses(visible);
      totals := Totals(income, expenses, income + expenses);
    }

    /** addTransaction: insert into the store, then reload. */
    method AddTransaction(store: TransactionStore, t: Transaction)
      requires Valid()
      modifies this, store
      ensures Valid()
      ensures store.rows == old(store.rows) + [t]
      ensures all == SortNewestFirst(ByDateTime, store.Load())
      ensures filter == old(filter)
      ensures t in all
      ensures t in visible <==> filter(t)
    {
      store.Save(t);
      ReloadAll(store);
      assert t in multiset(store.rows);
      SelectMembers(all, filter, t);
    }
  }

  /** After a reload `all` is exactly what the store returned: the store
      already orders rows newest first, so the model's own sort keeps
      them as they are. */
  lemma ReloadKeepsStoreOrder(store: TransactionStore)
    ensures SortNewestFirst(ByDateTime, store.Load()) == store.Load()
  {
    store.LoadOrder();
    SortSortedIsIdentity(ByDateTime, store.Load());
  }

  /** After a reload, `all` is a newest-first permutation of the loaded
      rows and `visible` is its filtered subsequence. */
  lemma ReloadContents(store: TransactionStore, all: seq<Transaction>)
    requires all == SortNewestFirst(ByDateTime, store.Load())
    ensures multiset(all) == multiset(store.rows)
    ensures NewestFirst(ByDateTime, all)
    ensures KeepsTieOrder(ByDateTime, all, store.Load())
  {
    SortIsSorted(ByDateTime, store.Load());
    SortIsStable(ByDateTime, store.Load());
  }

  /** The visible rows are the rows of `all` passing the filter. */
  lemma VisibleMembers(all: seq<Transaction>, filter: Transaction -> bool, t: Transaction)
    ensures t in Select(all, filter) <==> t in all && filter(t)
  {
    SelectMembers(all, filter, t);
  }

  /** Adding one transaction to an empty store shows exactly that
      transaction in `all`. */
  lemma AddToEmptyStoreRoundTrip(store: TransactionStore, t: Transaction)
    requires store.rows == [t]
    ensures SortNewestFirst(ByDateTime, store.Load()) == [t]
  {
    store.SaveIntoEmptyLoadsIt(t);
  }
}
