/** The transactions table, without JDBC: the rows in insertion order
    (ascending id), an insert that appends, and the ordered select. */
module Store {
  import opened Transactions
  import opened Sorting

  class TransactionStore {
    /** Rows in insertion order; position i holds the row with the i-th id. */
    var rows: seq<Transaction>

    constructor (initial: seq<Transaction>)
      ensures rows == initial
    {
      rows := initial;
    }

    /** saveTransaction: INSERT appends one row. */
    method Save(t: Transaction)
      modifies this
      ensures rows == old(rows) + [t]
    {
      rows := rows + [t];
    }

    /** loadTransactions: ORDER BY tx_date DESC, tx_time DESC, id DESC.
        Sorting the rows newest id first with a stable (date, time) sort
        orders the ties by id descending. */
    function Load(): (r: seq<Transaction>)
      reads this
      ensures multiset(r) == multiset(rows)
    {
      ReversedMultiset(rows);
      SortNewestFirst(ByDateTime, Reversed(rows))
    }

    /** The query's order: newest (date, time) first, and rows with equal
        date and time newest id first. */
    lemma LoadOrder()
      ensures NewestFirst(ByDateTime, Load())
      ensures forall k :: Select(Load(), Ties(ByDateTime, k)) == Reversed(Select(rows, Ties(ByDateTime, k)))
    {
      SortIsSorted(ByDateTime, Reversed(rows));
      SortIsStable(ByDateTime, Reversed(rows));
      forall k ensures Select(Load(), Ties(ByDateTime, k)) == Reversed(Select(rows, Ties(ByDateTime, k))) {
        SelectReversed(rows, Ties(ByDateTime, k));
      }
    }

    /** Saving into an empty table and loading gives back exactly the saved
        record. */
    lemma SaveIntoEmptyLoadsIt(t: Transaction)
      requires rows == [t]
      ensures Load() == [t]
    {
      assert Reversed(rows) == [t];
    }
  }
}
