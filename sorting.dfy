/** The newest-first orders the ledger sorts by and a stable sort for
    them. java.util.List.sort is a stable merge sort; any stable sort gives
    the same list (StableSortIsUnique), so the insertion sort below stands
    for it. */
module Sorting {
  import opened Transactions

  /** Comparator.comparing(getDate).thenComparing(getTime).reversed() and
      Comparator.comparing(getDate).reversed(). */
  datatype Order = ByDateTime | ByDate

  /** a comes strictly before b under o: its key is strictly later. */
  predicate Newer(o: Order, a: Transaction, b: Transaction) {
    match o
    case ByDate => DateBefore(b.date, a.date)
    case ByDateTime => DateBefore(b.date, a.date) || (a.date == b.date && TimeBefore(b.time, a.time))
  }

  /** The comparator returns 0 for a and b. */
  predicate SameKey(o: Order, a: Transaction, b: Transaction) {
    match o
    case ByDate => a.date == b.date
    case ByDateTime => a.date == b.date && a.time == b.time
  }

  /** Exactly one of: a newer, b newer, a tie. */
  lemma Trichotomy(o: Order, a: Transaction, b: Transaction)
    ensures Newer(o, a, b) || Newer(o, b, a) || SameKey(o, a, b)
    ensures !(Newer(o, a, b) && Newer(o, b, a))
    ensures SameKey(o, a, b) ==> !Newer(o, a, b) && !Newer(o, b, a)
  {
  }

  /** The entries that tie with k under o. */
  function Ties(o: Order, k: Transaction): Transaction -> bool {
    t => SameKey(o, t, k)
  }

  /** No entry is newer than one listed before it. */
  predicate NewestFirst(o: Order, s: seq<Transaction>) {
    forall i, j :: 0 <= i < j < |s| ==> !Newer(o, s[j], s[i])
  }

  /** r lists, for every key, the entries of s with that key in the order
      s lists them: what a stable sort keeps. Applied to all keys it also
      makes r a permutation of s. */
  ghost predicate KeepsTieOrder(o: Order, r: seq<Transaction>, s: seq<Transaction>) {
    forall k :: Select(r, Ties(o, k)) == Select(s, Ties(o, k))
  }

  /** Puts x in front of the first entry it is not older than. */
  function Insert(o: Order, x: Transaction, s: seq<Transaction>): (r: seq<Transaction>)
    ensures multiset(r) == multiset(s) + multiset{x}
  {
    if s == [] then [x]
    else if !Newer(o, s[0], x) then [x] + s
    else assert s == [s[0]] + s[1..]; [s[0]] + Insert(o, x, s[1..])
  }

  function SortNewestFirst(o: Order, s: seq<Transaction>): (r: seq<Transaction>)
    ensures multiset(r) == multiset(s)
  {
    if s == [] then []
    else assert s == [s[0]] + s[1..]; Insert(o, s[0], SortNewestFirst(o, s[1..]))
  }

  lemma SelectCons(x: Transaction, s: seq<Transaction>, keep: Transaction -> bool)
    ensures Select([x] + s, keep) == (if keep(x) then [x] else []) + Select(s, keep)
  {
    assert ([x] + s)[1..] == s;
  }

  lemma {:induction false} InsertSorted(o: Order, x: Transaction, s: seq<Transaction>)
    requires NewestFirst(o, s)
    ensures NewestFirst(o, Insert(o, x, s))
  {
    if s != [] && Newer(o, s[0], x) {
      var rest := Insert(o, x, s[1..]);
      InsertSorted(o, x, s[1..]);
      forall j | 0 <= j < |rest| ensures !Newer(o, rest[j], s[0]) {
        InsertMember(o, x, s[1..], rest[j]);
        if rest[j] != x {
          var i :| 0 <= i < |s[1..]| && s[1..][i] == rest[j];
          assert s[i + 1] == rest[j];
        }
      }
      ConsSorted(o, s[0], rest);
    }
  }

  /** A newest-first list stays newest first behind a head no entry of it
      is newer than. */
  lemma ConsSorted(o: Order, a: Transaction, r: seq<Transaction>)
    requires NewestFirst(o, r)
    requires forall j :: 0 <= j < |r| ==> !Newer(o, r[j], a)
    ensures NewestFirst(o, [a] + r)
  {
    forall i, j | 0 <= i < j < |[a] + r| ensures !Newer(o, ([a] + r)[j], ([a] + r)[i]) {
      if i > 0 {
        assert ([a] + r)[i] == r[i - 1];
      }
      assert ([a] + r)[j] == r[j - 1];
    }
  }

  /** Every entry of Insert(o, x, s) is x or an entry of s. */
  lemma InsertMember(o: Order, x: Transaction, s: seq<Transaction>, y: Transaction)
    requires y in Insert(o, x, s)
    ensures y == x || y in s
  {
    assert y in multiset(Insert(o, x, s));
  }

  /** The sort's result is newest first. */
  lemma {:induction false} SortIsSorted(o: Order, s: seq<Transaction>)
    ensures NewestFirst(o, SortNewestFirst(o, s))
  {
    if s != [] {
      SortIsSorted(o, s[1..]);
      InsertSorted(o, s[0], SortNewestFirst(o, s[1..]));
    }
  }

  lemma {:induction false} InsertKeepsTieOrder(o: Order, x: Transaction, s: seq<Transaction>, k: Transaction)
    ensures Select(Insert(o, x, s), Ties(o, k)) == Select([x] + s, Ties(o, k))
  {
    if s != [] && Newer(o, s[0], x) {
      InsertKeepsTieOrder(o, x, s[1..], k);
      NewerNeverTies(o, s[0], x, k);
      assert s == [s[0]] + s[1..];
      TieStep(Ties(o, k), s[0], x, s[1..], Insert(o, x, s[1..]));
    }
  }

  /** The step of InsertKeepsTieOrder with the sort left out: moving x
      past a, which keep never accepts together with x, changes no
      selection. */
  lemma TieStep(keep: Transaction -> bool, a: Transaction, x: Transaction, rest: seq<Transaction>, ins: seq<Transaction>)
    requires Select(ins, keep) == Select([x] + rest, keep)
    requires !(keep(a) && keep(x))
    ensures Select([a] + ins, keep) == Select([x] + ([a] + rest), keep)
  {
    SelectCons(a, ins, keep);
    SelectCons(x, rest, keep);
    SelectCons(a, rest, keep);
    SelectCons(x, [a] + rest, keep);
  }

  /** Two entries one of which is strictly newer never tie with the same
      key. */
  lemma NewerNeverTies(o: Order, a: Transaction, b: Transaction, k: Transaction)
    requires Newer(o, a, b)
    ensures !(Ties(o, k)(a) && Ties(o, k)(b))
  {
  }

  /** The sort is stable: entries with equal keys keep their input order. */
  lemma {:induction false} SortIsStable(o: Order, s: seq<Transaction>)
    ensures KeepsTieOrder(o, SortNewestFirst(o, s), s)
  {
    if s != [] {
      SortIsStable(o, s[1..]);
      var sorted := SortNewestFirst(o, s[1..]);
      forall k ensures Select(SortNewestFirst(o, s), Ties(o, k)) == Select(s, Ties(o, k)) {
        InsertKeepsTieOrder(o, s[0], sorted, k);
        SelectCons(s[0], sorted, Ties(o, k));
        SelectCons(s[0], s[1..], Ties(o, k));
        assert s == [s[0]] + s[1..];
      }
    }
  }

  lemma FirstTiesWithItself(o: Order, s: seq<Transaction>)
    requires s != []
    ensures Select(s, Ties(o, s[0])) == [s[0]] + Select(s[1..], Ties(o, s[0]))
  {
    assert s == [s[0]] + s[1..];
    SelectCons(s[0], s[1..], Ties(o, s[0]));
  }

  /** An entry of a newest-first list is never newer than its head. */
  lemma NotNewerThanHead(o: Order, a: seq<Transaction>, y: Transaction)
    requires NewestFirst(o, a) && y in a
    ensures !Newer(o, y, a[0])
  {
    var i :| 0 <= i < |a| && a[i] == y;
    if i > 0 {
      assert !Newer(o, a[i], a[0]);
    }
  }

  /** If a keeps b's tie order, b's head occurs in a. */
  lemma HeadOccurs(o: Order, a: seq<Transaction>, b: seq<Transaction>)
    requires b != [] && KeepsTieOrder(o, a, b)
    ensures b[0] in a
  {
    FirstTiesWithItself(o, b);
    assert Select(a, Ties(o, b[0])) == Select(b, Ties(o, b[0]));
    SelectMembers(a, Ties(o, b[0]), b[0]);
  }

  /** Two sorted lists with the same tie order start with the same entry. */
  lemma SameHead(o: Order, a: seq<Transaction>, b: seq<Transaction>)
    requires a != [] && b != []
    requires NewestFirst(o, a) && NewestFirst(o, b)
    requires KeepsTieOrder(o, a, b)
    ensures a[0] == b[0]
  {
    var x, y := a[0], b[0];
    HeadOccurs(o, a, b);
    NotNewerThanHead(o, a, y);
    assert KeepsTieOrder(o, b, a);
    HeadOccurs(o, b, a);
    NotNewerThanHead(o, b, x);
    Trichotomy(o, x, y);
    FirstTiesWithItself(o, a);
    var tiesX := Select(a, Ties(o, x));
    assert tiesX[0] == x;
    assert tiesX == Select(b, Ties(o, x));
    assert Ties(o, x)(y);
    FirstTiesWithItself(o, b);
    SelectAgree(b, Ties(o, x), Ties(o, y));
    assert tiesX[0] == y;
  }

  /** Dropping an equal head keeps the tie order. */
  lemma TailsKeepTieOrder(o: Order, a: seq<Transaction>, b: seq<Transaction>)
    requires a != [] && b != [] && a[0] == b[0]
    requires KeepsTieOrder(o, a, b)
    ensures KeepsTieOrder(o, a[1..], b[1..])
  {
    var x := a[0];
    forall k ensures Select(a[1..], Ties(o, k)) == Select(b[1..], Ties(o, k)) {
      assert Select(a, Ties(o, k)) == Select(b, Ties(o, k));
      var h := if Ties(o, k)(x) then [x] else [];
      SelectCons(x, a[1..], Ties(o, k));
      SelectCons(x, b[1..], Ties(o, k));
      assert a == [x] + a[1..];
      assert b == [x] + b[1..];
      assert Select(a[1..], Ties(o, k)) == Select(a, Ties(o, k))[|h|..];
      assert Select(b[1..], Ties(o, k)) == Select(b, Ties(o, k))[|h|..];
    }
  }

  /** Sorted and stable pin the list down: two newest-first lists that keep
      the same tie order are equal. So every stable sort, whatever its
      algorithm, returns SortNewestFirst. */
  lemma {:induction false} StableSortIsUnique(o: Order, a: seq<Transaction>, b: seq<Transaction>)
    requires NewestFirst(o, a) && NewestFirst(o, b)
    requires KeepsTieOrder(o, a, b)
    ensures a == b
    decreases |a|
  {
    if a == [] && b != [] {
      HeadOccurs(o, a, b);
    } else if a != [] && b == [] {
      assert KeepsTieOrder(o, b, a);
      HeadOccurs(o, b, a);
    } else if a != [] {
      SameHead(o, a, b);
      TailsKeepTieOrder(o, a, b);
      StableSortIsUnique(o, a[1..], b[1..]);
      assert a == [a[0]] + a[1..];
      assert b == [b[0]] + b[1..];
    }
  }

  /** Any newest-first, tie-order-keeping rearrangement of s is the sort of s. */
  lemma StableSortResult(o: Order, s: seq<Transaction>, r: seq<Transaction>)
    requires NewestFirst(o, r) && KeepsTieOrder(o, r, s)
    ensures r == SortNewestFirst(o, s)
  {
    SortIsSorted(o, s);
    SortIsStable(o, s);
    StableSortIsUnique(o, r, SortNewestFirst(o, s));
  }

  /** Sorting a list that is already newest first changes nothing. */
  lemma SortSortedIsIdentity(o: Order, s: seq<Transaction>)
    requires NewestFirst(o, s)
    ensures SortNewestFirst(o, s) == s
  {
    StableSortResult(o, s, s);
  }

  /** Sorting a list in place and then appending to it, before sorting
      again, ends where sorting the whole list once ends: a stable sort
      keeps the earlier sort's work. */
  lemma SortAgainAfterAppend(o: Order, s: seq<Transaction>, t: seq<Transaction>)
    ensures SortNewestFirst(o, SortNewestFirst(o, s) + t) == SortNewestFirst(o, s + t)
  {
    var r := SortNewestFirst(o, SortNewestFirst(o, s) + t);
    SortIsSorted(o, SortNewestFirst(o, s) + t);
    SortIsStable(o, SortNewestFirst(o, s) + t);
    SortIsStable(o, s);
    forall k ensures Select(r, Ties(o, k)) == Select(s + t, Ties(o, k)) {
      SelectConcat(SortNewestFirst(o, s), t, Ties(o, k));
      SelectConcat(s, t, Ties(o, k));
    }
    StableSortResult(o, s + t, r);
  }

  /** A list newest first by (date, time) is newest first by date. */
  lemma DateTimeOrderRefinesDateOrder(s: seq<Transaction>)
    requires NewestFirst(ByDateTime, s)
    ensures NewestFirst(ByDate, s)
  {
  }

  /** Selection keeps a sorted list sorted. */
  lemma {:induction false} SelectKeepsOrder(o: Order, s: seq<Transaction>, keep: Transaction -> bool)
    requires NewestFirst(o, s)
    ensures NewestFirst(o, Select(s, keep))
  {
    if s != [] {
      SelectKeepsOrder(o, s[1..], keep);
      var rest := Select(s[1..], keep);
      forall j | 0 <= j < |rest| ensures !Newer(o, rest[j], s[0]) {
        SelectMembers(s[1..], keep, rest[j]);
      }
    }
  }

  lemma {:induction false} InsertTotals(o: Order, x: Transaction, s: seq<Transaction>)
    ensures Total(Insert(o, x, s)) == x.amount + Total(s)
  {
    if s != [] && Newer(o, s[0], x) {
      InsertTotals(o, x, s[1..]);
    }
  }

  /** Sorting does not change the total. */
  lemma {:induction false} SortKeepsTotal(o: Order, s: seq<Transaction>)
    ensures Total(SortNewestFirst(o, s)) == Total(s)
  {
    if s != [] {
      SortKeepsTotal(o, s[1..]);
      InsertTotals(o, s[0], SortNewestFirst(o, s[1..]));
    }
  }
}
