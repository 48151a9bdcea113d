/** The Transaction record and the list operations every part of the
    ledger is built from: order-preserving selection and sums of amounts. */
module Transactions {

  // The ranges java.time.LocalDate and LocalTime guarantee for their fields.
  type Month = m: int | 1 <= m <= 12 witness 1
  type Day = d: int | 1 <= d <= 31 witness 1
  type Hour = h: int | 0 <= h < 24
  type Minute = m: int | 0 <= m < 60
  type Second = s: int | 0 <= s < 60

  datatype Date = Date(year: int, month: Month, day: Day)

  /** Time of day at second precision, as the TIME column keeps it. */
  datatype Time = Time(hour: Hour, minute: Minute, second: Second)

  /** One ledger entry. The amount is in cents (the column is DECIMAL(10,2)):
      deposits are non-negative and payments negative. */
  datatype Transaction = Transaction(
    date: Date,
    time: Time,
    description: string,
    vendor: string,
    amount: int)

  /** LocalDate.isBefore. */
  predicate DateBefore(a: Date, b: Date) {
    || a.year < b.year
    || (a.year == b.year && a.month < b.month)
    || (a.year == b.year && a.month == b.month && a.day < b.day)
  }

  /** LocalTime.isBefore. */
  predicate TimeBefore(a: Time, b: Time) {
    || a.hour < b.hour
    || (a.hour == b.hour && a.minute < b.minute)
    || (a.hour == b.hour && a.minute == b.minute && a.second < b.second)
  }

  /** The entries of s that satisfy keep, in their original order: what a
      loop that appends each accepted entry to an empty list produces. */
  function Select(s: seq<Transaction>, keep: Transaction -> bool): (r: seq<Transaction>)
    ensures |r| <= |s|
  {
    if s == [] then [] else (if keep(s[0]) then [s[0]] else []) + Select(s[1..], keep)
  }

  lemma {:induction false} SelectConcat(a: seq<Transaction>, b: seq<Transaction>, keep: Transaction -> bool)
    ensures Select(a + b, keep) == Select(a, keep) + Select(b, keep)
  {
    if a != [] {
      assert (a + b)[1..] == a[1..] + b;
      SelectConcat(a[1..], b, keep);
    } else {
      assert a + b == b;
    }
  }

  /** One step of the selecting loop. */
  lemma SelectSnoc(s: seq<Transaction>, i: nat, keep: Transaction -> bool)
    requires i < |s|
    ensures Select(s[..i + 1], keep) == Select(s[..i], keep) + (if keep(s[i]) then [s[i]] else [])
  {
    assert s[..i + 1] == s[..i] + [s[i]];
    SelectConcat(s[..i], [s[i]], keep);
  }

  /** An entry is selected exactly when it is in s and passes keep. */
  lemma {:induction false} SelectMembers(s: seq<Transaction>, keep: Transaction -> bool, t: Transaction)
    ensures t in Select(s, keep) <==> t in s && keep(t)
  {
    if s != [] {
      SelectMembers(s[1..], keep, t);
      assert s == [s[0]] + s[1..];
    }
  }

  /** Selection keeps every entry's count when it passes and drops all of
      its copies otherwise: the result is a sub-multiset of s. */
  lemma {:induction false} SelectMultiset(s: seq<Transaction>, keep: Transaction -> bool)
    ensures multiset(Select(s, keep)) <= multiset(s)
  {
    if s != [] {
      SelectMultiset(s[1..], keep);
      assert s == [s[0]] + s[1..];
    }
  }

  /** Keeping everything keeps s unchanged. */
  lemma {:induction false} SelectAll(s: seq<Transaction>, keep: Transaction -> bool)
    requires forall t :: keep(t)
    ensures Select(s, keep) == s
  {
    if s != [] {
      SelectAll(s[1..], keep);
      assert s == [s[0]] + s[1..];
    }
  }

  /** Two predicates that agree on the entries of s select the same list. */
  lemma {:induction false} SelectAgree(s: seq<Transaction>, p: Transaction -> bool, q: Transaction -> bool)
    requires forall t :: t in s ==> p(t) == q(t)
    ensures Select(s, p) == Select(s, q)
  {
    if s != [] {
      SelectAgree(s[1..], p, q);
    }
  }

  /** The report loops: walk the rows once, appending each one that keep
      accepts to a new list. */
  method Collect(rows: seq<Transaction>, keep: Transaction -> bool) returns (filtered: seq<Transaction>)
    ensures filtered == Select(rows, keep)
  {
    filtered := [];
    for i := 0 to |rows|
      invariant filtered == Select(rows[..i], keep)
    {
      SelectSnoc(rows, i, keep);
      if keep(rows[i]) {
        filtered := filtered + [rows[i]];
      }
    }
    assert rows[..|rows|] == rows;
  }

  /** A summing loop: the total of the amounts. */
  method SumAmounts(rows: seq<Transaction>) returns (total: int)
    ensures total == Total(rows)
  {
    total := 0;
    for i := 0 to |rows|
      invariant total == Total(rows[..i])
    {
      TotalSnoc(rows, i);
      total := total + rows[i].amount;
    }
    assert rows[..|rows|] == rows;
  }

  /** Sum of the amounts. */
  function Total(s: seq<Transaction>): int
  {
    if s == [] then 0 else s[0].amount + Total(s[1..])
  }

  /** Sum of the non-negative amounts (deposits). */
  function Income(s: seq<Transaction>): (r: int)
    ensures r >= 0
  {
    if s == [] then 0 else (if s[0].amount >= 0 then s[0].amount else 0) + Income(s[1..])
  }

  /** Sum of the negative amounts (payments). */
  function Expenses(s: seq<Transaction>): (r: int)
    ensures r <= 0
  {
    if s == [] then 0 else (if s[0].amount < 0 then s[0].amount else 0) + Expenses(s[1..])
  }

  /** Every amount is either income or expense, so the two parts add up to
      the total. */
  lemma {:induction false} IncomePlusExpenses(s: seq<Transaction>)
    ensures Income(s) + Expenses(s) == Total(s)
  {
    if s != [] {
      IncomePlusExpenses(s[1..]);
    }
  }

  lemma {:induction false} TotalConcat(a: seq<Transaction>, b: seq<Transaction>)
    ensures Total(a + b) == Total(a) + Total(b)
    ensures Income(a + b) == Income(a) + Income(b)
    ensures Expenses(a + b) == Expenses(a) + Expenses(b)
  {
    if a != [] {
      assert (a + b)[1..] == a[1..] + b;
      TotalConcat(a[1..], b);
    } else {
      assert a + b == b;
    }
  }

  /** One step of a summing loop. */
  lemma TotalSnoc(s: seq<Transaction>, i: nat)
    requires i < |s|
    ensures Total(s[..i + 1]) == Total(s[..i]) + s[i].amount
    ensures Income(s[..i + 1]) == Income(s[..i]) + (if s[i].amount >= 0 then s[i].amount else 0)
    ensures Expenses(s[..i + 1]) == Expenses(s[..i]) + (if s[i].amount < 0 then s[i].amount else 0)
  {
    assert s[..i + 1] == s[..i] + [s[i]];
    TotalConcat(s[..i], [s[i]]);
  }

  /** s in reverse order. */
  function Reversed(s: seq<Transaction>): (r: seq<Transaction>)
    ensures |r| == |s|
    ensures forall i :: 0 <= i < |s| ==> r[i] == s[|s| - 1 - i]
  {
    if s == [] then [] else Reversed(s[1..]) + [s[0]]
  }

  lemma {:induction false} ReversedMultiset(s: seq<Transaction>)
    ensures multiset(Reversed(s)) == multiset(s)
  {
    if s != [] {
      ReversedMultiset(s[1..]);
      assert s == [s[0]] + s[1..];
    }
  }

  /** Selecting from the reversed list is reversing the selection. */
  lemma {:induction false} SelectReversed(s: seq<Transaction>, keep: Transaction -> bool)
    ensures Select(Reversed(s), keep) == Reversed(Select(s, keep))
  {
    if s != [] {
      SelectReversed(s[1..], keep);
      SelectConcat(Reversed(s[1..]), [s[0]], keep);
      var head := if keep(s[0]) then [s[0]] else [];
      var rest := Select(s[1..], keep);
      assert Select(s, keep) == head + rest;
      assert Reversed(head + rest) == Reversed(rest) + head by {
        ReversedConcat(head, rest);
      }
    }
  }

  lemma {:induction false} ReversedConcat(a: seq<Transaction>, b: seq<Transaction>)
    ensures Reversed(a + b) == Reversed(b) + Reversed(a)
  {
    if a != [] {
      assert (a + b)[1..] == a[1..] + b;
      ReversedConcat(a[1..], b);
    }
  }
}
