/**
 * A bank transaction as the reconciliation engine of cozy-doctypes sees it,
 * and the helpers that read its day, its identifier and the split date.
 */
module Transactions {
  import opened Wrappers
  import opened StringOrder

  /**
   * A flat transaction record. `amount` is held in the form JavaScript gives
   * it when it is placed in a template string; `vendorId` is `None` when the
   * record has none (two absent vendor ids compare equal, as `undefined`
   * does under `===`). `others` carries every other attribute (label,
   * account, category, ...), which the engine never reads.
   */
  datatype Transaction = Transaction(
    vendorId: Option<string>,
    amount: string,
    originalBankLabel: string,
    date: string,
    others: map<string, string>)

  /** The calendar day of a transaction: the first ten characters of its date. */
  function Day(t: Transaction): (day: string)
    ensures |day| == if |t.date| < 10 then |t.date| else 10
    ensures day <= t.date
  {
    if |t.date| <= 10 then t.date else t.date[..10]
  }

  /** The descriptive, almost unique key `amount-originalBankLabel-date`. */
  function Identifier(t: Transaction): string {
    t.amount + "-" + t.originalBankLabel + "-" + t.date
  }

  /**
   * A key JavaScript treats as an array index when it orders the properties
   * of an object: a non-empty string of decimal digits.
   */
  predicate IsIndexLike(key: string) {
    |key| > 0 && forall i :: 0 <= i < |key| ==> '0' <= key[i] <= '9'
  }

  /**
   * An identifier always holds a '-', so it is never index-like: the groups
   * keyed by identifiers are enumerated in insertion order.
   */
  lemma IdentifierIsNotIndexLike(t: Transaction)
    ensures '-' in Identifier(t)
    ensures !IsIndexLike(Identifier(t))
  {
    assert Identifier(t)[|t.amount|] == '-';
  }

  /** The identifier reads only amount, original label and full date. */
  lemma IdentifierIgnoresOtherFields(t1: Transaction, t2: Transaction)
    requires t1.amount == t2.amount
    requires t1.originalBankLabel == t2.originalBankLabel
    requires t1.date == t2.date
    ensures Identifier(t1) == Identifier(t2)
  {
  }

  /**
   * The identifier holds the full date, not only its day: with the same
   * amount and label, equal identifiers mean equal dates, so two
   * transactions of one day at different times are told apart.
   */
  lemma IdentifierKeepsFullDate(t1: Transaction, t2: Transaction)
    requires t1.amount == t2.amount
    requires t1.originalBankLabel == t2.originalBankLabel
    requires Identifier(t1) == Identifier(t2)
    ensures t1.date == t2.date
  {
    var head := t1.amount + "-" + t1.originalBankLabel + "-";
    assert Identifier(t1) == head + t1.date;
    assert Identifier(t2) == head + t2.date;
    assert t1.date == Identifier(t1)[|head|..];
  }

  /**
   * `isAfter(minDate)`: true when no bound is given (the empty string is
   * falsy); otherwise false for the literal day "NaN", and else the day is
   * compared with the bound as JavaScript compares strings.
   */
  predicate IsAfter(t: Transaction, minDate: string) {
    if minDate == "" then true
    else
      var day := Day(t);
      if day != "NaN" then Less(minDate, day) else false
  }

  /** `isBeforeOrSame(maxDate)`, with JavaScript's `day <= maxDate`, that is `!(maxDate < day)`. */
  predicate IsBeforeOrSame(t: Transaction, maxDate: string) {
    if maxDate == "" then true
    else
      var day := Day(t);
      if day != "NaN" then !Less(maxDate, day) else false
  }

  /**
   * Against a bound that is given, the two tests never both hold; both fail
   * exactly on the day "NaN"; otherwise exactly one holds, as "strictly
   * later" and "earlier or the same day".
   */
  lemma DayTestsPartition(t: Transaction, bound: string)
    requires bound != ""
    ensures !(IsAfter(t, bound) && IsBeforeOrSame(t, bound))
    ensures !IsAfter(t, bound) && !IsBeforeOrSame(t, bound) <==> Day(t) == "NaN"
    ensures Day(t) != "NaN" ==> (IsAfter(t, bound) <==> Less(bound, Day(t)))
    ensures Day(t) != "NaN" ==> (IsBeforeOrSame(t, bound) <==> LessOrEqual(Day(t), bound))
  {
    NotGreaterIsLessOrEqual(Day(t), bound);
  }

  /** Without a bound both tests hold. */
  lemma DayTestsWithoutBound(t: Transaction)
    ensures IsAfter(t, "") && IsBeforeOrSame(t, "")
  {
  }

  /** The days of a batch, in order. */
  function Days(batch: seq<Transaction>): (days: seq<string>)
    ensures |days| == |batch|
    ensures forall i :: 0 <= i < |batch| ==> days[i] == Day(batch[i])
  {
    seq(|batch|, i requires 0 <= i < |batch| => Day(batch[i]))
  }

  /**
   * lodash `max` on strings: walks the list keeping the current maximum and
   * replaces it by every element strictly greater.
   */
  function MaxFrom(best: string, rest: seq<string>): string
    decreases |rest|
  {
    if rest == [] then best
    else MaxFrom(if Less(best, rest[0]) then rest[0] else best, rest[1..])
  }

  /** lodash `max`: `undefined` for an empty list. */
  function Max(values: seq<string>): Option<string> {
    if values == [] then None else Some(MaxFrom(values[0], values[1..]))
  }

  /** `getSplitDate`: the latest day of the local batch, undefined when it is empty. */
  function SplitDate(local: seq<Transaction>): (split: Option<string>)
    ensures split.None? <==> local == []
  {
    Max(Days(local))
  }

  lemma {:induction false} MaxFromIsGreatest(best: string, rest: seq<string>)
    ensures MaxFrom(best, rest) == best || MaxFrom(best, rest) in rest
    ensures LessOrEqual(best, MaxFrom(best, rest))
    ensures forall x :: x in rest ==> LessOrEqual(x, MaxFrom(best, rest))
    decreases |rest|
  {
    if rest != [] {
      var next := if Less(best, rest[0]) then rest[0] else best;
      var m := MaxFrom(next, rest[1..]);
      MaxFromIsGreatest(next, rest[1..]);
      LessTrichotomy(best, rest[0]);
      assert LessOrEqual(best, next) && LessOrEqual(rest[0], next);
      LessOrEqualTransitive(best, next, m);
      LessOrEqualTransitive(rest[0], next, m);
      assert forall x :: x in rest ==> x == rest[0] || x in rest[1..];
    }
  }

  /**
   * The split date of a non-empty batch is the day of one of its
   * transactions, and no transaction of the batch has a later day.
   */
  lemma SplitDateIsLatestDay(local: seq<Transaction>)
    requires local != []
    ensures SplitDate(local).Some?
    ensures exists i :: 0 <= i < |local| && Day(local[i]) == SplitDate(local).value
    ensures forall i :: 0 <= i < |local| ==> LessOrEqual(Day(local[i]), SplitDate(local).value)
  {
    var days := Days(local);
    MaxFromIsGreatest(days[0], days[1..]);
    var m := SplitDate(local).value;
    assert m in days;
    forall i | 0 <= i < |local|
      ensures LessOrEqual(Day(local[i]), m)
    {
      assert days[i] == days[0] || days[i] in days[1..] by {
        if i > 0 { assert days[i] == days[1..][i - 1]; }
      }
    }
  }

  /** The split date is empty (falsy) only when every day of the batch is empty. */
  lemma EmptySplitDate(local: seq<Transaction>)
    requires local != []
    ensures SplitDate(local) == Some("") <==> forall i :: 0 <= i < |local| ==> Day(local[i]) == ""
  {
    SplitDateIsLatestDay(local);
    var m := SplitDate(local).value;
    if m == "" {
      forall i | 0 <= i < |local| ensures Day(local[i]) == "" {
        assert LessOrEqual(Day(local[i]), "");
      }
    } else {
      var i :| 0 <= i < |local| && Day(local[i]) == m;
    }
  }
}
