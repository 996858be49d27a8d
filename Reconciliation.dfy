/**
 * `reconciliate`: merges a freshly fetched ("remote") batch of transactions
 * with the stored ("local") batch of the same account. Remote transactions
 * whose vendor id is known locally are "updated"; the others are "new".
 * When the local batch has a split date, only the new transactions strictly
 * after it are kept, together with those on or before it that the missed
 * transaction scan recovers; the updated transactions come last.
 */
module Reconciliation {
  import opened Wrappers
  import opened StringOrder
  import opened Transactions
  import opened Selection
  import opened MissedTransactions

  /** `localTransactions.find(t => t.vendorId === transaction.vendorId)`. */
  function FindByVendorId(local: seq<Transaction>, transaction: Transaction): (found: Option<Transaction>)
    ensures found.Some? <==> exists i :: 0 <= i < |local| && local[i].vendorId == transaction.vendorId
    ensures found.Some? ==> found.value in local && found.value.vendorId == transaction.vendorId
    ensures found.Some? && local[0].vendorId == transaction.vendorId ==> found.value == local[0]
  {
    if local == [] then None
    else if local[0].vendorId == transaction.vendorId then Some(local[0])
    else FindByVendorId(local[1..], transaction)
  }

  /** A found transaction object is always truthy: only the existence of a match is used. */
  predicate IsKnown(local: seq<Transaction>, transaction: Transaction) {
    FindByVendorId(local, transaction).Some?
  }

  /** The vendor ids of a batch. */
  function VendorIds(batch: seq<Transaction>): set<Option<string>> {
    set t | t in batch :: t.vendorId
  }

  lemma IsKnownIffVendorId(local: seq<Transaction>, transaction: Transaction)
    ensures IsKnown(local, transaction) <==> transaction.vendorId in VendorIds(local)
  {
    if transaction.vendorId in VendorIds(local) {
      var t :| t in local && t.vendorId == transaction.vendorId;
      var i :| 0 <= i < |local| && local[i] == t;
    }
  }

  /** `groups.updatedTransactions || []`. */
  function UpdatedTransactions(remote: seq<Transaction>, local: seq<Transaction>): seq<Transaction> {
    Filter(remote, t => IsKnown(local, t))
  }

  /** `groups.newTransactions || []`. */
  function NewTransactions(remote: seq<Transaction>, local: seq<Transaction>): seq<Transaction> {
    Filter(remote, t => !IsKnown(local, t))
  }

  /** `newTransactions.filter(isAfterSplit)`. */
  function AfterSplit(batch: seq<Transaction>, splitDate: string): seq<Transaction> {
    Filter(batch, t => IsAfter(t, splitDate))
  }

  /** `newTransactions.filter(isBeforeSplit)`. */
  function BeforeSplit(batch: seq<Transaction>, splitDate: string): seq<Transaction> {
    Filter(batch, t => IsBeforeOrSame(t, splitDate))
  }

  /** `if (splitDate)`: defined and not the empty string. */
  predicate Truthy(splitDate: Option<string>) {
    splitDate.Some? && splitDate.value != ""
  }

  /** The transactions `reconciliate` returns. */
  function Reconciled(remote: seq<Transaction>, local: seq<Transaction>): seq<Transaction> {
    var newTransactions := NewTransactions(remote, local);
    var updated := UpdatedTransactions(remote, local);
    var splitDate := SplitDate(local);
    if Truthy(splitDate) then
      AfterSplit(newTransactions, splitDate.value)
        + Missed(BeforeSplit(newTransactions, splitDate.value), local)
        + updated
    else newTransactions + updated
  }

  /** The observer calls, in the order they are made. */
  datatype Event = SplitDateFound | MissedTransactionsFound(moreNewThanExisting: nat, lessNewThanExisting: nat)

  /**
   * The observer calls `reconciliate` makes: with a split date, `onSplitDate`
   * and then `onMissedTransactionsFound` with the two group counters of the
   * missed transaction scan over the new transactions on or before it; none
   * otherwise.
   */
  function Observed(remote: seq<Transaction>, local: seq<Transaction>): seq<Event> {
    var splitDate := SplitDate(local);
    if Truthy(splitDate) then
      var before := BeforeSplit(NewTransactions(remote, local), splitDate.value);
      [SplitDateFound, MissedTransactionsFound(MoreCount(before, local), LessCount(before, local))]
    else []
  }

  /**
   * `reconciliate(remoteTransactions, localTransactions, options)`. The
   * observers are returned as the list of calls made to them: `onSplitDate`
   * once and then `onMissedTransactionsFound` once when there is a split
   * date, and no call otherwise.
   */
  method Reconciliate(remoteTransactions: seq<Transaction>, localTransactions: seq<Transaction>)
    returns (result: seq<Transaction>, events: seq<Event>)
    ensures result == Reconciled(remoteTransactions, localTransactions)
    ensures events == Observed(remoteTransactions, localTransactions)
  {
    var newTransactions := NewTransactions(remoteTransactions, localTransactions);
    var updatedTransactions := UpdatedTransactions(remoteTransactions, localTransactions);
    var splitDate := SplitDate(localTransactions);
    events := [];
    if splitDate.Some? && splitDate.value != "" {
      events := events + [SplitDateFound];
      var transactionsAfterSplit := AfterSplit(newTransactions, splitDate.value);
      var transactionsBeforeSplit := BeforeSplit(newTransactions, splitDate.value);
      var missedTransactions, more, less := GetMissedTransactions(transactionsBeforeSplit, localTransactions);
      events := events + [MissedTransactionsFound(more, less)];
      assert events == [SplitDateFound, MissedTransactionsFound(more, less)];
      newTransactions := transactionsAfterSplit + missedTransactions;
    }
    result := newTransactions + updatedTransactions;
  }

  /**
   * With a split date the observers are called twice, `onSplitDate` first,
   * and `onMissedTransactionsFound` receives the number of identifiers with
   * more new transactions on or before the split date than stored ones, and
   * the number with fewer; without a split date neither is called.
   */
  lemma ObserverCalls(remote: seq<Transaction>, local: seq<Transaction>)
    ensures |Observed(remote, local)| == if Truthy(SplitDate(local)) then 2 else 0
    ensures Truthy(SplitDate(local)) ==>
      var before := BeforeSplit(NewTransactions(remote, local), SplitDate(local).value);
      Observed(remote, local)[0] == SplitDateFound
      && Observed(remote, local)[1].MissedTransactionsFound?
      && Observed(remote, local)[1].moreNewThanExisting == |MoreGroups(before, local, Keys(before))|
      && Observed(remote, local)[1].lessNewThanExisting == |LessGroups(before, local, Keys(before))|
      && Observed(remote, local)[1].moreNewThanExisting + Observed(remote, local)[1].lessNewThanExisting
        <= |Keys(before)|
  {
    if Truthy(SplitDate(local)) {
      var before := BeforeSplit(NewTransactions(remote, local), SplitDate(local).value);
      ObserverCounts(before, local);
    }
  }

  /** The updated transactions close the result, in their fetched order. */
  lemma UpdatedLast(remote: seq<Transaction>, local: seq<Transaction>)
    ensures |UpdatedTransactions(remote, local)| <= |Reconciled(remote, local)|
    ensures Reconciled(remote, local)[|Reconciled(remote, local)| - |UpdatedTransactions(remote, local)|..]
      == UpdatedTransactions(remote, local)
  {
    var updated := UpdatedTransactions(remote, local);
    var front := Reconciled(remote, local)[..|Reconciled(remote, local)| - |updated|];
    assert Reconciled(remote, local) == front + updated;
  }

  /**
   * The remote batch splits into updated transactions (a local transaction
   * has the same vendor id) and new ones (none has): every remote
   * transaction is in exactly one of the two.
   */
  lemma RemotePartition(remote: seq<Transaction>, local: seq<Transaction>)
    ensures forall t :: t in UpdatedTransactions(remote, local) ==> t.vendorId in VendorIds(local)
    ensures forall t :: t in NewTransactions(remote, local) ==> t.vendorId !in VendorIds(local)
    ensures multiset(NewTransactions(remote, local)) + multiset(UpdatedTransactions(remote, local))
      == multiset(remote)
  {
    forall t ensures IsKnown(local, t) <==> t.vendorId in VendorIds(local) {
      IsKnownIffVendorId(local, t);
    }
    FilterSplit(remote, t => !IsKnown(local, t), t => IsKnown(local, t));
  }

  /**
   * Only whether a vendor id occurs locally decides the split: two local
   * batches with the same vendor ids, however often each occurs, split a
   * remote batch the same way.
   */
  lemma PartitionDependsOnVendorIdsOnly(remote: seq<Transaction>, local1: seq<Transaction>, local2: seq<Transaction>)
    requires VendorIds(local1) == VendorIds(local2)
    ensures UpdatedTransactions(remote, local1) == UpdatedTransactions(remote, local2)
    ensures NewTransactions(remote, local1) == NewTransactions(remote, local2)
  {
    forall t ensures IsKnown(local1, t) == IsKnown(local2, t) {
      IsKnownIffVendorId(local1, t);
      IsKnownIffVendorId(local2, t);
    }
    FilterSameTest(remote, t => IsKnown(local1, t), t => IsKnown(local2, t));
    FilterSameTest(remote, t => !IsKnown(local1, t), t => !IsKnown(local2, t));
  }

  /** The counts of one transaction in the pieces of the result. */
  lemma PieceCounts(remote: seq<Transaction>, local: seq<Transaction>, splitDate: string, t: Transaction)
    requires splitDate != ""
    ensures multiset(UpdatedTransactions(remote, local))[t] == if IsKnown(local, t) then multiset(remote)[t] else 0
    ensures multiset(NewTransactions(remote, local))[t] == if IsKnown(local, t) then 0 else multiset(remote)[t]
    ensures multiset(AfterSplit(NewTransactions(remote, local), splitDate))[t]
      == if IsAfter(t, splitDate) then multiset(NewTransactions(remote, local))[t] else 0
    ensures multiset(BeforeSplit(NewTransactions(remote, local), splitDate))[t]
      == if IsBeforeOrSame(t, splitDate) then multiset(NewTransactions(remote, local))[t] else 0
    ensures multiset(Missed(BeforeSplit(NewTransactions(remote, local), splitDate), local))[t]
      <= multiset(BeforeSplit(NewTransactions(remote, local), splitDate))[t]
  {
    var newTransactions := NewTransactions(remote, local);
    FilterCount(remote, u => IsKnown(local, u), t);
    FilterCount(remote, u => !IsKnown(local, u), t);
    FilterCount(newTransactions, u => IsAfter(u, splitDate), t);
    FilterCount(newTransactions, u => IsBeforeOrSame(u, splitDate), t);
    MissedSubMultiset(BeforeSplit(newTransactions, splitDate), local);
  }

  /**
   * No remote transaction is returned more often than it was fetched; with
   * no split date the result is a rearrangement of the whole remote batch.
   */
  lemma ReconciledSubMultiset(remote: seq<Transaction>, local: seq<Transaction>)
    ensures multiset(Reconciled(remote, local)) <= multiset(remote)
    ensures !Truthy(SplitDate(local)) ==> multiset(Reconciled(remote, local)) == multiset(remote)
  {
    RemotePartition(remote, local);
    var splitDate := SplitDate(local);
    if Truthy(splitDate) {
      var d := splitDate.value;
      forall t ensures multiset(Reconciled(remote, local))[t] <= multiset(remote)[t] {
        PieceCounts(remote, local, d, t);
        DayTestsPartition(t, d);
      }
    }
  }

  /**
   * With a split date, a remote transaction that is updated, or new and
   * strictly after the split date, is returned exactly as often as it was
   * fetched.
   */
  lemma KeptInFull(remote: seq<Transaction>, local: seq<Transaction>, t: Transaction)
    requires Truthy(SplitDate(local))
    requires IsKnown(local, t) || IsAfter(t, SplitDate(local).value)
    ensures multiset(Reconciled(remote, local))[t] == multiset(remote)[t]
  {
    var d := SplitDate(local).value;
    PieceCounts(remote, local, d, t);
    DayTestsPartition(t, d);
  }

  /**
   * With a split date, a new transaction whose day is the literal "NaN" is
   * neither after nor before the split date and is never returned.
   */
  lemma UnparsableDayDropped(remote: seq<Transaction>, local: seq<Transaction>, t: Transaction)
    requires Truthy(SplitDate(local))
    requires !IsKnown(local, t) && Day(t) == "NaN"
    ensures t !in Reconciled(remote, local)
  {
    var d := SplitDate(local).value;
    PieceCounts(remote, local, d, t);
    DayTestsPartition(t, d);
    assert multiset(Reconciled(remote, local))[t] == 0;
  }

  /** With no local transaction there is no split date and no vendor match: the remote batch comes back as it is. */
  lemma ReconcileWithoutLocal(remote: seq<Transaction>)
    ensures SplitDate([]) == None
    ensures Reconciled(remote, []) == remote
  {
    FilterAll(remote, t => !IsKnown([], t));
    FilterNone(remote, t => IsKnown([], t));
  }

  /** An empty remote batch gives an empty result. */
  lemma ReconcileEmptyRemote(local: seq<Transaction>)
    ensures Reconciled([], local) == []
  {
    if Truthy(SplitDate(local)) {
      assert BeforeSplit(NewTransactions([], local), SplitDate(local).value) == [];
      assert Keys([]) == [];
    }
  }
}
