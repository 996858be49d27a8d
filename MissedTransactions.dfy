/**
 * `getMissedTransactions`: the candidates and the stored transactions are
 * grouped by identifier; every identifier for which the candidates
 * outnumber the stored transactions contributes its first surplus
 * candidates, and the identifiers with more, and with fewer, candidates than
 * stored transactions are counted for the `onMissedTransactionsFound`
 * observer.
 */
module MissedTransactions {
  import opened Transactions
  import opened Selection

  /** Distinct identifiers in order of first occurrence. */
  predicate Distinct(keys: seq<string>) {
    forall i, j :: 0 <= i < j < |keys| ==> keys[i] != keys[j]
  }

  /** The identifiers of the candidates' groups, in the order `Object.entries` lists them. */
  function Keys(candidates: seq<Transaction>): seq<string> {
    GroupByIdentifier(candidates).keys
  }

  lemma KeysAreGroups(candidates: seq<Transaction>)
    ensures Distinct(Keys(candidates))
    ensures forall k :: k !in Keys(candidates) ==> WithIdentifier(candidates, k) == []
  {
    GroupByIdentifierGroups(candidates);
    forall k | k !in Keys(candidates) ensures WithIdentifier(candidates, k) == [] {
      assert Lookup(GroupByIdentifier(candidates), k) == WithIdentifier(candidates, k);
    }
  }

  /**
   * What one identifier contributes: when its `n` candidates outnumber its
   * `m` stored transactions, the first `n - m` of its candidates in the
   * order met, and nothing otherwise.
   */
  function Surplus(candidates: seq<Transaction>, existing: seq<Transaction>, key: string): (r: seq<Transaction>)
    ensures r <= WithIdentifier(candidates, key)
    ensures |r| == Excess(|WithIdentifier(candidates, key)|, |WithIdentifier(existing, key)|)
  {
    var group := WithIdentifier(candidates, key);
    var stored := |WithIdentifier(existing, key)|;
    if |group| > stored then group[..|group| - stored] else []
  }

  /** `max(0, n - m)`. */
  function Excess(n: nat, m: nat): nat {
    if n > m then n - m else 0
  }

  function MissedOver(candidates: seq<Transaction>, existing: seq<Transaction>, keys: seq<string>): seq<Transaction>
    decreases |keys|
  {
    if keys == [] then []
    else MissedOver(candidates, existing, keys[..|keys| - 1]) + Surplus(candidates, existing, keys[|keys| - 1])
  }

  function MoreOver(candidates: seq<Transaction>, existing: seq<Transaction>, keys: seq<string>): nat
    decreases |keys|
  {
    if keys == [] then 0
    else
      var key := keys[|keys| - 1];
      MoreOver(candidates, existing, keys[..|keys| - 1])
        + (if |WithIdentifier(candidates, key)| > |WithIdentifier(existing, key)| then 1 else 0)
  }

  function LessOver(candidates: seq<Transaction>, existing: seq<Transaction>, keys: seq<string>): nat
    decreases |keys|
  {
    if keys == [] then 0
    else
      var key := keys[|keys| - 1];
      LessOver(candidates, existing, keys[..|keys| - 1])
        + (if |WithIdentifier(candidates, key)| < |WithIdentifier(existing, key)| then 1 else 0)
  }

  /** The transactions `getMissedTransactions` returns. */
  function Missed(candidates: seq<Transaction>, existing: seq<Transaction>): seq<Transaction> {
    MissedOver(candidates, existing, Keys(candidates))
  }

  /** The first argument passed to `onMissedTransactionsFound`. */
  function MoreCount(candidates: seq<Transaction>, existing: seq<Transaction>): nat {
    MoreOver(candidates, existing, Keys(candidates))
  }

  /** The second argument passed to `onMissedTransactionsFound`. */
  function LessCount(candidates: seq<Transaction>, existing: seq<Transaction>): nat {
    LessOver(candidates, existing, Keys(candidates))
  }

  /**
   * The loop of `getMissedTransactions` over the grouped candidates. The two
   * counters are returned: they are what the observer receives, once, after
   * the scan.
   */
  method GetMissedTransactions(transactionsToCheck: seq<Transaction>, stackTransactions: seq<Transaction>)
    returns (missedTransactions: seq<Transaction>, moreNewThanExisting: nat, lessNewThanExisting: nat)
    ensures missedTransactions == Missed(transactionsToCheck, stackTransactions)
    ensures moreNewThanExisting == MoreCount(transactionsToCheck, stackTransactions)
    ensures lessNewThanExisting == LessCount(transactionsToCheck, stackTransactions)
  {
    var toCheckByIdentifier := GroupByIdentifier(transactionsToCheck);
    var existingByIdentifier := GroupByIdentifier(stackTransactions);
    ghost var keys := toCheckByIdentifier.keys;
    missedTransactions := [];
    moreNewThanExisting := 0;
    lessNewThanExisting := 0;
    var i := 0;
    assert keys[..i] == [];
    while i < |toCheckByIdentifier.keys|
      invariant 0 <= i <= |keys|
      invariant missedTransactions == MissedOver(transactionsToCheck, stackTransactions, keys[..i])
      invariant moreNewThanExisting == MoreOver(transactionsToCheck, stackTransactions, keys[..i])
      invariant lessNewThanExisting == LessOver(transactionsToCheck, stackTransactions, keys[..i])
    {
      var identifier := toCheckByIdentifier.keys[i];
      GroupOf(transactionsToCheck, identifier);
      GroupOf(stackTransactions, identifier);
      var newTransactions := toCheckByIdentifier.byKey[identifier];
      var existingTransactions := Lookup(existingByIdentifier, identifier);
      assert newTransactions == WithIdentifier(transactionsToCheck, identifier);
      assert existingTransactions == WithIdentifier(stackTransactions, identifier);
      OverStep(transactionsToCheck, stackTransactions, keys, i);
      if |newTransactions| > |existingTransactions| {
        moreNewThanExisting := moreNewThanExisting + 1;
        var difference := |newTransactions| - |existingTransactions|;
        assert newTransactions[..difference] == Surplus(transactionsToCheck, stackTransactions, identifier);
        missedTransactions := missedTransactions + newTransactions[..difference];
      } else {
        assert Surplus(transactionsToCheck, stackTransactions, identifier) == [];
      }
      if |newTransactions| < |existingTransactions| {
        lessNewThanExisting := lessNewThanExisting + 1;
      }
      i := i + 1;
    }
    assert keys[..i] == keys;
  }

  /** Extending the scanned identifiers by one adds that identifier's share. */
  lemma OverStep(candidates: seq<Transaction>, existing: seq<Transaction>, keys: seq<string>, i: nat)
    requires i < |keys|
    ensures MissedOver(candidates, existing, keys[..i + 1])
      == MissedOver(candidates, existing, keys[..i]) + Surplus(candidates, existing, keys[i])
    ensures MoreOver(candidates, existing, keys[..i + 1])
      == MoreOver(candidates, existing, keys[..i])
        + (if |WithIdentifier(candidates, keys[i])| > |WithIdentifier(existing, keys[i])| then 1 else 0)
    ensures LessOver(candidates, existing, keys[..i + 1])
      == LessOver(candidates, existing, keys[..i])
        + (if |WithIdentifier(candidates, keys[i])| < |WithIdentifier(existing, keys[i])| then 1 else 0)
  {
    assert keys[..i + 1][..i] == keys[..i];
  }

  /** Every transaction of one identifier's surplus carries that identifier. */
  lemma SurplusHasIdentifier(candidates: seq<Transaction>, existing: seq<Transaction>, key: string)
    ensures forall t :: t in Surplus(candidates, existing, key) ==> Identifier(t) == key
  {
    var s := Surplus(candidates, existing, key);
    forall t | t in s ensures Identifier(t) == key {
      var i :| 0 <= i < |s| && s[i] == t;
      assert t in WithIdentifier(candidates, key);
      WithIdentifierMembers(candidates, key);
    }
  }

  lemma {:induction false} MissedOverByIdentifier(candidates: seq<Transaction>, existing: seq<Transaction>, keys: seq<string>, key: string)
    requires Distinct(keys)
    ensures WithIdentifier(MissedOver(candidates, existing, keys), key)
      == if key in keys then Surplus(candidates, existing, key) else []
    decreases |keys|
  {
    if keys != [] {
      var front, last := keys[..|keys| - 1], keys[|keys| - 1];
      assert Distinct(front);
      MissedOverByIdentifier(candidates, existing, front, key);
      FilterConcat(MissedOver(candidates, existing, front), Surplus(candidates, existing, last), t => Identifier(t) == key);
      SurplusHasIdentifier(candidates, existing, last);
      if last == key {
        FilterAll(Surplus(candidates, existing, last), t => Identifier(t) == key);
        assert key !in front;
      } else {
        FilterNone(Surplus(candidates, existing, last), t => Identifier(t) == key);
      }
      assert key in keys <==> key in front || key == last;
    }
  }

  /**
   * What the result holds under each identifier is exactly that
   * identifier's surplus: the first `n - m` of its candidates, in the order
   * met, when `n > m`, and nothing when `n <= m`.
   */
  lemma MissedByIdentifier(candidates: seq<Transaction>, existing: seq<Transaction>, key: string)
    ensures WithIdentifier(Missed(candidates, existing), key) == Surplus(candidates, existing, key)
  {
    KeysAreGroups(candidates);
    MissedOverByIdentifier(candidates, existing, Keys(candidates), key);
  }

  lemma MissedCount(candidates: seq<Transaction>, existing: seq<Transaction>, t: Transaction)
    ensures multiset(Missed(candidates, existing))[t] <= multiset(candidates)[t]
  {
    var key := Identifier(t);
    var missed := Missed(candidates, existing);
    var group := WithIdentifier(candidates, key);
    var surplus := Surplus(candidates, existing, key);
    MissedByIdentifier(candidates, existing, key);
    FilterCount(missed, u => Identifier(u) == key, t);
    assert multiset(missed)[t] == multiset(surplus)[t];
    FilterCount(candidates, u => Identifier(u) == key, t);
    assert multiset(group)[t] == multiset(candidates)[t];
    assert surplus == group[..|surplus|];
    PrefixCount(group, |surplus|, t);
  }

  lemma PrefixCount(s: seq<Transaction>, n: nat, t: Transaction)
    requires n <= |s|
    ensures multiset(s[..n])[t] <= multiset(s)[t]
  {
    assert s == s[..n] + s[n..];
  }

  /** No candidate is returned more often than it occurs among the candidates. */
  lemma MissedSubMultiset(candidates: seq<Transaction>, existing: seq<Transaction>)
    ensures multiset(Missed(candidates, existing)) <= multiset(candidates)
  {
    var missed := Missed(candidates, existing);
    forall t ensures multiset(missed)[t] <= multiset(candidates)[t] {
      MissedCount(candidates, existing, t);
    }
  }

  /** The sum of `max(0, n - m)` over the given identifiers. */
  function TotalExcess(candidates: seq<Transaction>, existing: seq<Transaction>, keys: seq<string>): nat
    decreases |keys|
  {
    if keys == [] then 0
    else
      var key := keys[|keys| - 1];
      TotalExcess(candidates, existing, keys[..|keys| - 1])
        + Excess(|WithIdentifier(candidates, key)|, |WithIdentifier(existing, key)|)
  }

  lemma {:induction false} MissedOverLength(candidates: seq<Transaction>, existing: seq<Transaction>, keys: seq<string>)
    ensures |MissedOver(candidates, existing, keys)| == TotalExcess(candidates, existing, keys)
    decreases |keys|
  {
    if keys != [] {
      MissedOverLength(candidates, existing, keys[..|keys| - 1]);
    }
  }

  /** The result has one transaction per unit of surplus, summed over the groups. */
  lemma MissedLength(candidates: seq<Transaction>, existing: seq<Transaction>)
    ensures |Missed(candidates, existing)| == TotalExcess(candidates, existing, Keys(candidates))
  {
    MissedOverLength(candidates, existing, Keys(candidates));
  }

  /** No candidates: nothing is missed and both counters are zero. */
  lemma NoCandidates(existing: seq<Transaction>)
    ensures Missed([], existing) == []
    ensures MoreCount([], existing) == 0 && LessCount([], existing) == 0
  {
  }

  /** When no identifier has more candidates than stored transactions, nothing is missed. */
  lemma NoSurplusNothingMissed(candidates: seq<Transaction>, existing: seq<Transaction>)
    requires forall k :: |WithIdentifier(candidates, k)| <= |WithIdentifier(existing, k)|
    ensures Missed(candidates, existing) == []
  {
    var missed := Missed(candidates, existing);
    if missed != [] {
      var t := missed[0];
      var key := Identifier(t);
      MissedByIdentifier(candidates, existing, key);
      FilterCount(missed, u => Identifier(u) == key, t);
      assert false;
    }
  }

  lemma {:induction false} MoreOverZero(candidates: seq<Transaction>, existing: seq<Transaction>, keys: seq<string>)
    ensures MoreOver(candidates, existing, keys) == 0 <==> MissedOver(candidates, existing, keys) == []
    decreases |keys|
  {
    if keys != [] {
      MoreOverZero(candidates, existing, keys[..|keys| - 1]);
    }
  }

  /** Something is missed exactly when some group reports more candidates than stored transactions. */
  lemma MissedIffMore(candidates: seq<Transaction>, existing: seq<Transaction>)
    ensures Missed(candidates, existing) == [] <==> MoreCount(candidates, existing) == 0
  {
    MoreOverZero(candidates, existing, Keys(candidates));
  }

  /** The identifiers of the candidates with more candidates than stored transactions. */
  function MoreGroups(candidates: seq<Transaction>, existing: seq<Transaction>, keys: seq<string>): set<string> {
    set k | k in keys && |WithIdentifier(candidates, k)| > |WithIdentifier(existing, k)|
  }

  /** The identifiers of the candidates with fewer candidates than stored transactions. */
  function LessGroups(candidates: seq<Transaction>, existing: seq<Transaction>, keys: seq<string>): set<string> {
    set k | k in keys && |WithIdentifier(candidates, k)| < |WithIdentifier(existing, k)|
  }

  lemma {:induction false} MoreOverCountsGroups(candidates: seq<Transaction>, existing: seq<Transaction>, keys: seq<string>)
    requires Distinct(keys)
    ensures MoreOver(candidates, existing, keys) == |MoreGroups(candidates, existing, keys)|
    decreases |keys|
  {
    if keys != [] {
      var front, last := keys[..|keys| - 1], keys[|keys| - 1];
      assert Distinct(front);
      MoreOverCountsGroups(candidates, existing, front);
      var before := MoreGroups(candidates, existing, front);
      var added: set<string> := if |WithIdentifier(candidates, last)| > |WithIdentifier(existing, last)| then {last} else {};
      assert last !in before;
      forall k ensures k in MoreGroups(candidates, existing, keys) <==> k in before + added {
        assert k in keys <==> k in front || k == last by {
          assert keys == front + [last];
        }
      }
      assert MoreGroups(candidates, existing, keys) == before + added;
    }
  }

  lemma {:induction false} LessOverCountsGroups(candidates: seq<Transaction>, existing: seq<Transaction>, keys: seq<string>)
    requires Distinct(keys)
    ensures LessOver(candidates, existing, keys) == |LessGroups(candidates, existing, keys)|
    decreases |keys|
  {
    if keys != [] {
      var front, last := keys[..|keys| - 1], keys[|keys| - 1];
      assert Distinct(front);
      LessOverCountsGroups(candidates, existing, front);
      var before := LessGroups(candidates, existing, front);
      var added: set<string> := if |WithIdentifier(candidates, last)| < |WithIdentifier(existing, last)| then {last} else {};
      assert last !in before;
      forall k ensures k in LessGroups(candidates, existing, keys) <==> k in before + added {
        assert k in keys <==> k in front || k == last by {
          assert keys == front + [last];
        }
      }
      assert LessGroups(candidates, existing, keys) == before + added;
    }
  }

  /**
   * The observer's two numbers count the groups with more candidates than
   * stored transactions and the groups with fewer; a group with as many of
   * each is in neither, so together they never exceed the number of groups.
   */
  lemma ObserverCounts(candidates: seq<Transaction>, existing: seq<Transaction>)
    ensures MoreCount(candidates, existing) == |MoreGroups(candidates, existing, Keys(candidates))|
    ensures LessCount(candidates, existing) == |LessGroups(candidates, existing, Keys(candidates))|
    ensures MoreCount(candidates, existing) + LessCount(candidates, existing) <= |Keys(candidates)|
  {
    var keys := Keys(candidates);
    KeysAreGroups(candidates);
    MoreOverCountsGroups(candidates, existing, keys);
    LessOverCountsGroups(candidates, existing, keys);
    var more, less := MoreGroups(candidates, existing, keys), LessGroups(candidates, existing, keys);
    var all := set k | k in keys;
    DistinctCardinality(keys);
    DisjointPartsBound(more, less, all);
  }

  /** Two disjoint parts of a set hold no more elements than the set. */
  lemma DisjointPartsBound(part1: set<string>, part2: set<string>, all: set<string>)
    requires part1 !! part2
    requires part1 <= all && part2 <= all
    ensures |part1| + |part2| <= |all|
  {
    assert all == (part1 + part2) + (all - (part1 + part2));
  }

  lemma {:induction false} DistinctCardinality(keys: seq<string>)
    requires Distinct(keys)
    ensures |set k | k in keys| == |keys|
    decreases |keys|
  {
    if keys != [] {
      var front := keys[..|keys| - 1];
      assert Distinct(front);
      DistinctCardinality(front);
      assert (set k | k in keys) == (set k | k in front) + {keys[|keys| - 1]};
    }
  }

  /** A batch whose transactions all share one identifier forms a single group. */
  lemma OneIdentifier(batch: seq<Transaction>, key: string)
    requires forall t :: t in batch ==> Identifier(t) == key
    ensures WithIdentifier(batch, key) == batch
    ensures batch != [] ==> Keys(batch) == [key]
  {
    FilterAll(batch, t => Identifier(t) == key);
    if batch != [] {
      KeysAreGroups(batch);
      var keys := Keys(batch);
      OnlyKey(batch, key);
      assert (set k | k in keys) == {key};
      DistinctCardinality(keys);
    }
  }

  /** A non-empty batch sharing one identifier lists that identifier and no other. */
  lemma OnlyKey(batch: seq<Transaction>, key: string)
    requires batch != []
    requires forall t :: t in batch ==> Identifier(t) == key
    ensures key in Keys(batch)
    ensures forall k :: k in Keys(batch) ==> k == key
  {
    KeysInFirstOccurrenceOrder(batch);
    forall k | k in Keys(batch) ensures k == key {
      FirstIndexIsFirst(batch, k);
      assert batch[FirstIndex(batch, k)] in batch;
    }
    FirstIndexIsFirst(batch, key);
    assert batch[0] in batch;
  }

  /**
   * Candidates and stored transactions that all share one identifier: with
   * `n` candidates and `m` stored ones, the first `n - m` candidates are
   * missed when `n > m`, and nothing otherwise. Three candidates against one
   * stored transaction give the first two candidates.
   */
  lemma OneIdentifierSurplus(candidates: seq<Transaction>, existing: seq<Transaction>, key: string)
    requires candidates != []
    requires forall t :: t in candidates ==> Identifier(t) == key
    requires forall t :: t in existing ==> Identifier(t) == key
    ensures Missed(candidates, existing)
      == if |candidates| > |existing| then candidates[..|candidates| - |existing|] else []
  {
    OneIdentifier(candidates, key);
    OneIdentifier(existing, key);
    assert [key][..0] == [];
    assert MissedOver(candidates, existing, [key])
      == MissedOver(candidates, existing, []) + Surplus(candidates, existing, key);
  }

  /**
   * In the same situation the observer hears (1, 0), (0, 1) or (0, 0) as
   * `n` is above, below or equal to `m`.
   */
  lemma OneIdentifierCounts(candidates: seq<Transaction>, existing: seq<Transaction>, key: string)
    requires candidates != []
    requires forall t :: t in candidates ==> Identifier(t) == key
    requires forall t :: t in existing ==> Identifier(t) == key
    ensures MoreCount(candidates, existing) == if |candidates| > |existing| then 1 else 0
    ensures LessCount(candidates, existing) == if |candidates| < |existing| then 1 else 0
  {
    OneIdentifier(candidates, key);
    OneIdentifier(existing, key);
    assert [key][..0] == [];
    var n, m := |WithIdentifier(candidates, key)|, |WithIdentifier(existing, key)|;
    assert n == |candidates| && m == |existing|;
    assert MoreOver(candidates, existing, [key]) == MoreOver(candidates, existing, []) + (if n > m then 1 else 0);
    assert LessOver(candidates, existing, [key]) == LessOver(candidates, existing, []) + (if n < m then 1 else 0);
  }
}
