/**
 * Order-preserving selection over batches of transactions: JavaScript's
 * `Array.prototype.filter`, and lodash `groupBy` keyed by identifier
 * (groups listed in the order their first member is met, as `Object.entries`
 * lists keys that are not index-like).
 */
module Selection {
  import opened Transactions

  /** `filter`: the elements that pass `keep`, in their original order. */
  function Filter(s: seq<Transaction>, keep: Transaction -> bool): (r: seq<Transaction>)
    ensures |r| <= |s|
    ensures forall t :: t in r ==> t in s && keep(t)
  {
    if s == [] then []
    else Filter(s[..|s| - 1], keep) + (if keep(s[|s| - 1]) then [s[|s| - 1]] else [])
  }

  lemma {:induction false} FilterConcat(a: seq<Transaction>, b: seq<Transaction>, keep: Transaction -> bool)
    ensures Filter(a + b, keep) == Filter(a, keep) + Filter(b, keep)
    decreases |b|
  {
    if b == [] {
      assert a + b == a;
    } else {
      var b' := b[..|b| - 1];
      assert (a + b)[..|a + b| - 1] == a + b';
      assert (a + b)[|a + b| - 1] == b[|b| - 1];
      FilterConcat(a, b', keep);
    }
  }

  /** A filter keeps every copy of an element it accepts and none of one it rejects. */
  lemma {:induction false} FilterCount(s: seq<Transaction>, keep: Transaction -> bool, t: Transaction)
    ensures multiset(Filter(s, keep))[t] == if keep(t) then multiset(s)[t] else 0
    decreases |s|
  {
    if s != [] {
      var s' := s[..|s| - 1];
      FilterCount(s', keep, t);
      assert s == s' + [s[|s| - 1]];
    }
  }

  lemma FilterSubMultiset(s: seq<Transaction>, keep: Transaction -> bool)
    ensures multiset(Filter(s, keep)) <= multiset(s)
  {
    forall t ensures multiset(Filter(s, keep))[t] <= multiset(s)[t] {
      FilterCount(s, keep, t);
    }
  }

  lemma {:induction false} FilterAll(s: seq<Transaction>, keep: Transaction -> bool)
    requires forall t :: t in s ==> keep(t)
    ensures Filter(s, keep) == s
    decreases |s|
  {
    if s != [] {
      var s' := s[..|s| - 1];
      assert forall t :: t in s' ==> t in s;
      FilterAll(s', keep);
      assert keep(s[|s| - 1]) == true by { assert s[|s| - 1] in s; }
      assert s == s' + [s[|s| - 1]];
    }
  }

  lemma {:induction false} FilterNone(s: seq<Transaction>, keep: Transaction -> bool)
    requires forall t :: t in s ==> !keep(t)
    ensures Filter(s, keep) == []
    decreases |s|
  {
    if s != [] {
      var s' := s[..|s| - 1];
      assert forall t :: t in s' ==> t in s;
      FilterNone(s', keep);
      assert keep(s[|s| - 1]) == false by { assert s[|s| - 1] in s; }
      assert s == s' + [s[|s| - 1]];
    }
  }

  /** Two tests that agree on every element select the same elements. */
  lemma {:induction false} FilterSameTest(s: seq<Transaction>, keep1: Transaction -> bool, keep2: Transaction -> bool)
    requires forall t :: t in s ==> keep1(t) == keep2(t)
    ensures Filter(s, keep1) == Filter(s, keep2)
    decreases |s|
  {
    if s != [] {
      var s' := s[..|s| - 1];
      assert forall t :: t in s' ==> t in s;
      FilterSameTest(s', keep1, keep2);
      assert keep1(s[|s| - 1]) == keep2(s[|s| - 1]) by { assert s[|s| - 1] in s; }
    }
  }

  /**
   * Two tests that never both hold select disjoint parts of `s`; when one of
   * them holds of every element, the two parts make up all of `s`.
   */
  lemma FilterSplit(s: seq<Transaction>, keep1: Transaction -> bool, keep2: Transaction -> bool)
    requires forall t :: !(keep1(t) && keep2(t))
    ensures multiset(Filter(s, keep1)) + multiset(Filter(s, keep2)) <= multiset(s)
    ensures (forall t :: t in s ==> keep1(t) || keep2(t)) ==>
      multiset(Filter(s, keep1)) + multiset(Filter(s, keep2)) == multiset(s)
  {
    forall t
      ensures multiset(Filter(s, keep1))[t] + multiset(Filter(s, keep2))[t] <= multiset(s)[t]
      ensures (keep1(t) || keep2(t)) ==>
        multiset(Filter(s, keep1))[t] + multiset(Filter(s, keep2))[t] == multiset(s)[t]
    {
      FilterCount(s, keep1, t);
      FilterCount(s, keep2, t);
    }
    if forall t :: t in s ==> keep1(t) || keep2(t) {
      forall t
        ensures multiset(Filter(s, keep1))[t] + multiset(Filter(s, keep2))[t] == multiset(s)[t]
      {
        if t !in s {
          FilterCount(s, keep1, t);
          FilterCount(s, keep2, t);
        }
      }
    }
  }

  /** The transactions of `s` whose identifier is `key`, in order: one lodash group. */
  function WithIdentifier(s: seq<Transaction>, key: string): seq<Transaction> {
    Filter(s, t => Identifier(t) == key)
  }

  lemma WithIdentifierMembers(s: seq<Transaction>, key: string)
    ensures forall t :: t in WithIdentifier(s, key) ==> t in s && Identifier(t) == key
  {
  }

  /** The result of lodash `groupBy`: the keys in insertion order, and the groups. */
  datatype Groups = Groups(keys: seq<string>, byKey: map<string, seq<Transaction>>)

  /**
   * lodash `groupBy(s, getIdentifier)`: every transaction is pushed onto the
   * group of its identifier, a new key being appended the first time it is
   * met.
   */
  function GroupByIdentifier(s: seq<Transaction>): Groups {
    if s == [] then Groups([], map[])
    else
      var g := GroupByIdentifier(s[..|s| - 1]);
      var t := s[|s| - 1];
      var key := Identifier(t);
      if key in g.byKey then Groups(g.keys, g.byKey[key := g.byKey[key] + [t]])
      else Groups(g.keys + [key], g.byKey[key := [t]])
  }

  /** `groups[key] || []`: the group of a key, empty when the key has none. */
  function Lookup(g: Groups, key: string): seq<Transaction> {
    if key in g.byKey then g.byKey[key] else []
  }

  /**
   * The keys of the grouping are distinct and are exactly the identifiers
   * that occur in `s`; the group of every key, present or not, is the
   * order-preserving selection of that identifier, and a present key's group
   * is never empty.
   */
  lemma {:induction false} GroupByIdentifierGroups(s: seq<Transaction>)
    ensures forall k :: k in GroupByIdentifier(s).byKey <==> k in GroupByIdentifier(s).keys
    ensures forall i, j :: 0 <= i < j < |GroupByIdentifier(s).keys| ==>
      GroupByIdentifier(s).keys[i] != GroupByIdentifier(s).keys[j]
    ensures forall k :: Lookup(GroupByIdentifier(s), k) == WithIdentifier(s, k)
    ensures forall k :: k in GroupByIdentifier(s).byKey ==> GroupByIdentifier(s).byKey[k] != []
    decreases |s|
  {
    if s != [] {
      var s' := s[..|s| - 1];
      GroupByIdentifierGroups(s');
      forall k ensures Lookup(GroupByIdentifier(s), k) == WithIdentifier(s, k) {
        assert Lookup(GroupByIdentifier(s'), k) == WithIdentifier(s', k);
      }
    }
  }

  /** One key's share of `GroupByIdentifierGroups`, without quantifiers. */
  lemma GroupOf(s: seq<Transaction>, key: string)
    ensures key in GroupByIdentifier(s).byKey <==> key in GroupByIdentifier(s).keys
    ensures Lookup(GroupByIdentifier(s), key) == WithIdentifier(s, key)
  {
    GroupByIdentifierGroups(s);
  }

  /**
   * The index of the first transaction of `s` with identifier `key`, or
   * `|s|` when there is none.
   */
  function FirstIndex(s: seq<Transaction>, key: string): (i: nat)
    ensures i <= |s|
  {
    if s == [] then 0
    else
      var i := FirstIndex(s[..|s| - 1], key);
      if i < |s| - 1 then i
      else if Identifier(s[|s| - 1]) == key then |s| - 1
      else |s|
  }

  /** `FirstIndex` finds the identifier, and no earlier transaction has it. */
  lemma {:induction false} FirstIndexIsFirst(s: seq<Transaction>, key: string)
    ensures FirstIndex(s, key) < |s| ==> Identifier(s[FirstIndex(s, key)]) == key
    ensures forall j :: 0 <= j < FirstIndex(s, key) ==> Identifier(s[j]) != key
    decreases |s|
  {
    if s != [] {
      var s' := s[..|s| - 1];
      FirstIndexIsFirst(s', key);
    }
  }

  /**
   * lodash `groupBy` lists the keys in the order of their first occurrence
   * in `s`: a key is listed exactly when it occurs, and of two keys the one
   * met first comes first. This is the order `Object.entries` returns.
   */
  lemma {:induction false} KeysInFirstOccurrenceOrder(s: seq<Transaction>)
    ensures forall k :: k in GroupByIdentifier(s).keys <==> FirstIndex(s, k) < |s|
    ensures forall i, j :: 0 <= i < j < |GroupByIdentifier(s).keys| ==>
      FirstIndex(s, GroupByIdentifier(s).keys[i]) < FirstIndex(s, GroupByIdentifier(s).keys[j])
    decreases |s|
  {
    if s != [] {
      var s' := s[..|s| - 1];
      var last := Identifier(s[|s| - 1]);
      KeysInFirstOccurrenceOrder(s');
      GroupByIdentifierGroups(s');
      var keys', keys := GroupByIdentifier(s').keys, GroupByIdentifier(s).keys;
      assert last in keys' <==> last in GroupByIdentifier(s').byKey;
      forall k ensures FirstIndex(s, k) == if FirstIndex(s', k) < |s'| then FirstIndex(s', k)
                                           else if last == k then |s| - 1 else |s| {
      }
      if last in keys' {
        assert keys == keys';
      } else {
        assert keys == keys' + [last];
      }
    }
  }
}
