/** Ordered queues with ties in arrival order. */
module Ordered {
  // Suspend lists by priority, timer rows by deadline. The key of an element is looked up in
  // a map.

  import opened Lists
  import opened Rings

  /** Where a linear scan for key p stops: before the first element with a greater
      key, so behind every element with the same key. */
  ghost function Slot(s: seq<nat>, key: map<nat, nat>, p: nat): (j: nat)
    ensures j <= |s|
    ensures forall k :: 0 <= k < j && s[k] in key ==> key[s[k]] <= p
    ensures j < |s| ==> s[j] in key && p < key[s[j]]
  {
    if s == [] then 0
    else if s[0] in key && p < key[s[0]] then 0
    else 1 + Slot(s[1..], key, p)
  }

  lemma {:induction false} SlotIs(s: seq<nat>, key: map<nat, nat>, p: nat, j: nat)
    requires j <= |s|
    requires forall k :: 0 <= k < j ==> s[k] in key && key[s[k]] <= p
    requires j < |s| ==> s[j] in key && p < key[s[j]]
    ensures Slot(s, key, p) == j
  {
    if j > 0 {
      assert s[0] in key;
      SlotIs(s[1..], key, p, j - 1);
    }
  }

  ghost predicate InOrder(s: seq<nat>, key: map<nat, nat>, i: nat, j: nat)
    requires i < |s| && j < |s|
  {
    s[i] in key && s[j] in key && key[s[i]] <= key[s[j]]
  }

  ghost predicate Sorted(s: seq<nat>, key: map<nat, nat>) {
    forall i, j :: 0 <= i <= j < |s| ==> InOrder(s, key, i, j)
  }

  lemma SortedInsert(s: seq<nat>, key: map<nat, nat>, j: nat, t: nat)
    requires Sorted(s, key) && j <= |s| && t in key
    requires forall k :: 0 <= k < |s| ==> s[k] in key && (k < j <==> key[s[k]] <= key[t])
    ensures Sorted(InsertAt(s, j, t), key)
  {
    var r := InsertAt(s, j, t);
    forall a, b | 0 <= a <= b < |r| ensures InOrder(r, key, a, b) {
      var a', b' := if a < j then a else a - 1, if b < j then b else b - 1;
      if a != j && b != j { assert InOrder(s, key, a', b'); }
    }
  }

  lemma SortedRemove(s: seq<nat>, key: map<nat, nat>, x: nat)
    requires Sorted(s, key) && x < |s|
    ensures Sorted(RemoveAt(s, x), key)
  {
    var r := RemoveAt(s, x);
    forall i, j | 0 <= i <= j < |r| ensures InOrder(r, key, i, j) {
      var i', j' := if i < x then i else i + 1, if j < x then j else j + 1;
      assert InOrder(s, key, i', j') && r[i] == s[i'] && r[j] == s[j'];
    }
  }

  lemma SortedWithout(s: seq<nat>, key: map<nat, nat>, t: nat)
    requires Sorted(s, key)
    ensures Sorted(Without(s, t), key)
  {
    hide Sorted;
    if t in s {
      var x := WithoutIs(s, t);
      SortedRemove(s, key, x);
    }
  }

  /** Inserting there keeps the queue sorted with ties in arrival order: everything
      up to the key is in front, everything beyond it behind. */
  lemma SlotSorts(s: seq<nat>, key: map<nat, nat>, t: nat)
    requires Sorted(s, key) && t in key
    ensures var j := Slot(s, key, key[t]);
            && Sorted(InsertAt(s, j, t), key)
            && (forall k :: 0 <= k < |s| ==> s[k] in key && (k < j <==> key[s[k]] <= key[t]))
  {
    hide Slot;
    var j := Slot(s, key, key[t]);
    SlotSplits(s, key, key[t]);
    SortedInsert(s, key, j, t);
  }

  lemma SlotSplits(s: seq<nat>, key: map<nat, nat>, p: nat)
    requires Sorted(s, key)
    ensures forall k :: 0 <= k < |s| ==> s[k] in key && (k < Slot(s, key, p) <==> key[s[k]] <= p)
  {
    hide Slot;
    var j := Slot(s, key, p);
    forall k | 0 <= k < |s| ensures s[k] in key && (k < j <==> key[s[k]] <= p) {
      assert InOrder(s, key, k, k);
      if j <= k { assert InOrder(s, key, j, k); }
    }
  }

  lemma SortedSame(s: seq<nat>, key: map<nat, nat>, key': map<nat, nat>)
    requires Sorted(s, key) && forall t :: t in s ==> t in key' && t in key && key'[t] == key[t]
    ensures Sorted(s, key')
  {
    forall i, j | 0 <= i <= j < |s| ensures InOrder(s, key', i, j) {
      assert InOrder(s, key, i, j) && s[i] in s && s[j] in s;
    }
  }

  /** The first of a sorted list is as urgent as the rest. */
  lemma SortedHead(s: seq<nat>, key: map<nat, nat>, x: nat)
    requires Sorted(s, key) && Distinct(s) && s != [] && x in s[1..]
    ensures x != s[0] && x in s && s[0] in key && x in key && key[s[0]] <= key[x]
  {
    var i :| 0 <= i < |s| - 1 && s[1..][i] == x;
    assert InOrder(s, key, 0, i + 1) && s[i + 1] == x;
  }

  lemma SortedRest(s: seq<nat>, key: map<nat, nat>)
    requires Sorted(s, key) && Distinct(s) && s != []
    ensures Sorted(s[1..], key) && Distinct(s[1..]) && forall x :: x in s[1..] ==> x in s
  {
    DistinctRemove(s, 0);
    SortedRemove(s, key, 0);
    assert RemoveAt(s, 0) == s[1..];
  }
}
