/** Circular doubly linked chains. */
module Rings {
  // The shape behind every kernel queue (rt_list_t), the block list and the free list of
  // memheap and the timer rows. The fields of the C structures are kept as one map per
  // field, from the address of a node to the field's value.

  ghost predicate Distinct<N>(c: seq<N>) {
    forall i, j :: 0 <= i < j < |c| ==> c[i] != c[j]
  }

  function Succ(i: nat, n: nat): nat
    requires i < n
  {
    if i + 1 == n then 0 else i + 1
  }

  /** Following next from c[0] visits c in order and returns to c[0];
      prev is the inverse. */
  ghost predicate Ring<N>(next: map<N, N>, prev: map<N, N>, c: seq<N>) {
    && |c| > 0
    && Distinct(c)
    && (forall i :: 0 <= i < |c| ==> c[i] in next && c[i] in prev)
    && (forall i :: 0 <= i < |c| ==> Linked(next, prev, c, i))
  }

  ghost predicate Linked<N>(next: map<N, N>, prev: map<N, N>, c: seq<N>, i: nat)
    requires i < |c| && forall i :: 0 <= i < |c| ==> c[i] in next && c[i] in prev
  {
    && next[c[i]] == c[Succ(i, |c|)]
    && prev[c[Succ(i, |c|)]] == c[i]
  }

  function InsertAt<N>(c: seq<N>, i: nat, n: N): (r: seq<N>)
    requires i <= |c|
    ensures |r| == |c| + 1
    ensures forall k :: 0 <= k < |r| ==> r[k] == if k < i then c[k] else if k == i then n else c[k - 1]
  {
    c[..i] + [n] + c[i..]
  }

  function RemoveAt<N>(c: seq<N>, i: nat): (r: seq<N>)
    requires i < |c|
    ensures |r| == |c| - 1
    ensures forall k :: 0 <= k < |r| ==> r[k] == if k < i then c[k] else c[k + 1]
  {
    c[..i] + c[i + 1..]
  }

  lemma InsertRemoveSwap<N>(c: seq<N>, i: nat, n: N)
    requires i < |c|
    ensures RemoveAt(InsertAt(c, i, n), i + 1) == InsertAt(RemoveAt(c, i), i, n)
  {
    var a, b := RemoveAt(InsertAt(c, i, n), i + 1), InsertAt(RemoveAt(c, i), i, n);
    forall j | 0 <= j < |a| ensures a[j] == b[j] { }
  }

  lemma DistinctInsert<N>(c: seq<N>, i: nat, n: N)
    requires Distinct(c) && i <= |c| && n !in c
    ensures Distinct(InsertAt(c, i, n))
  {
    var r := InsertAt(c, i, n);
    forall j, k | 0 <= j < k < |r| ensures r[j] != r[k] {
      var oj := if j < i then j else j - 1;
      var ok := if k < i then k else k - 1;
      if j == i { assert r[k] == c[ok]; } else if k == i { assert r[j] == c[oj]; }
    }
  }

  lemma DistinctRemove<N>(c: seq<N>, i: nat)
    requires Distinct(c) && i < |c|
    ensures Distinct(RemoveAt(c, i))
  {
  }

  lemma InsertMembers<E>(s: seq<E>, at: nat, e: E)
    requires at <= |s|
    ensures forall x :: x in InsertAt(s, at, e) <==> x == e || x in s
  {
    var r := InsertAt(s, at, e);
    assert r[at] == e;
    forall x | x in s ensures x in r {
      var i :| 0 <= i < |s| && s[i] == x;
      assert r[if i < at then i else i + 1] == x;
    }
  }

  lemma RemoveMembers<E>(s: seq<E>, i: nat)
    requires Distinct(s) && i < |s|
    ensures forall x :: x in RemoveAt(s, i) <==> x != s[i] && x in s
  {
    var r := RemoveAt(s, i);
    forall x | x in s && x != s[i] ensures x in r {
      var j :| 0 <= j < |s| && s[j] == x;
      assert r[if j < i then j else j - 1] == x;
    }
  }

  lemma RingOfTwo<N>(a: N, b: N)
    requires a != b
    ensures Ring(map[a := b, b := a], map[a := b, b := a], [a, b])
  {
    var m, c := map[a := b, b := a], [a, b];
    assert Linked(m, m, c, 0) && Linked(m, m, c, 1);
  }

  /** The four assignments of rt_list_insert_after(c[i], n). */
  lemma RingInsertAfter<N>(next: map<N, N>, prev: map<N, N>, c: seq<N>, i: nat, n: N)
    requires Ring(next, prev, c) && i < |c| && n !in c
    ensures var l := c[i]; var q := next[l];
            Ring(next[n := q][l := n], prev[q := n][n := l], InsertAt(c, i + 1, n))
  {
    var l, q := c[i], next[c[i]];
    var r := InsertAt(c, i + 1, n);
    var next', prev' := next[n := q][l := n], prev[q := n][n := l];
    DistinctInsert(c, i + 1, n);
    assert Linked(next, prev, c, i);
    forall k | 0 <= k < |r| ensures r[k] in next' && r[k] in prev' {
      if k != i + 1 { assert r[k] == c[if k <= i then k else k - 1]; }
    }
    forall k | 0 <= k < |r| ensures Linked(next', prev', r, k) {
      if k < i { assert Linked(next, prev, c, k); }
      if k > i + 1 { assert Linked(next, prev, c, k - 1); }
    }
  }

  /** The two unlinking assignments of rt_list_remove(c[i]). */
  lemma RingRemove<N>(next: map<N, N>, prev: map<N, N>, c: seq<N>, i: nat)
    requires Ring(next, prev, c) && i < |c| && |c| > 1
    ensures var p := prev[c[i]]; var q := next[c[i]];
            Ring(next[p := q], prev[q := p], RemoveAt(c, i))
  {
    var p, q := prev[c[i]], next[c[i]];
    var r := RemoveAt(c, i);
    var next', prev' := next[p := q], prev[q := p];
    DistinctRemove(c, i);
    var j := if i == 0 then |c| - 1 else i - 1;
    assert Linked(next, prev, c, i) && Linked(next, prev, c, j);
    forall k | 0 <= k < |r| ensures r[k] in next' && r[k] in prev' {
      assert r[k] == c[if k < i then k else k + 1];
    }
    forall k | 0 <= k < |r| ensures Linked(next', prev', r, k) {
      assert Linked(next, prev, c, if k < i then k else k + 1);
    }
  }

  /** Writes to nodes outside a ring leave it intact. */
  lemma RingFrame<N>(next: map<N, N>, prev: map<N, N>, next': map<N, N>, prev': map<N, N>, c: seq<N>)
    requires Ring(next, prev, c)
    requires forall x :: x in c ==> x in next' && next'[x] == next[x] && x in prev' && prev'[x] == prev[x]
    ensures Ring(next', prev', c)
  {
    forall k | 0 <= k < |c| ensures Linked(next', prev', c, k) {
      assert Linked(next, prev, c, k);
    }
  }
}
