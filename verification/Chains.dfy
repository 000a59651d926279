/** NULL-terminated singly linked chains. */
module Chains {
  // The message chains of a message queue, the free blocks of a memory pool, the chunks and
  // page runs of the slab.

  import opened Rings

  datatype Option<+T> = None | Some(value: T)

  /** next leads from c[i] to the node behind it, or to None at the end. */
  ghost predicate Follows<N>(next: map<N, Option<N>>, c: seq<N>, i: nat)
    requires i < |c|
  {
    c[i] in next && next[c[i]] == if i + 1 < |c| then Some(c[i + 1]) else None
  }

  ghost function First<N>(c: seq<N>): Option<N> {
    if c == [] then None else Some(c[0])
  }

  ghost function Last<N>(c: seq<N>): Option<N> {
    if c == [] then None else Some(c[|c| - 1])
  }

  ghost predicate Chain<N>(next: map<N, Option<N>>, head: Option<N>, c: seq<N>) {
    head == First(c) && forall i :: 0 <= i < |c| ==> Follows(next, c, i)
  }

  lemma ChainPush<N>(next: map<N, Option<N>>, head: Option<N>, c: seq<N>, n: N)
    requires Chain(next, head, c) && n !in c
    ensures Chain(next[n := head], Some(n), [n] + c)
  {
    var d, next' := [n] + c, next[n := head];
    forall i | 0 <= i < |d| ensures Follows(next', d, i) {
      if i > 0 { assert Follows(next, c, i - 1); }
    }
  }

  lemma ChainPop<N>(next: map<N, Option<N>>, head: Option<N>, c: seq<N>)
    requires Chain(next, head, c) && c != []
    ensures head == Some(c[0]) && c[0] in next && Chain(next, next[c[0]], c[1..])
    ensures Last(c) == head <==> |c| == 1 || c[|c| - 1] == c[0]
  {
    assert Follows(next, c, 0);
    forall i | 0 <= i < |c[1..]| ensures Follows(next, c[1..], i) {
      assert Follows(next, c, i + 1);
    }
  }

  /** Linking n, which points nowhere, behind the last node. */
  lemma ChainAppend<N>(next: map<N, Option<N>>, head: Option<N>, c: seq<N>, n: N)
    requires Chain(next, head, c) && Distinct(c) && n !in c && n in next && next[n] == None
    ensures var next' := if c == [] then next else next[c[|c| - 1] := Some(n)];
            Chain(next', First(c + [n]), c + [n])
  {
    var d, next' := c + [n], if c == [] then next else next[c[|c| - 1] := Some(n)];
    forall i | 0 <= i < |d| ensures Follows(next', d, i) {
      if i < |c| { assert Follows(next, c, i); }
    }
  }

  lemma ChainFrame<N>(next: map<N, Option<N>>, next': map<N, Option<N>>, head: Option<N>, c: seq<N>)
    requires Chain(next, head, c) && forall n :: n in c ==> n in next' && n in next && next'[n] == next[n]
    ensures Chain(next', head, c)
  {
    forall i | 0 <= i < |c| ensures Follows(next', c, i) {
      assert Follows(next, c, i) && c[i] in c;
    }
  }

  lemma {:induction false} DistinctFits<N>(c: seq<N>, s: set<N>)
    requires Distinct(c) && forall n :: n in c ==> n in s
    ensures |c| <= |s|
  {
    if c != [] {
      var d := c[..|c| - 1];
      forall n | n in d ensures n in s - {c[|c| - 1]} { }
      DistinctFits(d, s - {c[|c| - 1]});
    }
  }

  /** The parts of a distinct sequence split in front. */
  lemma DistinctHead<N>(c: seq<N>)
    requires Distinct(c) && c != []
    ensures Distinct(c[1..]) && forall n :: n in c <==> n == c[0] || n in c[1..]
    ensures c[0] !in c[1..]
  {
    assert c == [c[0]] + c[1..];
  }

  lemma DistinctPush<N>(c: seq<N>, n: N)
    requires Distinct(c) && n !in c
    ensures Distinct([n] + c) && Distinct(c + [n])
    ensures forall x :: x in [n] + c <==> x == n || x in c
    ensures forall x :: x in c + [n] <==> x == n || x in c
  {
  }

  ghost function Members<N>(c: seq<N>): set<N> {
    set n | n in c
  }

  lemma {:induction false} DistinctCount<N>(c: seq<N>)
    requires Distinct(c)
    ensures |Members(c)| == |c|
  {
    if c == [] {
      assert Members(c) == {};
    } else {
      DistinctHead(c);
      DistinctCount(c[1..]);
      assert Members(c) == Members(c[1..]) + {c[0]} && c[0] !in Members(c[1..]);
    }
  }

  lemma Disjoint3<N>(a: set<N>, b: set<N>, c: set<N>)
    requires a !! b && a !! c && b !! c
    ensures |a + b + c| == |a| + |b| + |c|
  {
    assert (a + b) * c == {} && a * b == {};
    assert |a + b| == |a| + |b|;
    assert |(a + b) + c| == |a + b| + |c|;
  }
}
