/** The intrusive list operations of rtservice.h on a shared pool of nodes.

    A node is either the head embedded in an object (a ready queue, a suspend
    list) or the tlist member of a thread. The class holds the two pointer
    fields; `contents` is the abstract value: the elements of every list, in
    order. Each operation performs the pointer writes of the C function and is
    proved to be the matching sequence operation on one list and to leave
    every other list alone. */
module Lists {
  import opened Rings

  datatype Node<H, E> = Head(h: H) | Elem(e: E)

  function CycleOf<H, E>(h: H, s: seq<E>): (c: seq<Node<H, E>>)
    ensures |c| == |s| + 1 && c[0] == Head(h)
    ensures forall i :: 0 < i < |c| ==> c[i] == Elem(s[i - 1])
  {
    seq(|s| + 1, i requires 0 <= i < |s| + 1 => if i == 0 then Head(h) else Elem(s[i - 1]))
  }

  /** Inserting or removing node j + 1 of a ring inserts or removes element j. */
  lemma CycleInsert<H, E>(h: H, s: seq<E>, j: nat, e: E)
    requires j <= |s|
    ensures InsertAt(CycleOf(h, s), j + 1, Elem(e)) == CycleOf(h, InsertAt(s, j, e))
  {
    var a, b := InsertAt(CycleOf(h, s), j + 1, Elem(e)), CycleOf(h, InsertAt(s, j, e));
    forall k | 0 <= k < |a| ensures a[k] == b[k] { }
  }

  lemma CycleRemove<H, E>(h: H, s: seq<E>, j: nat)
    requires j < |s|
    ensures RemoveAt(CycleOf(h, s), j + 1) == CycleOf(h, RemoveAt(s, j))
  {
    var a, b := RemoveAt(CycleOf(h, s), j + 1), CycleOf(h, RemoveAt(s, j));
    forall k | 0 <= k < |a| ensures a[k] == b[k] { }
  }

  lemma CycleNodes<H, E>(h: H, s: seq<E>, n: Node<H, E>)
    ensures n in CycleOf(h, s) <==> n == Head(h) || (n.Elem? && n.e in s)
  {
    if n.Elem? && n.e in s {
      var i :| 0 <= i < |s| && s[i] == n.e;
      assert CycleOf(h, s)[i + 1] == n;
    }
  }

  /** s without the element e (which occurs at most once in a list). */
  ghost function Without<E>(s: seq<E>, e: E): (r: seq<E>)
    ensures e !in s ==> r == s
    ensures |r| == if e in s then |s| - 1 else |s|
  {
    if e in s then
      var i :| 0 <= i < |s| && s[i] == e;
      RemoveAt(s, i)
    else s
  }

  lemma WithoutAt<E>(s: seq<E>, j: nat)
    requires Distinct(s) && j < |s|
    ensures Without(s, s[j]) == RemoveAt(s, j)
  {
  }

  lemma WithoutIs<E>(s: seq<E>, e: E) returns (j: nat)
    requires e in s
    ensures j < |s| && s[j] == e && Without(s, e) == RemoveAt(s, j)
  {
    j :| 0 <= j < |s| && s[j] == e && Without(s, e) == RemoveAt(s, j);
  }

  lemma WithoutInsert<E>(s: seq<E>, j: nat, e: E)
    requires Distinct(s) && e !in s && j <= |s|
    ensures Without(InsertAt(s, j, e), e) == s
  {
    DistinctInsert(s, j, e);
    WithoutAt(InsertAt(s, j, e), j);
    assert RemoveAt(InsertAt(s, j, e), j) == s;
  }

  lemma WithoutMembers<E>(s: seq<E>, e: E)
    requires Distinct(s)
    ensures Distinct(Without(s, e))
    ensures forall x :: x in Without(s, e) <==> x in s && x != e
  {
    if e in s {
      var i :| 0 <= i < |s| && s[i] == e;
      WithoutAt(s, i);
      RemoveMembers(s, i);
      DistinctRemove(s, i);
    }
  }

  ghost predicate OnList<H(!new), E>(contents: map<H, seq<E>>, e: E) {
    exists h :: h in contents && e in contents[h]
  }

  ghost predicate SelfLinked<H, E>(next: map<Node<H, E>, Node<H, E>>, prev: map<Node<H, E>, Node<H, E>>, e: E) {
    Elem(e) in next && Elem(e) in prev && next[Elem(e)] == Elem(e) == prev[Elem(e)]
  }

  /** Every list is a ring through its head, lists share no element, and an
      element on no list points at itself. */
  ghost predicate WellLinked<H(!new), E(!new)>(
    next: map<Node<H, E>, Node<H, E>>, prev: map<Node<H, E>, Node<H, E>>,
    contents: map<H, seq<E>>, elems: set<E>)
  {
    && (forall h :: h in contents ==> Ring(next, prev, CycleOf(h, contents[h])))
    && (forall h, e :: h in contents && e in contents[h] ==> e in elems)
    && Disjoint(contents)
    && (forall e :: e in elems && !OnList(contents, e) ==> SelfLinked(next, prev, e))
  }

  ghost predicate Disjoint<H(!new), E(!new)>(contents: map<H, seq<E>>) {
    forall g, h, e :: g in contents && h in contents && e in contents[g] && e in contents[h] ==> g == h
  }

  lemma ContentsDistinct<H(!new), E(!new)>(
    next: map<Node<H, E>, Node<H, E>>, prev: map<Node<H, E>, Node<H, E>>,
    contents: map<H, seq<E>>, elems: set<E>, h: H)
    requires WellLinked(next, prev, contents, elems) && h in contents
    ensures Distinct(contents[h])
  {
    var s := contents[h];
    var c := CycleOf(h, s);
    forall i, j | 0 <= i < j < |s| ensures s[i] != s[j] {
      assert c[i + 1] != c[j + 1];
    }
  }

  /** The lists other than h survive any writes confined to the nodes of h and
      to the node of e. */
  lemma OthersKept<H(!new), E(!new)>(
    next: map<Node<H, E>, Node<H, E>>, prev: map<Node<H, E>, Node<H, E>>,
    next': map<Node<H, E>, Node<H, E>>, prev': map<Node<H, E>, Node<H, E>>,
    contents: map<H, seq<E>>, elems: set<E>, h: H, e: E, g: H)
    requires WellLinked(next, prev, contents, elems)
    requires h in contents && g in contents && g != h
    requires e in contents[h] || !OnList(contents, e)
    requires next.Keys <= next'.Keys && prev.Keys <= prev'.Keys
    requires forall n :: n in next && n !in CycleOf(h, contents[h]) && n != Elem(e) ==> next'[n] == next[n]
    requires forall n :: n in prev && n !in CycleOf(h, contents[h]) && n != Elem(e) ==> prev'[n] == prev[n]
    ensures Ring(next', prev', CycleOf(g, contents[g]))
  {
    var d := CycleOf(g, contents[g]);
    forall n | n in d ensures n in next' && next'[n] == next[n] && n in prev' && prev'[n] == prev[n] {
      CycleNodes(g, contents[g], n);
      CycleNodes(h, contents[h], n);
    }
    RingFrame(next, prev, next', prev', d);
  }

  lemma InsertKeeps<H(!new), E(!new)>(
    next: map<Node<H, E>, Node<H, E>>, prev: map<Node<H, E>, Node<H, E>>,
    contents: map<H, seq<E>>, elems: set<E>, h: H, at: nat, e: E)
    requires WellLinked(next, prev, contents, elems)
    requires h in contents && at <= |contents[h]| && e in elems && !OnList(contents, e)
    ensures var n := Elem(e); var p := CycleOf(h, contents[h])[at]; var q := next[p];
            && q in prev && prev[q] == p
            && q == CycleOf(h, contents[h])[Succ(at, |contents[h]| + 1)]
            && WellLinked(next[n := q][p := n], prev[q := n][n := p],
                          contents[h := InsertAt(contents[h], at, e)], elems)
  {
    var n: Node<H, E>, s := Elem(e), contents[h];
    var c := CycleOf(h, s);
    var p := c[at];
    assert Linked(next, prev, c, at);
    var q := next[p];
    var next', prev' := next[n := q][p := n], prev[q := n][n := p];
    var s' := InsertAt(s, at, e);
    var contents' := contents[h := s'];
    CycleNodes(h, s, n);
    RingInsertAfter(next, prev, c, at, n);
    CycleInsert(h, s, at, e);
    forall g | g in contents' ensures Ring(next', prev', CycleOf(g, contents'[g])) {
      if g != h { OthersKept(next, prev, next', prev', contents, elems, h, e, g); }
    }
    InsertMembers(s, at, e);
    forall x | x in elems && !OnList(contents', x) ensures SelfLinked(next', prev', x) {
      assert x !in contents'[h];
      CycleNodes(h, s, Elem(x));
      assert !OnList(contents, x) by {
        forall g | g in contents ensures x !in contents[g] { assert g in contents'; }
      }
    }
  }

  lemma UnlinkKeeps<H(!new), E(!new)>(
    next: map<Node<H, E>, Node<H, E>>, prev: map<Node<H, E>, Node<H, E>>,
    contents: map<H, seq<E>>, elems: set<E>, h: H, i: nat)
    requires WellLinked(next, prev, contents, elems) && h in contents && i < |contents[h]|
    ensures var n := Elem(contents[h][i]);
            && n in next && n in prev
            && var p := prev[n]; var q := next[n];
            && p in next && q in prev
            && WellLinked(next[p := q][n := n], prev[q := p][n := n],
                          contents[h := RemoveAt(contents[h], i)], elems)
  {
    var s := contents[h];
    var e := s[i];
    var n: Node<H, E>, c := Elem(e), CycleOf(h, s);
    assert c[i + 1] == n;
    assert Linked(next, prev, c, i + 1) && Linked(next, prev, c, i);
    ContentsDistinct(next, prev, contents, elems, h);
    var p, q, s' := prev[n], next[n], RemoveAt(s, i);
    var next1, prev1 := next[p := q], prev[q := p];
    var next', prev' := next1[n := n], prev1[n := n];
    var contents' := contents[h := s'];
    RingRemove(next, prev, c, i + 1);
    CycleRemove(h, s, i);
    RemoveMembers(s, i);
    CycleNodes(h, s', n);
    RingFrame(next1, prev1, next', prev', CycleOf(h, s'));
    forall g | g in contents' ensures Ring(next', prev', CycleOf(g, contents'[g])) {
      if g != h { OthersKept(next, prev, next', prev', contents, elems, h, e, g); }
    }
    forall x | x in elems && !OnList(contents', x) ensures SelfLinked(next', prev', x) {
      if x != e {
        assert x !in contents'[h];
        CycleNodes(h, s, Elem(x));
        assert !OnList(contents, x) by {
          forall g | g in contents ensures x !in contents[g] { assert g in contents'; }
        }
      }
    }
  }

  lemma RemoveKeeps<H(!new), E(!new)>(
    next: map<Node<H, E>, Node<H, E>>, prev: map<Node<H, E>, Node<H, E>>,
    contents: map<H, seq<E>>, elems: set<E>, e: E)
    requires WellLinked(next, prev, contents, elems) && e in elems
    ensures var n := Elem(e);
            && n in next && n in prev
            && var p := prev[n]; var q := next[n];
            && p in next && q in prev
            && WellLinked(next[p := q][n := n], prev[q := p][n := n],
                          map h | h in contents :: Without(contents[h], e), elems)
  {
    var contents' := map h | h in contents :: Without(contents[h], e);
    if h :| h in contents && e in contents[h] {
      var s := contents[h];
      var i :| 0 <= i < |s| && s[i] == e;
      ContentsDistinct(next, prev, contents, elems, h);
      WithoutAt(s, i);
      assert contents' == contents[h := RemoveAt(s, i)];
      UnlinkKeeps(next, prev, contents, elems, h, i);
    } else {
      var n: Node<H, E> := Elem(e);
      assert !OnList(contents, e) && SelfLinked(next, prev, e);
      assert next[n := n] == next && prev[n := n] == prev;
      assert contents' == contents;
    }
  }

  class ListSpace<H(==, !new), E(==, !new)> {
    var next: map<Node<H, E>, Node<H, E>>
    var prev: map<Node<H, E>, Node<H, E>>
    ghost var contents: map<H, seq<E>>
    ghost var elems: set<E>

    ghost predicate Valid()
      reads this
    {
      WellLinked(next, prev, contents, elems)
    }

    /** rt_list_init on every head and every element. */
    constructor (heads: set<H>, members: set<E>)
      ensures Valid() && elems == members
      ensures contents == map h | h in heads :: []
    {
      var nodes := (set h | h in heads :: Head(h)) + (set e | e in members :: Elem(e));
      next := map n | n in nodes :: n;
      prev := map n | n in nodes :: n;
      contents := map h | h in heads :: [];
      elems := members;
      new;
      forall h | h in contents ensures Ring(next, prev, CycleOf(h, contents[h])) {
        assert CycleOf(h, contents[h]) == [Head(h)];
        assert Linked(next, prev, [Head(h)], 0);
      }
    }

    /** rt_list_insert_before(l, e), where l is node j of the ring of list h:
        the head (j == 0, so e goes to the end) or element j - 1. */
    method InsertBefore(l: Node<H, E>, e: E, ghost h: H, ghost j: nat)
      requires Valid() && h in contents && e in elems && !OnList(contents, e)
      requires j <= |contents[h]| && l == CycleOf(h, contents[h])[j]
      modifies this
      ensures Valid() && elems == old(elems)
      ensures contents ==
              old(contents)[h := InsertAt(old(contents)[h], if j == 0 then |old(contents)[h]| else j - 1, e)]
    {
      hide WellLinked;
      ghost var at := if j == 0 then |contents[h]| else j - 1;
      InsertKeeps(next, prev, contents, elems, h, at, e);
      var n: Node<H, E> := Elem(e);
      CycleNodes(h, contents[h], n);
      assert CycleOf(h, contents[h])[at] in CycleOf(h, contents[h]);
      ghost var next0, prev0 := next, prev;
      next := next[prev[l] := n];
      prev := prev[n := prev[l]];
      prev := prev[l := n];
      next := next[n := l];
      ghost var p := CycleOf(h, contents[h])[at];
      assert next == next0[n := l][p := n] && prev == prev0[l := n][n := p];
      contents := contents[h := InsertAt(contents[h], at, e)];
    }

    /** rt_list_insert_after(l, e), where l is node j of the ring of list h. */
    method InsertAfter(l: Node<H, E>, e: E, ghost h: H, ghost j: nat)
      requires Valid() && h in contents && e in elems && !OnList(contents, e)
      requires j <= |contents[h]| && l == CycleOf(h, contents[h])[j]
      modifies this
      ensures Valid() && elems == old(elems)
      ensures contents == old(contents)[h := InsertAt(old(contents)[h], j, e)]
    {
      InsertKeeps(next, prev, contents, elems, h, j, e);
      var n: Node<H, E> := Elem(e);
      CycleNodes(h, contents[h], n);
      assert Linked(next, prev, CycleOf(h, contents[h]), j);
      prev := prev[next[l] := n];
      next := next[n := next[l]];
      next := next[l := n];
      prev := prev[n := l];
      contents := contents[h := InsertAt(contents[h], j, e)];
    }

    /** rt_list_insert_after(head of h, e). */
    method InsertAfterHead(h: H, e: E)
      requires Valid() && h in contents && e in elems && !OnList(contents, e)
      modifies this
      ensures Valid() && elems == old(elems)
      ensures contents == old(contents)[h := [e] + old(contents)[h]]
    {
      assert InsertAt(contents[h], 0, e) == [e] + contents[h];
      InsertAfter(Head(h), e, h, 0);
    }

    /** rt_list_remove(e): works wherever the element is, and changes nothing
        for an element that is on no list. */
    method Remove(e: E)
      requires Valid() && e in elems
      modifies this
      ensures Valid() && elems == old(elems)
      ensures contents == map h | h in old(contents) :: Without(old(contents)[h], e)
    {
      RemoveKeeps(next, prev, contents, elems, e);
      var n: Node<H, E> := Elem(e);
      var p, q := prev[n], next[n];
      prev := prev[next[n] := prev[n]];
      next := next[prev[n] := next[n]];
      next := next[n := n];
      prev := prev[n := n];
      contents := map h | h in contents :: Without(contents[h], e);
    }

    /** rt_list_isempty */
    method IsEmpty(h: H) returns (r: bool)
      requires Valid() && h in contents
      ensures r <==> contents[h] == []
    {
      assert Linked(next, prev, CycleOf(h, contents[h]), 0);
      r := next[Head(h)] == Head(h);
    }

    /** The entry after the head, or after element i - 1: Head(h) at the end. */
    method Next(l: Node<H, E>, ghost h: H, ghost i: nat) returns (r: Node<H, E>)
      requires Valid() && h in contents && i <= |contents[h]| && l == CycleOf(h, contents[h])[i]
      ensures r == CycleOf(h, contents[h])[Succ(i, |contents[h]| + 1)]
    {
      assert Linked(next, prev, CycleOf(h, contents[h]), i);
      r := next[l];
    }

    /** The node before the head: the last element, or the head itself. */
    method Last(h: H) returns (r: Node<H, E>)
      requires Valid() && h in contents
      ensures r == CycleOf(h, contents[h])[|contents[h]|]
    {
      assert Linked(next, prev, CycleOf(h, contents[h]), |contents[h]|);
      r := prev[Head(h)];
    }

    /** rt_list_len */
    method Len(h: H) returns (len: nat)
      requires Valid() && h in contents
      ensures len == |contents[h]|
    {
      len := 0;
      var p: Node<H, E> := Head(h);
      ghost var c := CycleOf(h, contents[h]);
      assert Linked(next, prev, c, 0);
      while next[p] != Head(h)
        invariant 0 <= len <= |contents[h]| && p == c[len]
        invariant p in next && next[p] == c[Succ(len, |c|)]
        decreases |contents[h]| - len
      {
        p := next[p];
        len := len + 1;
        assert Linked(next, prev, c, len);
      }
    }
  }
}
