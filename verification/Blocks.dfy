/** A pool cut into consecutive blocks with headers. */
module Blocks {
  // How both memheap.c and mem.c keep it: which addresses are headers, which blocks are
  // used, how cutting and merging change them. Pure values; the two allocators apply these
  // lemmas to their header fields.

  import opened Rings

  const ALIGN: nat := 4       // RT_ALIGN_SIZE
  const WORD: nat := 0x1_0000_0000

  /** The blocks run from `start` to the tailer at `tail`, in address order,
      each long enough for its header. */
  ghost predicate Tiled(hdr: nat, order: seq<nat>, start: nat, tail: nat) {
    && |order| >= 2 && hdr > 0
    && order[0] == start && order[|order| - 1] == tail
    && (forall i :: 0 <= i < |order| - 1 ==> Spaced(hdr, order, i))
    && (forall i :: 0 <= i < |order| ==> Aligned(order[i], start))
  }

  ghost predicate Spaced(hdr: nat, order: seq<nat>, i: nat)
    requires i + 1 < |order|
  {
    order[i] + hdr <= order[i + 1]
  }

  ghost predicate Aligned(a: nat, start: nat) {
    a >= start && (a - start) % ALIGN == 0
  }

  lemma AlignedStep(hdr: nat, a: nat, n: nat, start: nat)
    requires Aligned(a, start) && n % ALIGN == 0 && hdr % ALIGN == 0
    ensures Aligned(a + hdr + n, start)
  {
  }

  ghost predicate UsedIn(order: seq<nat>, used: map<nat, bool>, i: nat)
    requires i < |order|
  {
    order[i] in used && used[order[i]]
  }

  /** No two neighbouring blocks are free; the tailer is used. */
  ghost predicate Coalesced(order: seq<nat>, used: map<nat, bool>) {
    && |order| > 0
    && UsedIn(order, used, |order| - 1)
    && forall i :: 0 <= i < |order| - 1 ==> UsedIn(order, used, i) || UsedIn(order, used, i + 1)
  }

  /** Data bytes of the blocks whose used flag equals `flag`. */
  ghost function Bytes(hdr: nat, order: seq<nat>, used: map<nat, bool>, flag: bool): int
    requires forall a :: a in order ==> a in used
  {
    if |order| < 2 then 0
    else (if used[order[0]] == flag then order[1] - order[0] - hdr else 0) + Bytes(hdr, order[1..], used, flag)
  }

  lemma {:induction false} BytesSplit(hdr: nat, order: seq<nat>, used: map<nat, bool>, flag: bool, i: nat)
    requires i < |order| && forall a :: a in order ==> a in used
    ensures Bytes(hdr, order, used, flag) == Bytes(hdr, order[..i + 1], used, flag) + Bytes(hdr, order[i..], used, flag)
  {
    if i == 0 {
      assert order[..1] == [order[0]] && order[0..] == order;
    } else {
      BytesSplit(hdr, order[1..], used, flag, i - 1);
      assert order[..i + 1][1..] == order[1..][..i];
      assert order[i..] == order[1..][i - 1..];
    }
  }

  lemma {:induction false} BytesFrame(hdr: nat, order: seq<nat>, used: map<nat, bool>, used': map<nat, bool>, flag: bool)
    requires forall a :: a in order ==> a in used && a in used'
    requires forall i :: 0 <= i < |order| - 1 ==> used[order[i]] == used'[order[i]]
    ensures Bytes(hdr, order, used, flag) == Bytes(hdr, order, used', flag)
  {
    if |order| >= 2 {
      assert used[order[0]] == used'[order[0]];
      forall i | 0 <= i < |order[1..]| - 1 ensures used[order[1..][i]] == used'[order[1..][i]] {
        assert order[1..][i] == order[i + 1];
      }
      BytesFrame(hdr, order[1..], used, used', flag);
    }
  }

  /** Headers, used bytes and free bytes add up to the pool. */
  lemma {:induction false} BytesConserved(hdr: nat, order: seq<nat>, used: map<nat, bool>)
    requires |order| >= 1 && forall a :: a in order ==> a in used
    ensures order[0] + Bytes(hdr, order, used, true) + Bytes(hdr, order, used, false) + hdr * (|order| - 1)
            == order[|order| - 1]
  {
    if |order| >= 2 {
      BytesConserved(hdr, order[1..], used);
    }
  }

  function Part(hdr: nat, a: nat, b: nat, u: bool, flag: bool): int {
    if u == flag then b - a - hdr else 0
  }

  /** Setting the flag of block i moves its bytes to the other total. */
  lemma BytesFlip(hdr: nat, order: seq<nat>, used: map<nat, bool>, u: bool, flag: bool, i: nat)
    requires i + 1 < |order| && Distinct(order) && forall a :: a in order ==> a in used
    ensures Bytes(hdr, order, used[order[i] := u], flag)
            == Bytes(hdr, order, used, flag) - Part(hdr, order[i], order[i + 1], used[order[i]], flag)
               + Part(hdr, order[i], order[i + 1], u, flag)
  {
    var used' := used[order[i] := u];
    BytesSplit(hdr, order, used, flag, i);
    BytesSplit(hdr, order, used', flag, i);
    BytesFrame(hdr, order[..i + 1], used, used', flag);
    BytesFrame(hdr, order[i + 1..], used, used', flag);
    assert order[i..][1..] == order[i + 1..];
  }

  /** Cutting block i at n divides its span. */
  lemma BytesCut(hdr: nat, order: seq<nat>, used: map<nat, bool>, flag: bool, i: nat, n: nat)
    requires i + 1 < |order| && n in used && forall a :: a in order ==> a in used
    ensures Bytes(hdr, InsertAt(order, i + 1, n), used, flag)
            == Bytes(hdr, order, used, flag) - Part(hdr, order[i], order[i + 1], used[order[i]], flag)
               + Part(hdr, order[i], n, used[order[i]], flag) + Part(hdr, n, order[i + 1], used[n], flag)
  {
    var r := InsertAt(order, i + 1, n);
    BytesSplit(hdr, order, used, flag, i);
    InsertMembers(order, i + 1, n);
    BytesSplit(hdr, r, used, flag, i);
    assert r[..i + 1] == order[..i + 1];
    assert r[i..][1..] == [n] + order[i + 1..];
    assert order[i..][1..] == order[i + 1..];
  }

  /** Dropping the header of block i + 1 joins it to block i. */
  lemma BytesJoin(hdr: nat, order: seq<nat>, used: map<nat, bool>, flag: bool, i: nat)
    requires i + 2 < |order| && forall a :: a in order ==> a in used
    ensures Bytes(hdr, RemoveAt(order, i + 1), used, flag)
            == Bytes(hdr, order, used, flag) + Part(hdr, order[i], order[i + 2], used[order[i]], flag)
               - Part(hdr, order[i], order[i + 1], used[order[i]], flag) - Part(hdr, order[i + 1], order[i + 2], used[order[i + 1]], flag)
  {
    var r := RemoveAt(order, i + 1);
    assert InsertAt(r, i + 1, order[i + 1]) == order;
    BytesCut(hdr, r, used, flag, i, order[i + 1]);
  }

  lemma {:induction false} TiledApart(hdr: nat, order: seq<nat>, start: nat, tail: nat, i: nat, j: nat)
    requires Tiled(hdr, order, start, tail) && i < j < |order|
    ensures order[i] + hdr <= order[j]
    decreases j
  {
    assert Spaced(hdr, order, j - 1);
    if i < j - 1 { TiledApart(hdr, order, start, tail, i, j - 1); }
  }

  lemma TiledDistinct(hdr: nat, order: seq<nat>, start: nat, tail: nat)
    requires Tiled(hdr, order, start, tail)
    ensures Distinct(order)
  {
    forall i, j | 0 <= i < j < |order| ensures order[i] != order[j] {
      TiledApart(hdr, order, start, tail, i, j);
    }
  }

  lemma TiledCut(hdr: nat, order: seq<nat>, start: nat, tail: nat, i: nat, n: nat)
    requires Tiled(hdr, order, start, tail) && i + 1 < |order|
    requires order[i] + hdr <= n && n + hdr <= order[i + 1] && Aligned(n, start)
    ensures Tiled(hdr, InsertAt(order, i + 1, n), start, tail) && n !in order
  {
    var r := InsertAt(order, i + 1, n);
    forall j | 0 <= j < |order| ensures order[j] != n {
      if j < i { TiledApart(hdr, order, start, tail, j, i); }
      if j > i + 1 { TiledApart(hdr, order, start, tail, i + 1, j); }
    }
    forall j | 0 <= j < |r| - 1 ensures Spaced(hdr, r, j) {
      if j < i { assert Spaced(hdr, order, j); }
      if j > i + 1 { assert Spaced(hdr, order, j - 1); }
    }
  }

  lemma TiledJoin(hdr: nat, order: seq<nat>, start: nat, tail: nat, i: nat)
    requires Tiled(hdr, order, start, tail) && i + 2 < |order|
    ensures Tiled(hdr, RemoveAt(order, i + 1), start, tail)
  {
    var r := RemoveAt(order, i + 1);
    forall j | 0 <= j < |r| - 1 ensures Spaced(hdr, r, j) {
      if j == i { TiledApart(hdr, order, start, tail, i, i + 2); }
      else { assert Spaced(hdr, order, if j < i then j else j + 1); }
    }
  }

  lemma {:induction false} BytesNonneg(hdr: nat, order: seq<nat>, used: map<nat, bool>, flag: bool)
    requires forall a :: a in order ==> a in used
    requires forall i :: 0 <= i < |order| - 1 ==> Spaced(hdr, order, i)
    ensures Bytes(hdr, order, used, flag) >= 0
  {
    if |order| >= 2 {
      assert Spaced(hdr, order, 0);
      forall i | 0 <= i < |order[1..]| - 1 ensures Spaced(hdr, order[1..], i) { assert Spaced(hdr, order, i + 1); }
      BytesNonneg(hdr, order[1..], used, flag);
    }
  }

  lemma CoalescedTake(order: seq<nat>, used: map<nat, bool>, i: nat)
    requires Coalesced(order, used) && i < |order|
    ensures Coalesced(order, used[order[i] := true])
  {
    var used' := used[order[i] := true];
    forall j | 0 <= j < |order| && UsedIn(order, used, j) ensures UsedIn(order, used', j) { }
  }

  /** Cutting used block i (or a free block that is taken) before a used block. */
  lemma CoalescedCut(order: seq<nat>, used: map<nat, bool>, i: nat, n: nat)
    requires Coalesced(order, used) && i + 1 < |order| && n !in order
    requires UsedIn(order, used, i + 1)
    ensures Coalesced(InsertAt(order, i + 1, n), used[n := false][order[i] := true])
  {
    var r, used' := InsertAt(order, i + 1, n), used[n := false][order[i] := true];
    forall j | 0 <= j < |order| && UsedIn(order, used, j)
      ensures UsedIn(r, used', if j <= i then j else j + 1) { }
    assert UsedIn(r, used', i);
    forall j | 0 <= j < |r| - 1 ensures UsedIn(r, used', j) || UsedIn(r, used', j + 1) {
      if j < i { assert UsedIn(order, used, j) || UsedIn(order, used, j + 1); }
      if j > i + 1 { assert UsedIn(order, used, j - 1) || UsedIn(order, used, j); }
    }
  }

  /** Replacing the free header i + 1 by a later one in the same gap. */
  lemma CoalescedMove(order: seq<nat>, used: map<nat, bool>, i: nat, n: nat)
    requires Coalesced(order, used) && i + 2 < |order| && n !in order
    requires UsedIn(order, used, i) && !UsedIn(order, used, i + 1)
    ensures Coalesced(order[i + 1 := n], used[n := false])
  {
    var r, used' := order[i + 1 := n], used[n := false];
    assert UsedIn(order, used, i + 1) || UsedIn(order, used, i + 2);
    forall j | 0 <= j < |order| && j != i + 1 && UsedIn(order, used, j) ensures UsedIn(r, used', j) { }
    forall j | 0 <= j < |r| - 1 ensures UsedIn(r, used', j) || UsedIn(r, used', j + 1) {
      assert UsedIn(order, used, j) || UsedIn(order, used, j + 1);
    }
  }

  /** MEMITEM_SIZE */
  function SizeOf(hdr: nat, next: map<nat, nat>, a: nat): int
    requires a in next
  {
    next[a] - a - hdr
  }

  /** The allocated blocks: header address to data size. */
  ghost function LiveOf(hdr: nat, order: seq<nat>, used: map<nat, bool>, next: map<nat, nat>, tail: int): map<nat, int>
    requires forall x :: x in order ==> x in used && x in next
  {
    map x | x in order && x != tail && used[x] :: SizeOf(hdr, next, x)
  }

  /** The block list after releasing block i, merged with a free left (l) and
      right (r) neighbour: the headers from lo to hi disappear. */
  ghost function ReleaseOrder(order: seq<nat>, i: nat, l: bool, r: bool): seq<nat>
    requires i + 1 < |order| && (r ==> i + 2 < |order|)
  {
    if l && r then RemoveAt(RemoveAt(order, i), i)
    else if l then RemoveAt(order, i)
    else if r then RemoveAt(order, i + 1)
    else order
  }

  lemma RemoveBoth(order: seq<nat>, i: nat)
    requires i + 2 < |order|
    ensures RemoveAt(RemoveAt(order, i), i) == RemoveAt(RemoveAt(order, i + 1), i)
  {
    var a, b := RemoveAt(RemoveAt(order, i), i), RemoveAt(RemoveAt(order, i + 1), i);
    forall j | 0 <= j < |a| ensures a[j] == b[j] { }
  }

  ghost predicate LeftFree(order: seq<nat>, used: map<nat, bool>, i: nat)
    requires i < |order|
  {
    i > 0 && !UsedIn(order, used, i - 1)
  }

  ghost predicate RightFree(order: seq<nat>, used: map<nat, bool>, i: nat)
    requires i + 1 < |order|
  {
    !UsedIn(order, used, i + 1)
  }

  /** No free neighbours except perhaps the pairs starting at p and q. */
  ghost predicate CoalescedBut(order: seq<nat>, used: map<nat, bool>, p: int, q: int) {
    && |order| > 0
    && UsedIn(order, used, |order| - 1)
    && forall j :: 0 <= j < |order| - 1 && j != p && j != q ==> UsedIn(order, used, j) || UsedIn(order, used, j + 1)
  }

  lemma CoalescedGive(order: seq<nat>, used: map<nat, bool>, i: nat)
    requires Coalesced(order, used) && Distinct(order) && i + 1 < |order|
    ensures CoalescedBut(order, used[order[i] := false], if LeftFree(order, used, i) then i - 1 else -1,
                         if RightFree(order, used, i) then i else -1)
  {
    var used' := used[order[i] := false];
    forall j | 0 <= j < |order| && j != i ensures UsedIn(order, used', j) == UsedIn(order, used, j) { }
    forall j | 0 <= j < |order| - 1 && j != i && j + 1 != i
      ensures UsedIn(order, used', j) || UsedIn(order, used', j + 1) {
      assert UsedIn(order, used, j) || UsedIn(order, used, j + 1);
    }
  }

  /** Dropping header i repairs the pair that starts at i - 1. */
  lemma CoalescedDrop(order: seq<nat>, used: map<nat, bool>, p: int, i: nat)
    requires CoalescedBut(order, used, p, i - 1) && 0 < i && i + 1 < |order| && p < i - 1
    requires UsedIn(order, used, i + 1)
    ensures CoalescedBut(RemoveAt(order, i), used, p, -1)
  {
    var r := RemoveAt(order, i);
    forall j | 0 <= j < |r| ensures UsedIn(r, used, j) == UsedIn(order, used, if j < i then j else j + 1) { }
    assert UsedIn(r, used, i);
    forall j | 0 <= j < |r| - 1 && j != p ensures UsedIn(r, used, j) || UsedIn(r, used, j + 1) {
      if j < i - 1 { assert UsedIn(order, used, j) || UsedIn(order, used, j + 1); }
      if j >= i { assert UsedIn(order, used, j + 1) || UsedIn(order, used, j + 2); }
    }
  }

  lemma CoalescedRight(order: seq<nat>, used: map<nat, bool>, i: nat)
    requires Coalesced(order, used) && Distinct(order) && i + 2 < |order| && RightFree(order, used, i)
    ensures CoalescedBut(RemoveAt(order, i + 1), used[order[i] := false],
                         if LeftFree(order, used, i) then i - 1 else -1, -1)
  {
    CoalescedGive(order, used, i);
    assert UsedIn(order, used, i + 1) || UsedIn(order, used, i + 2);
    CoalescedDrop(order, used[order[i] := false], if LeftFree(order, used, i) then i - 1 else -1, i + 1);
  }

  lemma CoalescedBoth(order: seq<nat>, used: map<nat, bool>, i: nat)
    requires Coalesced(order, used) && Distinct(order) && i + 2 < |order|
    requires LeftFree(order, used, i) && RightFree(order, used, i)
    ensures Coalesced(RemoveAt(RemoveAt(order, i), i), used[order[i] := false])
  {
    var o, used' := RemoveAt(order, i + 1), used[order[i] := false];
    CoalescedRight(order, used, i);
    assert UsedIn(order, used, i + 1) || UsedIn(order, used, i + 2);
    assert UsedIn(o, used', i + 1);
    assert CoalescedBut(o, used', -1, i - 1);
    CoalescedDrop(o, used', -1, i);
    RemoveBoth(order, i);
  }

  lemma ReleaseMembers(order: seq<nat>, used: map<nat, bool>, i: nat, y: nat)
    requires Distinct(order) && i + 1 < |order| && (RightFree(order, used, i) ==> i + 2 < |order|)
    requires forall x :: x in order ==> x in used
    ensures var o := ReleaseOrder(order, i, LeftFree(order, used, i), RightFree(order, used, i));
            && (y in o ==> y in order)
            && (y in order && used[y] && y != order[i] ==> y in o)
  {
    var l, r := LeftFree(order, used, i), RightFree(order, used, i);
    if l { RemoveMembers(order, i); DistinctRemove(order, i); }
    if r {
      if l { RemoveMembers(RemoveAt(order, i), i); } else { RemoveMembers(order, i + 1); }
    }
  }

  lemma LiveRelease(hdr: nat, order: seq<nat>, used: map<nat, bool>, next: map<nat, nat>, next': map<nat, nat>, tail: int, i: nat)
    requires forall x :: x in order ==> x in used && x in next
    requires Distinct(order) && i + 1 < |order| && (RightFree(order, used, i) ==> i + 2 < |order|)
    requires forall y :: y in order && used[y] && y != order[i] ==> y in next' && next'[y] == next[y]
    requires forall y :: y in ReleaseOrder(order, i, LeftFree(order, used, i), RightFree(order, used, i)) ==> y in next'
    ensures var o := ReleaseOrder(order, i, LeftFree(order, used, i), RightFree(order, used, i));
            && (forall x :: x in o ==> x in used[order[i] := false] && x in next')
            && LiveOf(hdr, o, used[order[i] := false], next', tail) == LiveOf(hdr, order, used, next, tail) - {order[i]}
  {
    hide ReleaseOrder, Distinct, LeftFree, RightFree;
    var x := order[i];
    var o := ReleaseOrder(order, i, LeftFree(order, used, i), RightFree(order, used, i));
    forall y ensures y in o ==> y in order
             ensures y in order && used[y] && y != x ==> y in o {
      ReleaseMembers(order, used, i, y);
    }
    var a, b := LiveOf(hdr, o, used[x := false], next', tail), LiveOf(hdr, order, used, next, tail) - {x};
    forall y ensures y in a <==> y in b { }
    forall y | y in a ensures a[y] == b[y] { }
  }

  /** Resizing block i changes one entry of the live map. */
  lemma LiveResize(hdr: nat, order: seq<nat>, order': seq<nat>, used: map<nat, bool>, next: map<nat, nat>, next': map<nat, nat>,
                   tail: int, x: nat, m: nat)
    requires forall y :: y in order ==> y in used && y in next
    requires x in order && x != tail && used[x] && x < m
    requires forall y :: y in order' ==> y in next' && (y == m || y in order)
    requires forall y :: y in order && used[y] ==> y in order' && y != m
    requires forall y :: y in order && used[y] ==> next'[y] == if y == x then m else next[y]
    ensures LiveOf(hdr, order', used[m := false], next', tail) == LiveOf(hdr, order, used, next, tail)[x := m - x - hdr]
  {
    var a, b := LiveOf(hdr, order', used[m := false], next', tail), LiveOf(hdr, order, used, next, tail)[x := m - x - hdr];
    forall y ensures y in a <==> y in b { }
    forall y | y in a ensures a[y] == b[y] { }
  }

  /** Blocks live on both sides keep their common bytes. */
  ghost predicate KeptBytes(hdr: nat, live: map<nat, int>, live': map<nat, int>, m: nat -> bv8, m': nat -> bv8) {
    forall x, a :: x in live && x in live' && x + hdr <= a < x + hdr + live[x] && a < x + hdr + live'[x] ==> m(a) == m'(a)
  }

  lemma LiveCut(hdr: nat, order: seq<nat>, used: map<nat, bool>, next: map<nat, nat>, tail: int, i: nat, m: nat)
    requires forall x :: x in order ==> x in used && x in next
    requires i < |order| && order[i] != tail && m !in order && order[i] < m
    ensures var h := order[i]; var order' := InsertAt(order, i + 1, m);
            var used' := used[m := false][h := true]; var next' := next[m := next[h]][h := m];
            && (forall x :: x in order' ==> x in used' && x in next')
            && LiveOf(hdr, order', used', next', tail) == LiveOf(hdr, order, used, next, tail)[h := m - h - hdr]
  {
    var h, order' := order[i], InsertAt(order, i + 1, m);
    var used', next' := used[m := false][h := true], next[m := next[h]][h := m];
    InsertMembers(order, i + 1, m);
    assert h in order;
    hide InsertAt;
    var a, b := LiveOf(hdr, order', used', next', tail), LiveOf(hdr, order, used, next, tail)[h := m - h - hdr];
    forall x ensures x in a <==> x in b { }
    forall x | x in a ensures a[x] == b[x] { }
  }

  lemma LiveTake(hdr: nat, order: seq<nat>, used: map<nat, bool>, next: map<nat, nat>, tail: int, x: nat)
    requires forall x :: x in order ==> x in used && x in next
    requires x in order && x != tail
    ensures LiveOf(hdr, order, used[x := true], next, tail) == LiveOf(hdr, order, used, next, tail)[x := SizeOf(hdr, next, x)]
  {
  }

  /** Outcome of resizing live block x to n rounded bytes: NULL with nothing
      changed, or a block of at least n bytes that starts with the old content
      and replaces x among the live blocks. */
  ghost predicate Resized(hdr: nat, x: nat, n: nat, p: int, live0: map<nat, int>, live: map<nat, int>, m0: nat -> bv8, m: nat -> bv8)
    requires x in live0
  {
    if p == 0 then live == live0
    else
      var y := p - hdr;
      && y >= 0 && y in live && live[y] >= n
      && live - {y} == live0 - {x}
      && (y != x ==> y !in live0)
      && forall a :: p <= a < p + live0[x] && a < p + n ==> m(a) == m0(a - p + x + hdr)
  }

  /** No live block of the map overlaps a block of s bytes at y. */
  ghost predicate ClearOf(hdr: nat, live: map<nat, int>, y: nat, s: int) {
    forall z :: z in live ==> z + hdr + live[z] <= y || y + hdr + s <= z
  }

  /** m' is m after copying n bytes from src to dst. */
  ghost predicate Copied(m: nat -> bv8, m': nat -> bv8, dst: nat, src: nat, n: nat) {
    forall a: nat {:trigger m'(a)} :: m'(a) == if dst <= a < dst + n then m(a - dst + src) else m(a)
  }

  /** What the copy and the two list operations do to the bytes. */
  lemma RelocateBytes(hdr: nat, x: nat, y: nat, s: int, n: nat, c: int, live0: map<nat, int>,
                      m0: nat -> bv8, m1: nat -> bv8, m2: nat -> bv8, m3: nat -> bv8)
    requires hdr > 0 && x in live0 && y !in live0 && n <= s && c <= live0[x] && c <= n && (c == live0[x] || c == n)
    requires ClearOf(hdr, live0, y, s)
    requires KeptBytes(hdr, live0, live0[y := s], m0, m1)
    requires c >= 0 && Copied(m1, m2, y + hdr, x + hdr, c)
    requires KeptBytes(hdr, live0[y := s], live0[y := s] - {x}, m2, m3)
    ensures Resized(hdr, x, n, y + hdr, live0, live0[y := s] - {x}, m0, m3)
    ensures KeptBytes(hdr, live0, live0[y := s] - {x}, m0, m3)
  {
    var live := live0[y := s] - {x};
    forall a | y + hdr <= a < y + hdr + c ensures m3(a) == m0(a - (y + hdr) + x + hdr) {
      assert m3(a) == m2(a);
      assert m1(a - (y + hdr) + (x + hdr)) == m0(a - (y + hdr) + (x + hdr));
    }
    forall z, a | z in live0 && z in live && z + hdr <= a < z + hdr + live0[z] && a < z + hdr + live[z]
      ensures m0(a) == m3(a) {
      assert z in live0[y := s] && live0[y := s][z] == live0[z];
      assert m1(a) == m0(a);
      assert !(y + hdr <= a < y + hdr + c);
      assert m2(a) == m1(a);
      assert m3(a) == m2(a);
    }
    assert live - {y} == live0 - {x};
  }

  function Max(a: int, b: int): int {
    if a > b then a else b
  }

  /** The largest of the recorded values, or 0. */
  ghost function Highest(trail: seq<int>): int {
    if trail == [] then 0
    else Max(Highest(trail[..|trail| - 1]), trail[|trail| - 1])
  }

  lemma HighestNext(trail: seq<int>, v: int)
    ensures Highest(trail + [v]) == Max(Highest(trail), v)
  {
    assert (trail + [v])[..|trail|] == trail;
  }

  lemma HighestLast(trail: seq<int>)
    requires trail != []
    ensures Highest(trail) >= trail[|trail| - 1]
  {
  }
}
