/** memheap.c: a circular list of blocks in address order, and a free list through them. */
module MemHeap {
  // The blocks fill a pool and end with a used tailer; the free list is circular, too, and
  // in an order of its own. Block headers are addressed by number; every header field is a
  // map.

  import opened Blocks
  import opened Rings

  const HDR: nat := 24        // RT_MEMHEAP_SIZE on a 32-bit target
  const MINIALLOC: nat := 12  // RT_MEMHEAP_MINIALLOC

  /** RT_ALIGN on a 32-bit rt_size_t, then the minimum. */
  function Request(size: nat): nat
  {
    var s := (size + (ALIGN - 1)) % WORD / ALIGN * ALIGN;
    if s < MINIALLOC then MINIALLOC else s
  }

  /** RT_ALIGN_DOWN */
  function AlignDown(size: nat): (r: nat)
    ensures r <= size < r + ALIGN && r % ALIGN == 0
  {
    size / ALIGN * ALIGN
  }

  /** The rounded request covers the caller's size except within three bytes of
      2^32, where RT_ALIGN wraps to zero. */
  lemma RequestCovers(size: nat)
    requires size < WORD
    ensures Request(size) >= size <==> size <= WORD - ALIGN
    ensures size > WORD - ALIGN ==> Request(size) == MINIALLOC
  {
  }

  lemma RequestAligned(size: nat)
    ensures Request(size) % ALIGN == 0 && Request(size) >= MINIALLOC
  {
  }

  lemma RequestIdempotent(size: nat)
    requires size < WORD
    ensures Request(Request(size)) == Request(size) <= WORD - ALIGN
  {
  }

  // ---- the blocks as values -------------------------------------------------

  /** The free list holds each free block once and nothing else. */
  ghost predicate FreeExact(order: seq<nat>, used: map<nat, bool>, free: seq<nat>) {
    && Distinct(free)
    && (forall a :: a in order ==> a in used)
    && (forall a :: a in free <==> a in order && !used[a])
  }

  // ---- the four elementary changes ------------------------------------------

  /** Everything but the absence of free neighbours, which holds only between
      whole operations. */
  ghost predicate Loose(order: seq<nat>, used: map<nat, bool>, free: seq<nat>, start: nat, tail: nat) {
    && Tiled(HDR, order, start, tail)
    && FreeExact(order, used, free)
    && used[tail]
  }

  /** A free block leaves the free list and becomes used. */
  lemma TakeBlock(order: seq<nat>, used: map<nat, bool>, free: seq<nat>, start: nat, tail: nat, i: nat, k: nat)
    requires Loose(order, used, free, start, tail)
    requires i + 1 < |order| && k < |free| && free[k] == order[i]
    ensures Loose(order, used[order[i] := true], RemoveAt(free, k), start, tail)
    ensures Bytes(HDR, order, used[order[i] := true], false)
            == Bytes(HDR, order, used, false) - (order[i + 1] - order[i] - HDR)
  {
    TiledDistinct(HDR, order, start, tail);
    RemoveMembers(free, k);
    assert order[i] in free;
    BytesFlip(HDR, order, used, true, false, i);
    assert tail == order[|order| - 1] && order[i] != tail;
  }

  /** A used block becomes free and enters the free list at its head. */
  lemma GiveBlock(order: seq<nat>, used: map<nat, bool>, free: seq<nat>, start: nat, tail: nat, i: nat)
    requires Loose(order, used, free, start, tail)
    requires i + 1 < |order| && used[order[i]]
    ensures Loose(order, used[order[i] := false], [order[i]] + free, start, tail)
    ensures Bytes(HDR, order, used[order[i] := false], false)
            == Bytes(HDR, order, used, false) + (order[i + 1] - order[i] - HDR)
  {
    TiledDistinct(HDR, order, start, tail);
    assert order[i] in order && order[i] !in free;
    BytesFlip(HDR, order, used, false, false, i);
    assert tail == order[|order| - 1] && order[i] != tail;
  }

  lemma FreeCut(order: seq<nat>, used: map<nat, bool>, free: seq<nat>, i: nat, n: nat)
    requires FreeExact(order, used, free) && i <= |order| && n !in order
    ensures FreeExact(InsertAt(order, i, n), used[n := false], [n] + free)
  {
    InsertMembers(order, i, n);
    assert n !in free;
  }

  lemma FreeJoin(order: seq<nat>, used: map<nat, bool>, free: seq<nat>, i: nat, k: nat)
    requires FreeExact(order, used, free) && Distinct(order)
    requires i < |order| && k < |free| && free[k] == order[i]
    ensures FreeExact(RemoveAt(order, i), used, RemoveAt(free, k))
  {
    RemoveMembers(order, i);
    RemoveMembers(free, k);
    DistinctRemove(free, k);
  }

  /** A new free header at n cuts block i in two. */
  lemma CutBlock(order: seq<nat>, used: map<nat, bool>, free: seq<nat>, start: nat, tail: nat, i: nat, n: nat)
    requires Loose(order, used, free, start, tail)
    requires i + 1 < |order| && order[i] + HDR <= n && n + HDR <= order[i + 1] && Aligned(n, start)
    ensures n !in order
    ensures Loose(InsertAt(order, i + 1, n), used[n := false], [n] + free, start, tail)
    ensures Bytes(HDR, InsertAt(order, i + 1, n), used[n := false], false)
            == Bytes(HDR, order, used, false)
               + (if used[order[i]] then order[i + 1] - n - HDR else -(HDR as int))
  {
    TiledCut(HDR, order, start, tail, i, n);
    FreeCut(order, used, free, i + 1, n);
    var used' := used[n := false];
    assert order[i] in order && tail in order by { assert tail == order[|order| - 1]; }
    forall j | 0 <= j < |order| - 1 ensures used[order[j]] == used'[order[j]] {
      assert order[j] in order;
    }
    BytesFrame(HDR, order, used, used', false);
    BytesCut(HDR, order, used', false, i, n);
  }

  /** The header of the free block i + 1 disappears into block i. */
  lemma JoinBlock(order: seq<nat>, used: map<nat, bool>, free: seq<nat>, start: nat, tail: nat, i: nat, k: nat)
    requires Loose(order, used, free, start, tail)
    requires i + 2 < |order| && k < |free| && free[k] == order[i + 1]
    ensures Loose(RemoveAt(order, i + 1), used, RemoveAt(free, k), start, tail)
    ensures Bytes(HDR, RemoveAt(order, i + 1), used, false)
            == Bytes(HDR, order, used, false)
               + (if used[order[i]] then -(order[i + 2] - order[i + 1] - HDR) else HDR as int)
  {
    TiledDistinct(HDR, order, start, tail);
    TiledJoin(HDR, order, start, tail, i);
    FreeJoin(order, used, free, i + 1, k);
    assert free[k] in free && order[i] in order;
    BytesJoin(HDR, order, used, false, i);
  }

  // ---- whole operations on the blocks as values --------------------------------

  /** What holds of the blocks between operations. */
  ghost predicate Shape(order: seq<nat>, used: map<nat, bool>, free: seq<nat>, start: nat, tail: nat, available: int) {
    && Loose(order, used, free, start, tail)
    && Coalesced(order, used)
    && available == Bytes(HDR, order, used, false)
  }

  lemma ShapeBounds(order: seq<nat>, used: map<nat, bool>, free: seq<nat>, start: nat, tail: nat, available: int)
    requires Shape(order, used, free, start, tail, available)
    ensures 0 <= available <= tail - start - HDR
  {
    BytesNonneg(HDR, order, used, false);
    BytesNonneg(HDR, order, used, true);
    BytesConserved(HDR, order, used);
  }

  lemma InitialShape(start: nat, pool: nat)
    requires pool >= 2 * HDR && pool % ALIGN == 0
    ensures var tail := start + pool - HDR;
            && Shape([start, tail], map[start := false, tail := true], [start], start, tail, pool - 2 * HDR)
            && LiveOf(HDR, [start, tail], map[start := false, tail := true], map[start := tail, tail := start], tail) == map[]
            && Highest([]) == 0
  {
    var tail := start + pool - HDR;
    var order, used := [start, tail], map[start := false, tail := true];
    assert Spaced(HDR, order, 0);
    assert UsedIn(order, used, 1);
    assert Bytes(HDR, order[1..], used, false) == 0;
  }

  lemma ShapeCarve(order: seq<nat>, used: map<nat, bool>, free: seq<nat>, start: nat, tail: nat, available: int,
                   i: nat, k: nat, m: nat)
    requires Shape(order, used, free, start, tail, available)
    requires i + 1 < |order| && k < |free| && free[k] == order[i]
    requires order[i] + HDR <= m && m + HDR <= order[i + 1] && Aligned(m, start)
    ensures m !in order && m !in free
    ensures Shape(InsertAt(order, i + 1, m), used[m := false][order[i] := true], [m] + RemoveAt(free, k), start, tail,
                  available - (m - order[i]))
  {
    hide Loose, Coalesced, Bytes, Tiled, Distinct, InsertAt, RemoveAt;
    NextUsed(order, used, free, start, tail, i, k);
    CutBlock(order, used, free, start, tail, i, m);
    InsertAhead(order, i + 1, m);
    CoalescedCut(order, used, i, m);
    TakeBlock(InsertAt(order, i + 1, m), used[m := false], [m] + free, start, tail, i, k + 1);
    RemoveBehind(free, k, m);
  }

  lemma NextUsed(order: seq<nat>, used: map<nat, bool>, free: seq<nat>, start: nat, tail: nat, i: nat, k: nat)
    requires Loose(order, used, free, start, tail) && Coalesced(order, used)
    requires i + 1 < |order| && k < |free| && free[k] == order[i]
    ensures order[i] in free && order[i] in used && !used[order[i]] && UsedIn(order, used, i + 1)
    ensures Distinct(order) && forall m :: m !in order ==> m !in free
  {
    assert free[k] in free;
    TiledDistinct(HDR, order, start, tail);
    assert UsedIn(order, used, i) || UsedIn(order, used, i + 1);
  }

  lemma InsertAhead(order: seq<nat>, i: nat, m: nat)
    requires 0 < i <= |order|
    ensures |InsertAt(order, i, m)| == |order| + 1 && InsertAt(order, i, m)[i - 1] == order[i - 1]
    ensures InsertAt(order, i, m)[i] == m
  {
  }

  lemma RemoveBehind(free: seq<nat>, k: nat, m: nat)
    requires k < |free|
    ensures RemoveAt([m] + free, k + 1) == [m] + RemoveAt(free, k)
  {
    var a, b := RemoveAt([m] + free, k + 1), [m] + RemoveAt(free, k);
    forall j | 0 <= j < |a| ensures a[j] == b[j] { }
  }

  lemma ShapeTake(order: seq<nat>, used: map<nat, bool>, free: seq<nat>, start: nat, tail: nat, available: int,
                  i: nat, k: nat)
    requires Shape(order, used, free, start, tail, available)
    requires i + 1 < |order| && k < |free| && free[k] == order[i]
    ensures Shape(order, used[order[i] := true], RemoveAt(free, k), start, tail,
                  available - (order[i + 1] - order[i] - HDR))
  {
    TakeBlock(order, used, free, start, tail, i, k);
    CoalescedTake(order, used, i);
  }

  /** The free list: a right neighbour (the k-th free block) is absorbed, and
      the block enters at the head unless its left neighbour absorbs it. */
  ghost function ReleaseFree(free: seq<nat>, x: nat, k: nat, l: bool, r: bool): seq<nat>
    requires r ==> k < |free|
  {
    if l && r then RemoveAt(free, k)
    else if l then free
    else if r then [x] + RemoveAt(free, k)
    else [x] + free
  }

  /** Releasing block i and absorbing its free right neighbour. */
  lemma LooseRight(order: seq<nat>, used: map<nat, bool>, free: seq<nat>, start: nat, tail: nat, i: nat, k: nat)
    requires Loose(order, used, free, start, tail)
    requires i + 2 < |order| && used[order[i]]
    requires k < |free| && free[k] == order[i + 1]
    ensures Loose(RemoveAt(order, i + 1), used[order[i] := false], [order[i]] + RemoveAt(free, k), start, tail)
    ensures Bytes(HDR, RemoveAt(order, i + 1), used[order[i] := false], false)
            == Bytes(HDR, order, used, false) + (order[i + 1] - order[i] - HDR) + HDR
  {
    hide Tiled, FreeExact, Bytes;
    GiveBlock(order, used, free, start, tail, i);
    var x, used', f := order[i], used[order[i] := false], [order[i]] + free;
    assert f[k + 1] == order[i + 1];
    JoinBlock(order, used', f, start, tail, i, k + 1);
    assert RemoveAt(f, k + 1) == [x] + RemoveAt(free, k);
  }

  /** A free left neighbour absorbing the free block i, head of the free list. */
  lemma LooseLeft(order: seq<nat>, used: map<nat, bool>, free: seq<nat>, start: nat, tail: nat, i: nat)
    requires 0 < i && i + 1 < |order| && Loose(order, used, [order[i]] + free, start, tail)
    requires !used[order[i - 1]]
    ensures Loose(RemoveAt(order, i), used, free, start, tail)
    ensures Bytes(HDR, RemoveAt(order, i), used, false) == Bytes(HDR, order, used, false) + HDR
  {
    JoinBlock(order, used, [order[i]] + free, start, tail, i - 1, 0);
    assert RemoveAt([order[i]] + free, 0) == free;
  }

  lemma ShapeGive(order: seq<nat>, used: map<nat, bool>, free: seq<nat>, start: nat, tail: nat, available: int,
                  i: nat)
    requires Shape(order, used, free, start, tail, available)
    requires i + 1 < |order| && UsedIn(order, used, i)
    requires !LeftFree(order, used, i) && !RightFree(order, used, i)
    ensures Shape(order, used[order[i] := false], [order[i]] + free, start, tail,
                  available + (order[i + 1] - order[i] - HDR))
  {
    TiledDistinct(HDR, order, start, tail);
    CoalescedGive(order, used, i);
    hide Tiled, FreeExact, Bytes;
    GiveBlock(order, used, free, start, tail, i);
  }

  lemma ShapeGiveRight(order: seq<nat>, used: map<nat, bool>, free: seq<nat>, start: nat, tail: nat, available: int,
                       i: nat, k: nat)
    requires Shape(order, used, free, start, tail, available)
    requires i + 1 < |order| && UsedIn(order, used, i)
    requires !LeftFree(order, used, i) && RightFree(order, used, i) && k < |free| && free[k] == order[i + 1]
    ensures i + 2 < |order|
    ensures Shape(RemoveAt(order, i + 1), used[order[i] := false], [order[i]] + RemoveAt(free, k), start, tail,
                  available + (order[i + 1] - order[i] - HDR) + HDR)
  {
    TiledDistinct(HDR, order, start, tail);
    CoalescedRight(order, used, i);
    hide Tiled, FreeExact, Bytes;
    LooseRight(order, used, free, start, tail, i, k);
  }

  lemma ShapeGiveLeft(order: seq<nat>, used: map<nat, bool>, free: seq<nat>, start: nat, tail: nat, available: int,
                      i: nat)
    requires Shape(order, used, free, start, tail, available)
    requires i + 1 < |order| && UsedIn(order, used, i)
    requires LeftFree(order, used, i) && !RightFree(order, used, i)
    ensures Shape(RemoveAt(order, i), used[order[i] := false], free, start, tail,
                  available + (order[i + 1] - order[i] - HDR) + HDR)
  {
    var used' := used[order[i] := false];
    TiledDistinct(HDR, order, start, tail);
    CoalescedGive(order, used, i);
    assert UsedIn(order, used', i + 1);
    CoalescedDrop(order, used', -1, i);
    assert order[i - 1] in order && order[i - 1] != order[i];
    hide Tiled, FreeExact, Bytes;
    GiveBlock(order, used, free, start, tail, i);
    LooseLeft(order, used', free, start, tail, i);
  }

  lemma ShapeGiveBoth(order: seq<nat>, used: map<nat, bool>, free: seq<nat>, start: nat, tail: nat, available: int,
                      i: nat, k: nat)
    requires Shape(order, used, free, start, tail, available)
    requires i + 1 < |order| && UsedIn(order, used, i)
    requires LeftFree(order, used, i) && RightFree(order, used, i) && k < |free| && free[k] == order[i + 1]
    ensures i + 2 < |order|
    ensures Shape(RemoveAt(RemoveAt(order, i), i), used[order[i] := false], RemoveAt(free, k), start, tail,
                  available + (order[i + 1] - order[i] - HDR) + HDR + HDR)
  {
    TiledDistinct(HDR, order, start, tail);
    CoalescedBoth(order, used, i);
    RemoveBoth(order, i);
    assert order[i - 1] in order && order[i - 1] != order[i];
    hide Tiled, FreeExact, Bytes, Coalesced;
    LooseRight(order, used, free, start, tail, i, k);
    LooseLeft(RemoveAt(order, i + 1), used[order[i] := false], RemoveAt(free, k), start, tail, i);
  }

  /** Releasing block i: its bytes come back, and each merge returns a header. */
  lemma ShapeRelease(order: seq<nat>, used: map<nat, bool>, free: seq<nat>, start: nat, tail: nat, available: int,
                     i: nat, k: nat)
    requires Shape(order, used, free, start, tail, available)
    requires i + 1 < |order| && UsedIn(order, used, i)
    requires RightFree(order, used, i) ==> k < |free| && free[k] == order[i + 1]
    ensures var l := LeftFree(order, used, i); var r := RightFree(order, used, i);
            && (r ==> i + 2 < |order|)
            && Shape(ReleaseOrder(order, i, l, r), used[order[i] := false], ReleaseFree(free, order[i], k, l, r),
                     start, tail,
                     available + (order[i + 1] - order[i] - HDR) + (if l then HDR else 0) + (if r then HDR else 0))
  {
    hide Shape, UsedIn;
    if LeftFree(order, used, i) {
      if RightFree(order, used, i) {
        ShapeGiveBoth(order, used, free, start, tail, available, i, k);
      } else {
        ShapeGiveLeft(order, used, free, start, tail, available, i);
      }
    } else if RightFree(order, used, i) {
      ShapeGiveRight(order, used, free, start, tail, available, i, k);
    } else {
      ShapeGive(order, used, free, start, tail, available, i);
    }
  }

  /** Moving the free header behind used block i to m: the block grows into the
      free neighbour, or gives it its own tail. */
  lemma ShapeMove(order: seq<nat>, used: map<nat, bool>, free: seq<nat>, start: nat, tail: nat, available: int,
                  i: nat, k: nat, m: nat)
    requires Shape(order, used, free, start, tail, available)
    requires i + 2 < |order| && UsedIn(order, used, i) && k < |free| && free[k] == order[i + 1] && m !in order
    requires order[i] + HDR <= m && m + HDR <= order[i + 2] && Aligned(m, start)
    ensures Shape(InsertAt(RemoveAt(order, i + 1), i + 1, m), used[m := false], [m] + RemoveAt(free, k), start, tail,
                  available - (m - order[i + 1]))
  {
    assert free[k] in free;
    CoalescedMove(order, used, i, m);
    assert InsertAt(RemoveAt(order, i + 1), i + 1, m) == order[i + 1 := m];
    hide Tiled, FreeExact, Bytes, Coalesced, Aligned;
    JoinBlock(order, used, free, start, tail, i, k);
    CutBlock(RemoveAt(order, i + 1), used, RemoveAt(free, k), start, tail, i, m);
  }

  /** Cutting the end off used block i when a used block follows. */
  lemma ShapeTrim(order: seq<nat>, used: map<nat, bool>, free: seq<nat>, start: nat, tail: nat, available: int,
                  i: nat, m: nat)
    requires Shape(order, used, free, start, tail, available)
    requires i + 1 < |order| && UsedIn(order, used, i) && UsedIn(order, used, i + 1)
    requires order[i] + HDR <= m && m + HDR <= order[i + 1] && Aligned(m, start)
    ensures m !in order && m !in free
    ensures Shape(InsertAt(order, i + 1, m), used[m := false], [m] + free, start, tail,
                  available + (order[i + 1] - m - HDR))
  {
    CutBlock(order, used, free, start, tail, i, m);
    assert used[m := false][order[i] := true] == used[m := false];
    CoalescedCut(order, used, i, m);
  }

  // ---- the pool ---------------------------------------------------------------

  /** Index of the first block of the free list with at least n data bytes. */
  ghost function FirstFit(next: map<nat, nat>, free: seq<nat>, n: nat): (k: nat)
    requires forall a :: a in free ==> a in next
    ensures k <= |free|
    ensures forall j :: 0 <= j < k ==> SizeOf(HDR, next, free[j]) < n
    ensures k < |free| ==> SizeOf(HDR, next, free[k]) >= n
  {
    if free == [] then 0
    else if SizeOf(HDR, next, free[0]) >= n then 0
    else 1 + FirstFit(next, free[1..], n)
  }

  lemma {:induction false} FirstFitIs(next: map<nat, nat>, free: seq<nat>, n: nat, k: nat)
    requires forall a :: a in free ==> a in next
    requires k <= |free| && forall j :: 0 <= j < k ==> SizeOf(HDR, next, free[j]) < n
    requires k < |free| ==> SizeOf(HDR, next, free[k]) >= n
    ensures FirstFit(next, free, n) == k
  {
    if k > 0 {
      assert SizeOf(HDR, next, free[0]) < n;
      forall j | 0 <= j < k - 1 ensures SizeOf(HDR, next, free[1..][j]) < n {
        assert free[1..][j] == free[j + 1];
      }
      FirstFitIs(next, free[1..], n, k - 1);
    }
  }

  /** Outcome of an allocation of n rounded bytes: NULL with nothing changed
      when the guard fails or no free block is long enough, otherwise the first
      such block of the free list, cut when the rest can hold a block. */
  ghost predicate AllocResult(n: nat, p: nat,
                              next0: map<nat, nat>, free0: seq<nat>, live0: map<nat, int>, available0: int,
                              free: seq<nat>, live: map<nat, int>, available: int)
    requires forall a :: a in free0 ==> a in next0
  {
    var k := FirstFit(next0, free0, n);
    if n >= available0 || k == |free0| then
      p == 0 && live == live0 && free == free0 && available == available0
    else
      var x := free0[k];
      var whole := SizeOf(HDR, next0, x);
      var taken := if whole >= n + HDR + MINIALLOC then n else whole;
      && p == x + HDR && x !in live0 && live == live0[x := taken]
      && free == (if whole >= n + HDR + MINIALLOC then [x + HDR + n] else []) + RemoveAt(free0, k)
      && available == available0 - taken - (if whole >= n + HDR + MINIALLOC then HDR else 0)
  }

  /** Outcome of releasing block i of the old block list. */
  ghost predicate Released(x: nat, i: nat, k: nat, order0: seq<nat>, used0: map<nat, bool>, free0: seq<nat>, available0: int,
                           order: seq<nat>, free: seq<nat>, available: int)
  {
    && i + 1 < |order0| && order0[i] == x
    && var l := LeftFree(order0, used0, i); var r := RightFree(order0, used0, i);
    && (r ==> i + 2 < |order0| && k < |free0| && free0[k] == order0[i + 1])
    && order == ReleaseOrder(order0, i, l, r)
    && free == ReleaseFree(free0, x, k, l, r)
    && available == available0 + (order0[i + 1] - x - HDR) + (if l then HDR else 0) + (if r then HDR else 0)
  }

  /** The block behind block i is free and, joined to it, leaves more than the
      minimal block beyond n bytes. */
  ghost predicate CanExtend(order: seq<nat>, used: map<nat, bool>, i: nat, n: nat)
    requires i + 1 < |order|
  {
    RightFree(order, used, i) && i + 2 < |order| && order[i + 2] - order[i] - 2 * HDR > n + MINIALLOC
  }

  ghost predicate Placed(order: seq<nat>, x: nat, i: nat) {
    i + 1 < |order| && order[i] == x
  }

  /** A block was resized to n rounded bytes: where the bytes went, and what they are. */
  ghost predicate Redone(n: nat, ptr: nat, p: nat, order0: seq<nat>, used0: map<nat, bool>,
                         next0: map<nat, nat>, free0: seq<nat>, available0: int,
                         live0: map<nat, int>, live: map<nat, int>, m0: nat -> bv8, m: nat -> bv8) {
    && ptr >= HDR && ptr - HDR in live0 && (forall a :: a in free0 ==> a in next0)
    && Resized(HDR, ptr - HDR, n, p, live0, live, m0, m)
    && exists i {:trigger Placed(order0, ptr - HDR, i)} :: Placed(order0, ptr - HDR, i)
         && ReallocChoice(n, ptr, p, i, order0, used0, next0, free0, available0, live0, live)
  }

  /** A block that was resized holds the bytes asked for, if the request did not wrap. */
  lemma RedoneCovers(newsize: nat, ptr: nat, p: nat, order0: seq<nat>, used0: map<nat, bool>,
                     next0: map<nat, nat>, free0: seq<nat>, available0: int,
                     live0: map<nat, int>, live: map<nat, int>, m0: nat -> bv8, m: nat -> bv8)
    requires Redone(Request(newsize), ptr, p, order0, used0, next0, free0, available0, live0, live, m0, m)
    requires newsize <= WORD - ALIGN && p != 0
    ensures p >= HDR && p - HDR in live && live[p - HDR] >= newsize
  {
    RequestCovers(newsize);
  }

  /** The test of rt_memheap_realloc for room behind the block, which fails it: the free
      block b behind x is there, and newsize + RT_MEMHEAP_MINIALLOC wraps. */
  ghost predicate Overruns(next: map<nat, nat>, used: map<nat, bool>, x: nat, n: nat) {
    && x in next && next[x] in next && next[x] in used && !used[next[x]]
    && n + MINIALLOC >= WORD
    && SizeOf(HDR, next, next[x]) + SizeOf(HDR, next, x) > (n + MINIALLOC) % WORD
  }

  /** In every tiling of a pool a block ends behind its own header. */
  lemma BlocksAhead(next: map<nat, nat>, prev: map<nat, nat>, order: seq<nat>, start: nat, tail: nat, x: nat)
    requires Ring(next, prev, order) && Tiled(HDR, order, start, tail) && x in order && x != tail
    ensures x in next && x + HDR <= next[x]
  {
    var i :| 0 <= i < |order| && order[i] == x;
    assert Linked(next, prev, order, i);
    assert i + 1 < |order| && Spaced(HDR, order, i);
  }

  /** A request it happens to: 2^32 - 16 bytes and one more, for a block of 12 bytes with
      a free one of 12 behind it. */
  lemma OverrunExample()
    ensures var next := map[0 := 36, 36 := 72, 72 := 0]; var used := map[0 := true, 36 := false, 72 := true];
            && Overruns(next, used, 0, Request(WORD - 15))
            && !CanExtend([0, 36, 72], used, 0, Request(WORD - 15))
  {
  }

  /** Which way a resize goes: in place when the block is long enough (the tail
      is given back only if it can hold a block) or can grow into its free
      neighbour; otherwise by a fresh block, failing exactly when the
      allocation does. */
  ghost predicate ReallocChoice(n: nat, ptr: nat, p: nat, i: nat, order0: seq<nat>, used0: map<nat, bool>,
                                next0: map<nat, nat>, free0: seq<nat>, available0: int,
                                live0: map<nat, int>, live: map<nat, int>)
    requires i + 1 < |order0| && ptr >= HDR && ptr - HDR in live0 && forall a :: a in free0 ==> a in next0
  {
    var x := ptr - HDR;
    var oldsize := live0[x];
    if n > oldsize && !CanExtend(order0, used0, i, n) then
      && p != ptr
      && (p == 0 <==> n >= available0 || FirstFit(next0, free0, n) == |free0|)
    else
      p == ptr && live == live0[x := if n <= oldsize <= n + HDR + MINIALLOC then oldsize else n]
  }

  lemma GrownInPlace(n: nat, ptr: nat, i: nat, order0: seq<nat>, used0: map<nat, bool>,
                     next0: map<nat, nat>, free0: seq<nat>, available0: int,
                     live0: map<nat, int>, live: map<nat, int>, m0: nat -> bv8, m: nat -> bv8)
    requires ptr >= HDR && ptr - HDR in live0 && forall a :: a in free0 ==> a in next0
    requires Placed(order0, ptr - HDR, i) && live0[ptr - HDR] < n && CanExtend(order0, used0, i, n)
    requires live == live0[ptr - HDR := n] && KeptBytes(HDR, live0, live, m0, m)
    ensures Redone(n, ptr, ptr, order0, used0, next0, free0, available0, live0, live, m0, m)
  {
  }

  lemma GrownElsewhere(n: nat, ptr: nat, p: nat, i: nat, order0: seq<nat>, used0: map<nat, bool>,
                       next0: map<nat, nat>, free0: seq<nat>, available0: int,
                       live0: map<nat, int>, live: map<nat, int>, m0: nat -> bv8, m: nat -> bv8)
    requires ptr >= HDR && ptr - HDR in live0 && forall a :: a in free0 ==> a in next0
    requires Placed(order0, ptr - HDR, i) && live0[ptr - HDR] < n && !CanExtend(order0, used0, i, n)
    requires Resized(HDR, ptr - HDR, n, p, live0, live, m0, m) && p != ptr
    requires p == 0 <==> n >= available0 || FirstFit(next0, free0, n) == |free0|
    ensures Redone(n, ptr, p, order0, used0, next0, free0, available0, live0, live, m0, m)
  {
  }

  class Pool {
    const start: nat
    const header: nat       // address of the free_header member
    var poolSize: nat
    var available: int
    var maxUsed: int
    var next: map<nat, nat>
    var prev: map<nat, nat>
    var nextFree: map<nat, nat>
    var prevFree: map<nat, nat>
    var used: map<nat, bool>
    var mem: nat -> bv8         // the bytes of the pool
    ghost var order: seq<nat>   // every block, tailer last
    ghost var free: seq<nat>    // the free list, from the header
    ghost var trail: seq<int>   // bytes not available after each change

    ghost function Tail(): int
      reads `poolSize
    {
      start + poolSize - HDR
    }

    ghost predicate Chains()
      reads `next, `prev, `nextFree, `prevFree, `order, `free
    {
      Ring(next, prev, order) && Ring(nextFree, prevFree, [header] + free)
    }

    ghost predicate Valid()
      reads `poolSize, `available, `maxUsed, `next, `prev, `nextFree, `prevFree, `used, `order, `free, `trail
    {
      && Tail() >= start && poolSize < WORD && (header < start || header >= start + poolSize)
      && Shape(order, used, free, start, Tail(), available)
      && Chains()
      && trail != [] && trail[|trail| - 1] == poolSize - available && 0 <= available <= poolSize
      && maxUsed == Highest(trail)
    }

    /** The allocated blocks: header address to data size. */
    ghost function Live(): map<nat, int>
      requires Valid()
      reads `poolSize, `available, `maxUsed, `next, `prev, `nextFree, `prevFree, `used, `order, `free, `trail
    {
      LiveOf(HDR, order, used, next, Tail())
    }

    ghost predicate InHeader(a: nat)
      reads `order
    {
      exists i :: 0 <= i < |order| && order[i] <= a < order[i] + HDR
    }

    /** Data areas of allocated blocks never meet a header. */
    lemma LiveClear(x: nat, a: nat)
      requires Valid() && x in Live() && x + HDR <= a < x + HDR + Live()[x]
      ensures !InHeader(a)
    {
      var i :| 0 <= i < |order| && order[i] == x;
      assert order[|order| - 1] == Tail();
      BlockAt(i);
      forall j | 0 <= j < |order| ensures !(order[j] <= a < order[j] + HDR) {
        if j < i { TiledApart(HDR, order, start, Tail(), j, i); }
        if j > i + 1 { TiledApart(HDR, order, start, Tail(), i + 1, j); }
      }
    }

    /** Header fields are stored in the pool, so an operation may leave any
        bytes in the header areas. */
    method Clobber()
      modifies `mem
      ensures forall a :: !InHeader(a) ==> mem(a) == old(mem)(a)
    {
    }

    /** Facts about block i that every operation starts from. */
    lemma BlockAt(i: nat)
      requires Valid() && i + 1 < |order|
      ensures order[i] in next && next[order[i]] == order[i + 1] && prev[order[i + 1]] == order[i]
      ensures order[i] in used && order[i + 1] in used
      ensures order[i] != Tail()
      ensures order[i] + HDR <= order[i + 1] <= Tail()
      ensures order[i] != header && Aligned(order[i], start)
    {
      assert Linked(next, prev, order, i) && Spaced(HDR, order, i);
      TiledApart(HDR, order, start, Tail(), i, |order| - 1);
      if i + 1 < |order| - 1 { TiledApart(HDR, order, start, Tail(), i + 1, |order| - 1); }
    }

    /** Insert n behind the free list header. */
    method LinkFree(n: nat)
      requires Ring(nextFree, prevFree, [header] + free) && n !in [header] + free
      modifies `nextFree, `prevFree, `free
      ensures free == [n] + old(free)
      ensures Ring(nextFree, prevFree, [header] + free)
    {
      ghost var c := [header] + free;
      RingInsertAfter(nextFree, prevFree, c, 0, n);
      assert Linked(nextFree, prevFree, c, 0);
      assert InsertAt(c, 1, n) == [header] + ([n] + free);
      nextFree := nextFree[n := nextFree[header]];
      prevFree := prevFree[n := header];
      prevFree := prevFree[nextFree[header] := n];
      nextFree := nextFree[header := n];
      ghost var q := c[Succ(0, |c|)];
      assert prevFree == old(prevFree)[q := n][n := header];
      free := [n] + free;
    }

    /** Take block b, the k-th of the free list, off it. */
    method UnlinkFree(b: nat, ghost k: nat)
      requires Ring(nextFree, prevFree, [header] + free) && k < |free| && free[k] == b
      modifies `nextFree, `prevFree, `free
      ensures free == RemoveAt(old(free), k)
      ensures Ring(nextFree, prevFree, [header] + free)
    {
      ghost var c := [header] + free;
      RingRemove(nextFree, prevFree, c, k + 1);
      assert RemoveAt(c, k + 1) == [header] + RemoveAt(free, k);
      assert Linked(nextFree, prevFree, c, k + 1);
      prevFree := prevFree[nextFree[b] := prevFree[b]];
      nextFree := nextFree[prevFree[b] := nextFree[b]];
      free := RemoveAt(free, k);
    }

    /** Insert block n between block h and its successor. */
    method LinkBlock(h: nat, n: nat, ghost i: nat)
      requires Ring(next, prev, order) && i < |order| && order[i] == h && n !in order
      modifies `next, `prev, `order
      ensures order == InsertAt(old(order), i + 1, n)
      ensures Ring(next, prev, order)
      ensures h in old(next) && next == old(next)[n := old(next)[h]][h := n]
    {
      RingInsertAfter(next, prev, order, i, n);
      assert Linked(next, prev, order, i);
      prev := prev[n := h];
      next := next[n := next[h]];
      prev := prev[next[h] := n];
      next := next[h := n];
      ghost var q := order[Succ(i, |order|)];
      assert prev == old(prev)[q := n][n := h];
      order := InsertAt(order, i + 1, n);
    }

    /** Drop block b, the i-th, from the block list. */
    method UnlinkBlock(b: nat, ghost i: nat)
      requires Ring(next, prev, order) && 0 < i < |order| && order[i] == b && |order| > 1
      modifies `next, `prev, `order
      ensures order == RemoveAt(old(order), i)
      ensures Ring(next, prev, order)
      ensures b in old(next) && next == old(next)[old(order)[i - 1] := old(next)[b]]
    {
      RingRemove(next, prev, order, i);
      assert Linked(next, prev, order, i) && Linked(next, prev, order, i - 1);
      prev := prev[next[b] := prev[b]];
      next := next[prev[b] := next[b]];
      order := RemoveAt(order, i);
    }

    constructor (start: nat, size: nat, header: nat)
      requires size < WORD && AlignDown(size) >= 2 * HDR
      requires header < start || header >= start + size
      ensures Valid() && this.start == start && this.header == header
      ensures poolSize == AlignDown(size)
      ensures available == poolSize - 2 * HDR && trail == [2 * HDR]
      ensures Live() == map[] && free == [start]
    {
      assert AlignDown(size) <= size && AlignDown(size) % ALIGN == 0;
      hide AlignDown, Shape, Ring, LiveOf, Highest, Distinct;
      this.start, this.header := start, header;
      var pool := AlignDown(size);
      var tail := start + (pool - 2 * HDR) + HDR;
      poolSize, available, maxUsed := pool, pool - 2 * HDR, 2 * HDR;
      nextFree := map[header := start, start := header];
      prevFree := map[header := start, start := header];
      next := map[start := tail, tail := start];
      prev := map[start := tail, tail := start];
      used := map[start := false, tail := true];
      order, free, trail := [start, tail], [start], [2 * HDR];
      new;
      InitialShape(start, poolSize);
      RingOfTwo(start, tail);
      RingOfTwo(header, start);
      assert [header] + free == [header, start];
      HighestNext([], poolSize - available);
      assert [] + [poolSize - available] == trail;
    }

    /** Every block has a size, and a free one has a place before the tailer. */
    lemma FreeAt(x: nat) returns (i: nat)
      requires Valid() && x in free
      ensures i + 1 < |order| && order[i] == x && x in used && !used[x] && x !in Live()
      ensures x in next && SizeOf(HDR, next, x) == order[i + 1] - x - HDR >= 0
    {
      i :| 0 <= i < |order| && order[i] == x;
      assert order[|order| - 1] == Tail();
      BlockAt(i);
    }

    lemma OrderInNext()
      requires Valid()
      ensures forall x :: x in order ==> x in used && x in next
    {
    }

    lemma FreeInNext()
      requires Valid()
      ensures forall a :: a in free ==> a in next
    {
      forall a | a in free ensures a in next {
        var i := FreeAt(a);
      }
    }

    static lemma StillOut(f: seq<nat>, k: nat, m: nat)
      requires k < |f| && m !in f
      ensures m !in RemoveAt(f, k)
    {
    }

    /** Give the front n bytes of free block h to the caller and put the rest
        behind the free list header: the writes. */
    method Split(h: nat, n: nat, ghost i: nat, ghost k: nat)
      requires Chains() && i < |order| && order[i] == h && k < |free| && free[k] == h
      requires h + n + HDR !in order && h + n + HDR !in free && h + n + HDR != header
      requires n + HDR <= available <= poolSize
      modifies `next, `prev, `nextFree, `prevFree, `used, `available, `maxUsed, `order, `free, `trail
      ensures Chains()
      ensures order == InsertAt(old(order), i + 1, h + n + HDR)
      ensures h in old(next) && next == old(next)[h + n + HDR := old(next)[h]][h := h + n + HDR]
      ensures free == [h + n + HDR] + RemoveAt(old(free), k)
      ensures used == old(used)[h + n + HDR := false][h := true]
      ensures available == old(available) - n - HDR
      ensures maxUsed == Max(old(maxUsed), poolSize - available) && trail == old(trail) + [poolSize - available]
    {
      hide Ring, Distinct, Linked;
      var m := h + n + HDR;
      used := used[m := false];
      LinkBlock(h, m, i);
      UnlinkFree(h, k);
      StillOut(old(free), k, m);
      LinkFree(m);
      available := available - n - HDR;
      if poolSize - available > maxUsed { maxUsed := poolSize - available; }
      trail := trail + [poolSize - available];
      used := used[h := true];
    }

    method Carve(h: nat, n: nat, ghost k: nat)
      requires Valid() && k < |free| && free[k] == h && n % ALIGN == 0
      requires h in next && SizeOf(HDR, next, h) >= n + HDR + MINIALLOC
      modifies `next, `prev, `nextFree, `prevFree, `used, `available, `maxUsed, `order, `free, `trail
      ensures Valid() && h !in old(Live())
      ensures Live() == old(Live())[h := n]
      ensures free == [h + HDR + n] + RemoveAt(old(free), k)
      ensures available == old(available) - n - HDR && trail == old(trail) + [poolSize - available]
    {
      hide Shape, LiveOf, Ring;
      ghost var i := FreeAt(h);
      BlockAt(i);
      ghost var m := h + n + HDR;
      AlignedStep(HDR, h, n, start);
      ShapeCarve(order, used, free, start, Tail(), available, i, k, m);
      ShapeBounds(InsertAt(order, i + 1, m), used[m := false][h := true], [m] + RemoveAt(free, k), start, Tail(),
                  available - n - HDR);
      OrderInNext();
      LiveCut(HDR, order, used, next, Tail(), i, m);
      HighestNext(trail, poolSize - (available - n - HDR));
      Split(h, n, i, k);
    }

    /** Give the whole of free block h to the caller. */
    method TakeWhole(h: nat, ghost k: nat)
      requires Valid() && k < |free| && free[k] == h && h in next
      modifies `nextFree, `prevFree, `used, `available, `maxUsed, `free, `trail
      ensures Valid() && h !in old(Live())
      ensures Live() == old(Live())[h := SizeOf(HDR, next, h)]
      ensures free == RemoveAt(old(free), k)
      ensures available == old(available) - SizeOf(HDR, next, h) && trail == old(trail) + [poolSize - available]
    {
      hide Shape, LiveOf, Ring;
      ghost var i := FreeAt(h);
      BlockAt(i);
      var freeSize := next[h] - h - HDR;
      OrderInNext();
      LiveTake(HDR, order, used, next, Tail(), h);
      ShapeTake(order, used, free, start, Tail(), available, i, k);
      ShapeBounds(order, used[h := true], RemoveAt(free, k), start, Tail(), available - freeSize);
      HighestNext(trail, poolSize - (available - freeSize));
      used := used[h := true];
      available := available - freeSize;
      if poolSize - available > maxUsed { maxUsed := poolSize - available; }
      trail := trail + [poolSize - available];
      UnlinkFree(h, k);
    }

    /** rt_memheap_alloc */
    method Alloc(size: nat) returns (p: nat)
      requires Valid() && size < WORD
      modifies this
      ensures Valid() && poolSize == old(poolSize)
      ensures forall a :: a in old(free) ==> a in old(next)
      ensures AllocResult(Request(size), p, old(next), old(free), old(Live()), old(available), free, Live(), available)
      ensures trail == old(trail) + if p == 0 then [] else [poolSize - available]
      ensures KeptBytes(HDR, old(Live()), Live(), old(mem), mem)
    {
      hide Request, FirstFit, Shape, Chains, Ring, LiveOf, Highest, KeptBytes, Loose;
      RequestAligned(size);
      p := 0;
      var n := Request(size);
      FreeInNext();
      if n < available {
        var h, freeSize, k := Search(n);
        if freeSize >= n {
          if freeSize >= n + HDR + MINIALLOC {
            RequestAligned(size);
            Carve(h, n, k);
          } else {
            TakeWhole(h, k);
          }
          p := h + HDR;
        }
      }
      Scribble(old(Live()), old(mem));
    }

    /** Absorb the block behind h if it is free (r). */
    method JoinRight(h: nat, ghost at: nat, ghost k: nat, ghost r: bool)
      requires Chains() && at + 1 < |order| && order[at] == h
      requires order[at + 1] in used && used[order[at + 1]] == !r
      requires r ==> k < |free| && free[k] == order[at + 1]
      modifies `next, `prev, `nextFree, `prevFree, `available, `order, `free
      ensures order == (if r then RemoveAt(old(order), at + 1) else old(order))
      ensures free == (if r then RemoveAt(old(free), k) else old(free))
      ensures available == old(available) + if r then HDR else 0
      ensures Chains()
      ensures forall y :: y in old(next) && y != h ==> y in next && next[y] == old(next)[y]
    {
      assert Linked(next, prev, order, at);
      hide Ring;
      if !used[next[h]] {
        available := available + HDR;
        var b := next[h];
        UnlinkBlock(b, at + 1);
        UnlinkFree(b, k);
      }
    }

    /** Fold free block x into a free block before it (l), then absorb a free
        block behind the result (r). */
    method Merge(x: nat, ghost i: nat, ghost k: nat, ghost l: bool, ghost r: bool) returns (merged: bool)
      requires Chains() && i + 1 < |order| && order[i] == x
      requires l ==> i > 0
      requires var p := order[if i == 0 then |order| - 1 else i - 1]; p in used && used[p] == !l
      requires order[i + 1] in used && used[order[i + 1]] == !r
      requires r ==> k < |free| && free[k] == order[i + 1] && i + 2 < |order|
      modifies `next, `prev, `nextFree, `prevFree, `available, `order, `free
      ensures merged == l
      ensures order == ReleaseOrder(old(order), i, l, r)
      ensures free == (if r then RemoveAt(old(free), k) else old(free))
      ensures available == old(available) + (if l then HDR else 0) + (if r then HDR else 0)
      ensures Chains()
      ensures forall y :: y in old(next) && y != x && (l ==> y != old(order)[i - 1]) ==> y in next && next[y] == old(next)[y]
    {
      ghost var before := if i == 0 then |order| - 1 else i - 1;
      assert Linked(next, prev, order, before);
      assert prev[x] == order[before];
      merged := !used[prev[x]];
      hide Ring;
      if merged {
        available := available + HDR;
        var h := prev[x];
        UnlinkBlock(x, i);
        JoinRight(h, i - 1, k, r);
      } else {
        JoinRight(x, i, k, r);
      }
    }

    lemma NextIs(x: nat, i: nat)
      requires Ring(next, prev, order) && i + 1 < |order| && order[i] == x
      ensures x in next && next[x] == order[i + 1]
      ensures forall j :: 0 <= j < |order| && j != i ==> order[j] != x
    {
      assert Linked(next, prev, order, i);
    }

    lemma FreeAfter(f: seq<nat>, x: nat, k: nat, l: bool, r: bool)
      requires x !in f && (r ==> k < |f|)
      ensures var g := if r then RemoveAt(f, k) else f;
              x !in g && ReleaseFree(f, x, k, l, r) == if l then g else [x] + g
    {
    }

    /** Return block x to the pool, merging it with free neighbours. */
    method Release(x: nat, ghost i: nat, ghost k: nat, ghost l: bool, ghost r: bool)
      requires Chains() && i + 1 < |order| && order[i] == x && x + HDR <= order[i + 1]
      requires header != x && x !in free && UsedIn(order, used, |order| - 1)
      requires forall y :: y in order ==> y in used
      requires l == LeftFree(order, used, i) && r == RightFree(order, used, i)
      requires r ==> k < |free| && free[k] == order[i + 1] && i + 2 < |order|
      modifies `next, `prev, `nextFree, `prevFree, `used, `available, `order, `free, `trail
      ensures order == ReleaseOrder(old(order), i, l, r)
      ensures free == ReleaseFree(old(free), x, k, l, r)
      ensures available == old(available) + (old(order)[i + 1] - x - HDR) + (if l then HDR else 0) + (if r then HDR else 0)
      ensures used == old(used)[x := false] && trail == old(trail) + [poolSize - available]
      ensures Chains()
      ensures forall y :: y in old(next) && (y in old(used) ==> old(used)[y]) && y != x ==> y in next && next[y] == old(next)[y]
    {
      hide Ring, ReleaseOrder, ReleaseFree;
      NextIs(x, i);
      used := used[x := false];
      available := available + (next[x] - x - HDR);
      var merged := Merge(x, i, k, l, r);
      FreeAfter(old(free), x, k, l, r);
      if !merged {
        LinkFree(x);
      }
      trail := trail + [poolSize - available];
    }

    /** The first-fit walk along the free list. */
    method Search(n: nat) returns (h: nat, freeSize: int, ghost k: nat)
      requires Valid() && n > 0
      ensures forall a :: a in free ==> a in next
      ensures k == FirstFit(next, free, n)
      ensures freeSize >= n <==> FirstFit(next, free, n) < |free|
      ensures FirstFit(next, free, n) < |free| ==> h == free[FirstFit(next, free, n)] && freeSize == SizeOf(HDR, next, h)
    {
      FreeInNext();
      ghost var c := [header] + free;
      assert Linked(nextFree, prevFree, c, 0);
      assert header == c[0];
      h := nextFree[header];
      freeSize := 0;
      k := 0;
      while h != header && freeSize < n
        invariant 0 <= k <= |free| && h == c[Succ(k, |c|)]
        invariant forall j :: 0 <= j < k ==> SizeOf(HDR, next, free[j]) < n
        invariant freeSize >= n ==> k < |free| && freeSize == SizeOf(HDR, next, free[k])
        decreases |free| - k, n - freeSize
      {
        assert free[k] in free;
        freeSize := next[h] - h - HDR;
        if freeSize < n {
          h := nextFree[h];
          k := k + 1;
          assert Linked(nextFree, prevFree, c, k);
        }
      }
      FirstFitIs(next, free, n, k);
    }

    /** The header writes of an operation, seen from the allocated bytes. */
    method Scribble(ghost live: map<nat, int>, ghost m: nat -> bv8)
      requires Valid() && mem == m
      modifies `mem
      ensures KeptBytes(HDR, live, Live(), m, mem)
    {
      Clobber();
      forall x, a | x in live && x in Live() && x + HDR <= a < x + HDR + live[x] && a < x + HDR + Live()[x]
        ensures m(a) == mem(a) {
        LiveClear(x, a);
      }
    }

    lemma ChainInNext()
      requires Chains()
      ensures forall y :: y in order ==> y in next
    {
    }

    /** What is known of an allocated block. */
    lemma LiveAt(x: nat) returns (i: nat)
      requires Valid() && x in Live()
      ensures i + 1 < |order| && order[i] == x && x != Tail() && x != header && Aligned(x, start)
      ensures x in used && UsedIn(order, used, i) && UsedIn(order, used, |order| - 1) && x !in free
      ensures x in next && next[x] == order[i + 1] && x + HDR <= order[i + 1] && SizeOf(HDR, next, x) == Live()[x]
      ensures Distinct(order) && (forall y :: y in order ==> y in used && y in next)
    {
      i :| 0 <= i < |order| && order[i] == x;
      assert order[|order| - 1] == Tail();
      BlockAt(i);
      TiledDistinct(HDR, order, start, Tail());
    }

    /** The position in the free list of a free block behind block i. */
    lemma RightAt(i: nat) returns (k: nat)
      requires Valid() && i + 1 < |order|
      ensures RightFree(order, used, i) ==> k < |free| && free[k] == order[i + 1] && i + 2 < |order|
    {
      k := 0;
      if RightFree(order, used, i) {
        assert order[i + 1] in order;
        k :| 0 <= k < |free| && free[k] == order[i + 1];
      }
    }

    /** rt_memheap_free. The ghost results locate the block and its right
        neighbour's place in the free list. */
    method Free(ptr: nat) returns (ghost i: nat, ghost k: nat)
      requires Valid() && (ptr == 0 || (ptr >= HDR && ptr - HDR in Live()))
      modifies this
      ensures Valid() && poolSize == old(poolSize)
      ensures ptr == 0 ==> unchanged(this)
      ensures ptr != 0 ==> Live() == old(Live()) - {ptr - HDR} && trail == old(trail) + [poolSize - available]
      ensures ptr != 0 ==> Released(ptr - HDR, i, k, old(order), old(used), old(free), old(available),
                                    order, free, available)
      ensures KeptBytes(HDR, old(Live()), Live(), old(mem), mem)
    {
      hide Valid, Live, Released, KeptBytes;
      i, k := 0, 0;
      if ptr == 0 {
        KeptSelf();
        return;
      }
      i, k := FreeBlock(ptr - HDR);
    }

    /** The header writes of the locked section reach no allocated byte. */
    method FreeBlock(x: nat) returns (ghost i: nat, ghost k: nat)
      requires Valid() && x in Live()
      modifies this
      ensures Valid() && poolSize == old(poolSize)
      ensures Live() == old(Live()) - {x} && trail == old(trail) + [poolSize - available]
      ensures Released(x, i, k, old(order), old(used), old(free), old(available), order, free, available)
      ensures KeptBytes(HDR, old(Live()), Live(), old(mem), mem)
    {
      hide Valid, Live, Released, KeptBytes;
      i, k := GiveBack(x);
      Scribble(old(Live()), mem);
    }

    lemma KeptSelf()
      requires Valid()
      ensures KeptBytes(HDR, Live(), Live(), mem, mem)
    {
    }

    /** The locked section of rt_memheap_free. */
    method GiveBack(x: nat) returns (ghost i: nat, ghost k: nat)
      requires Valid() && x in Live()
      modifies `next, `prev, `nextFree, `prevFree, `used, `available, `order, `free, `trail
      ensures Valid()
      ensures Live() == old(Live()) - {x} && trail == old(trail) + [poolSize - available]
      ensures Released(x, i, k, old(order), old(used), old(free), old(available), order, free, available)
    {
      hide Shape, LiveOf, Ring, Aligned, UsedIn, Distinct, LeftFree, RightFree, ReleaseOrder, ReleaseFree;
      i := LiveAt(x);
      k := RightAt(i);
      ghost var order0, used0, next0, free0, a0 := order, used, next, free, available;
      ShapeRelease(order, used, free, start, Tail(), available, i, k);
      Release(x, i, k, LeftFree(order, used, i), RightFree(order, used, i));
      assert Released(x, i, k, order0, used0, free0, a0, order, free, available);
      ChainInNext();
      LiveRelease(HDR, order0, used0, next0, next, Tail(), i);
      ShapeBounds(order, used, free, start, Tail(), available);
      HighestNext(old(trail), poolSize - available);
      HighestLast(old(trail));
    }

    // ---- rt_memheap_realloc ---------------------------------------------------

    /** Replace the free header b behind block x by one at m: the writes. */
    method Move(x: nat, b: nat, m: nat, ghost i: nat, ghost k: nat)
      requires Chains() && i + 2 < |order| && order[i] == x && order[i + 1] == b
      requires k < |free| && free[k] == b && m !in order && m !in free && m != header
      modifies `next, `prev, `nextFree, `prevFree, `used, `order, `free
      ensures Chains()
      ensures order == InsertAt(RemoveAt(old(order), i + 1), i + 1, m)
      ensures free == [m] + RemoveAt(old(free), k)
      ensures used == old(used)[m := false]
      ensures x in next && next[x] == m && forall y :: y in old(next) && y != x && y != m ==> y in next && next[y] == old(next)[y]
    {
      RemoveSubset(order, i + 1);
      RemoveSubset(free, k);
      hide Ring;
      UnlinkFree(b, k);
      UnlinkBlock(b, i + 1);
      used := used[m := false];
      LinkBlock(x, m, i);
      LinkFree(m);
    }

    static lemma RemoveSubset(c: seq<nat>, i: nat)
      requires i < |c|
      ensures forall y :: y in RemoveAt(c, i) ==> y in c
      ensures i > 0 ==> RemoveAt(c, i)[i - 1] == c[i - 1]
    {
    }

    /** What moving the free header behind block i to m leaves. */
    lemma MoveReady(x: nat, i: nat, m: nat) returns (k: nat)
      requires Valid() && x in Live() && i + 2 < |order| && order[i] == x && RightFree(order, used, i)
      requires x + HDR <= m && m + HDR <= order[i + 2] && Aligned(m, start) && m != order[i + 1]
      ensures k < |free| && free[k] == order[i + 1]
      ensures m !in order && m !in free && m != header
      ensures x in next && next[x] == order[i + 1] && Live()[x] == order[i + 1] - x - HDR
      ensures order[i + 1] in used && !used[order[i + 1]]
      ensures var a := available - (m - order[i + 1]);
              0 <= a <= poolSize
              && Shape(InsertAt(RemoveAt(order, i + 1), i + 1, m), used[m := false], [m] + RemoveAt(free, k), start, Tail(), a)
    {
      hide Coalesced, FreeExact, LiveOf, Ring, Bytes;
      var j := LiveAt(x);
      k := RightAt(i);
      BlockAt(i);
      BlockAt(i + 1);
      if m < order[i + 1] { NotBlock(m, i); } else { NotBlock(m, i + 1); }
      ShapeMove(order, used, free, start, Tail(), available, i, k, m);
      ShapeBounds(InsertAt(RemoveAt(order, i + 1), i + 1, m), used[m := false], [m] + RemoveAt(free, k), start, Tail(),
                  available - (m - order[i + 1]));
    }

    lemma MoveDone(order0: seq<nat>, used0: map<nat, bool>, next0: map<nat, nat>, x: nat, i: nat, m: nat)
      requires forall y :: y in order0 ==> y in used0 && y in next0
      requires Distinct(order0) && i + 2 < |order0| && order0[i] == x && x != Tail() && used0[x] && !used0[order0[i + 1]]
      requires m !in order0 && x < m
      requires Chains() && order == InsertAt(RemoveAt(order0, i + 1), i + 1, m) && used == used0[m := false]
      requires x in next && next[x] == m && forall y :: y in next0 && y != x && y != m ==> y in next && next[y] == next0[y]
      ensures forall y :: y in order ==> y in used && y in next
      ensures LiveOf(HDR, order, used, next, Tail()) == LiveOf(HDR, order0, used0, next0, Tail())[x := m - x - HDR]
    {
      ChainInNext();
      MoveMembers(order0, used0, i, m);
      LiveResize(HDR, order0, order, used0, next0, next, Tail(), x, m);
    }

    /** Grow block x into the free block behind it. */
    method Extend(x: nat, n: nat, ghost i: nat)
      requires Valid() && x in Live() && i + 1 < |order| && order[i] == x && n % ALIGN == 0
      requires n > Live()[x] && CanExtend(order, used, i, n)
      modifies `next, `prev, `nextFree, `prevFree, `used, `available, `maxUsed, `order, `free, `trail
      ensures Valid() && Live() == old(Live())[x := n]
      ensures available == old(available) - (n - old(Live())[x]) && trail == old(trail) + [poolSize - available]
    {
      hide Shape, LiveOf, Ring, Aligned, InsertAt, RemoveAt, RightFree;
      ghost var j := LiveAt(x);
      AlignedStep(HDR, x, n, start);
      var m := x + HDR + n;
      ghost var k := MoveReady(x, i, m);
      var oldsize := next[x] - x - HDR;
      HighestNext(trail, poolSize - (available - (n - oldsize)));
      available := available - (n - oldsize);
      if poolSize - available > maxUsed { maxUsed := poolSize - available; }
      trail := trail + [poolSize - available];
      Move(x, next[x], m, i, k);
      MoveDone(old(order), old(used), old(next), x, i, m);
    }

    static lemma MoveMembers(order: seq<nat>, used: map<nat, bool>, i: nat, m: nat)
      requires Distinct(order) && i + 2 < |order| && m !in order
      requires (forall y :: y in order ==> y in used) && !used[order[i + 1]]
      ensures var o := InsertAt(RemoveAt(order, i + 1), i + 1, m);
              && (forall y :: y in o ==> y == m || y in order)
              && (forall y :: y in order && used[y] ==> y in o && y != m)
    {
      RemoveMembers(order, i + 1);
      InsertMembers(RemoveAt(order, i + 1), i + 1, m);
    }

    /** An address strictly inside block i is no header and not the list head. */
    lemma NotBlock(m: nat, i: nat)
      requires Valid() && i + 1 < |order| && order[i] < m < order[i + 1]
      ensures m !in order && m !in free && m != header
    {
      BlockAt(i);
      forall j | 0 <= j < |order| ensures order[j] != m {
        if j < i { TiledApart(HDR, order, start, Tail(), j, i); }
        if j > i + 1 { TiledApart(HDR, order, start, Tail(), i + 1, j); }
      }
    }

    /** Cut the tail off block x when a used block follows: what it leaves. */
    lemma TrimReady(x: nat, i: nat, m: nat)
      requires Valid() && x in Live() && i + 1 < |order| && order[i] == x && !RightFree(order, used, i)
      requires x + HDR <= m && m + HDR <= order[i + 1] && Aligned(m, start)
      ensures m !in order && m !in free && m != header
      ensures x in next && next[x] == order[i + 1] && Live()[x] == order[i + 1] - x - HDR
      ensures var a := available + (order[i + 1] - m - HDR);
              a <= poolSize && Shape(InsertAt(order, i + 1, m), used[m := false], [m] + free, start, Tail(), a)
    {
      hide Coalesced, FreeExact, LiveOf, Ring, Bytes;
      var j := LiveAt(x);
      BlockAt(i);
      NotBlock(m, i);
      ShapeTrim(order, used, free, start, Tail(), available, i, m);
      ShapeBounds(InsertAt(order, i + 1, m), used[m := false], [m] + free, start, Tail(),
                  available + (order[i + 1] - m - HDR));
    }

    lemma TrimDone(order0: seq<nat>, used0: map<nat, bool>, next0: map<nat, nat>, x: nat, i: nat, m: nat)
      requires forall y :: y in order0 ==> y in used0 && y in next0
      requires Distinct(order0) && i + 1 < |order0| && order0[i] == x && x != Tail() && used0[x]
      requires m !in order0 && x < m
      requires Chains() && order == InsertAt(order0, i + 1, m) && used == used0[m := false]
      requires x in next && next[x] == m && forall y :: y in next0 && y != x && y != m ==> y in next && next[y] == next0[y]
      ensures forall y :: y in order ==> y in used && y in next
      ensures LiveOf(HDR, order, used, next, Tail()) == LiveOf(HDR, order0, used0, next0, Tail())[x := m - x - HDR]
    {
      ChainInNext();
      InsertMembers(order0, i + 1, m);
      LiveResize(HDR, order0, order, used0, next0, next, Tail(), x, m);
    }

    /** Put a free header at m inside block x and absorb a free block (r) behind
        it: the writes. */
    method Cut(x: nat, m: nat, ghost i: nat, ghost k: nat, ghost r: bool)
      requires Chains() && i + 1 < |order| && order[i] == x && m !in order && m !in free && m != header
      requires order[i + 1] in used && used[order[i + 1]] == !r
      requires r ==> k < |free| && free[k] == order[i + 1] && i + 2 < |order|
      modifies `next, `prev, `nextFree, `prevFree, `used, `available, `order, `free
      ensures Chains() && used == old(used)[m := false]
      ensures order == if r then InsertAt(RemoveAt(old(order), i + 1), i + 1, m) else InsertAt(old(order), i + 1, m)
      ensures free == [m] + if r then RemoveAt(old(free), k) else old(free)
      ensures x in next && next[x] == m && forall y :: y in old(next) && y != x && y != m ==> y in next && next[y] == old(next)[y]
      ensures available == old(available) + (if r then old(order)[i + 1] - m else old(order)[i + 1] - m - HDR)
    {
      if r { RemoveSubset(free, k); BlockLinks(i + 1); }
      BlockLinks(i);
      InsertRemoveSwap(order, i + 1, m);
      hide Ring;
      used := used[m := false];
      LinkBlock(x, m, i);
      var b := next[m];
      if !used[b] {
        available := available - (next[b] - b - HDR);
        UnlinkBlock(b, i + 2);
        UnlinkFree(b, k);
      }
      LinkFree(m);
      available := available + (next[m] - m - HDR);
    }

    lemma BlockLinks(i: nat)
      requires Chains() && i + 1 < |order|
      ensures order[i] in next && next[order[i]] == order[i + 1]
    {
      assert Linked(next, prev, order, i);
    }

    /** Cut block x down to n bytes; the rest joins a free block behind it. */
    method Trim(x: nat, n: nat, ghost i: nat)
      requires Valid() && x in Live() && i + 1 < |order| && order[i] == x && n % ALIGN == 0
      requires n + HDR + MINIALLOC < Live()[x]
      modifies `next, `prev, `nextFree, `prevFree, `used, `available, `order, `free, `trail
      ensures Valid() && Live() == old(Live())[x := n] && trail == old(trail) + [poolSize - available]
      ensures available == old(available) + (old(Live())[x] - n) - if RightFree(old(order), old(used), i) then 0 else HDR
    {
      hide Shape, LiveOf, Ring, Aligned, InsertAt, RemoveAt, Highest, Loose, Distinct, Linked;
      ghost var j := LiveAt(x);
      AlignedStep(HDR, x, n, start);
      var m := x + HDR + n;
      HighestLast(trail);
      HighestNext(trail, poolSize - (available + (Live()[x] - n) - if RightFree(order, used, i) then 0 else HDR));
      ghost var r, k := RightFree(order, used, i), 0;
      if r {
        k := RightAt(i);
        BlockAt(i + 1);
        k := MoveReady(x, i, m);
      } else {
        TrimReady(x, i, m);
      }
      Cut(x, m, i, k, r);
      trail := trail + [poolSize - available];
      if r {
        MoveDone(old(order), old(used), old(next), x, i, m);
      } else {
        TrimDone(old(order), old(used), old(next), x, i, m);
      }
    }

    /** rt_memcpy */
    method Copy(dst: nat, src: nat, n: nat)
      modifies `mem
      ensures Copied(old(mem), mem, dst, src, n)
    {
      var m := mem;
      mem := (a: nat) => if dst <= a < dst + n then m(a - dst + src) else m(a);
    }

    /** Data areas of allocated blocks are disjoint and inside the pool. */
    lemma LiveApart(x: nat, y: nat)
      requires Valid() && x in Live() && y in Live() && x < y
      ensures start <= x && x + HDR + Live()[x] <= y && y + HDR + Live()[y] <= Tail()
    {
      var i := LiveAt(x);
      var j := LiveAt(y);
      BlockAt(i);
      BlockAt(j);
      if j < i { TiledApart(HDR, order, start, Tail(), j, i); }
      if i + 1 < j { TiledApart(HDR, order, start, Tail(), i + 1, j); }
    }

    lemma FreshApart(y: nat)
      requires Valid() && y in Live()
      ensures forall z :: z in Live() && z != y ==> z + HDR + Live()[z] <= y || y + HDR + Live()[y] <= z
    {
      forall z | z in Live() && z != y ensures z + HDR + Live()[z] <= y || y + HDR + Live()[y] <= z {
        if z < y { LiveApart(z, y); } else { LiveApart(y, z); }
      }
    }

    lemma ResizeFailed(x: nat, n: nat)
      requires Valid() && x in Live()
      ensures forall m0, m :: Resized(HDR, x, n, 0, Live(), Live(), m0, m)
    {
    }

    /** Growing by a fresh block: allocate, copy, free the old one. */
    method Relocate(ptr: nat, n: nat, oldsize: nat) returns (p: nat)
      requires Valid() && ptr >= HDR && ptr - HDR in Live() && oldsize == Live()[ptr - HDR]
      requires Request(n) == n < WORD && oldsize < n
      modifies this
      ensures Valid() && poolSize == old(poolSize)
      ensures forall a :: a in old(free) ==> a in old(next)
      ensures p == 0 <==> n >= old(available) || FirstFit(old(next), old(free), n) == |old(free)|
      ensures p == 0 ==> available == old(available) && trail == old(trail)
      ensures p != 0 ==> |trail| == |old(trail)| + 2 && old(trail) <= trail
      ensures p != ptr
      ensures Resized(HDR, ptr - HDR, n, p, old(Live()), Live(), old(mem), mem)
      ensures KeptBytes(HDR, old(Live()), Live(), old(mem), mem)
    {
      hide Valid, Live, Released, FirstFit, KeptBytes, Request, Resized, ClearOf, Copied, Shape, Chains,
           LiveOf, Ring, Loose, Linked, Tail, Aligned, Highest, InHeader;
      var x := ptr - HDR;
      p := Fresh(n);
      if p == 0 {
        ResizeFailed(x, n);
        return;
      }
      ghost var live1, mem1, y := Live(), mem, p - HDR;
      Copy(p, ptr, oldsize);
      ghost var mem2 := mem;
      Discard(ptr);
      RelocateBytes(HDR, x, y, live1[y], n, oldsize, old(Live()), old(mem), mem1, mem2, mem);
    }

    /** rt_memheap_free, as a change of the live map. */
    method Discard(ptr: nat)
      requires Valid() && ptr >= HDR && ptr - HDR in Live()
      modifies this
      ensures Valid() && poolSize == old(poolSize)
      ensures Live() == old(Live()) - {ptr - HDR} && trail == old(trail) + [poolSize - available]
      ensures KeptBytes(HDR, old(Live()), Live(), old(mem), mem)
    {
      hide Valid, Live, Released, KeptBytes;
      ghost var i, k := Free(ptr);
    }

    /** rt_memheap_alloc of an already rounded size, as a change of the live map. */
    method Fresh(n: nat) returns (p: nat)
      requires Valid() && Request(n) == n < WORD
      modifies this
      ensures Valid() && poolSize == old(poolSize)
      ensures forall a :: a in old(free) ==> a in old(next)
      ensures p == 0 <==> n >= old(available) || FirstFit(old(next), old(free), n) == |old(free)|
      ensures p == 0 ==> Live() == old(Live()) && available == old(available) && trail == old(trail)
      ensures p != 0 ==> p >= HDR && trail == old(trail) + [poolSize - available]
      ensures p != 0 ==> var y := p - HDR;
              && y !in old(Live()) && y in Live() && Live() == old(Live())[y := Live()[y]] && Live()[y] >= n
              && ClearOf(HDR, old(Live()), y, Live()[y])
      ensures KeptBytes(HDR, old(Live()), Live(), old(mem), mem)
    {
      hide Shape, Loose, Chains, Ring, LiveOf, FirstFit, KeptBytes, Request;
      p := Alloc(n);
      if p == 0 { return; }
      ghost var live1, y := Live(), p - HDR;
      assert y !in old(Live()) && live1 == old(Live())[y := live1[y]] && live1[y] >= n;
      FreshApart(y);
      forall z | z in old(Live()) ensures z + HDR + old(Live())[z] <= y || y + HDR + live1[y] <= z {
        assert z in live1 && live1[z] == old(Live())[z];
      }
    }

    /** rt_memheap_realloc */
    method Realloc(ptr: nat, newsize: nat) returns (p: nat)
      requires Valid() && newsize < WORD
      requires ptr == 0 || (ptr >= HDR && ptr - HDR in Live())
      modifies this
      ensures Valid() <==> !Spoils(ptr, newsize, old(next), old(used))
      ensures Spoils(ptr, newsize, old(next), old(used)) ==>
                ptr - HDR in next && next[ptr - HDR] < ptr
      ensures !Spoils(ptr, newsize, old(next), old(used)) ==>
                poolSize == old(poolSize) && old(trail) <= trail && KeptBytes(HDR, old(Live()), Live(), old(mem), mem)
      ensures newsize == 0 ==> p == 0 && Valid() && Live() == (if ptr == 0 then old(Live()) else old(Live()) - {ptr - HDR})
      ensures newsize != 0 && ptr == 0 ==> Valid() && forall a :: a in old(free) ==> a in old(next)
      ensures newsize != 0 && ptr == 0 ==>
                AllocResult(Request(newsize), p, old(next), old(free), old(Live()), old(available), free, Live(), available)
      ensures newsize != 0 && ptr != 0 && !Spoils(ptr, newsize, old(next), old(used)) ==>
                Redone(Request(newsize), ptr, p, old(order), old(used), old(next), old(free), old(available),
                       old(Live()), Live(), old(mem), mem)
    {
      hide Shape, Loose, Chains, Ring, LiveOf, Request, FirstFit, Highest, KeptBytes, Overruns, AllocResult, Released, Redone;
      FreeInNext();
      p := 0;
      if newsize == 0 {
        ghost var i, k := Free(ptr);
        return;
      }
      var n := Request(newsize);
      RequestIdempotent(newsize);
      RequestCovers(newsize);
      if ptr == 0 {
        p := Alloc(n);
        return;
      }
      p := Resize(ptr, n);
    }

    /** The inputs on which rt_memheap_realloc ruins the pool. */
    ghost predicate Spoils(ptr: nat, newsize: nat, next0: map<nat, nat>, used0: map<nat, bool>) {
      newsize != 0 && ptr >= HDR && Overruns(next0, used0, ptr - HDR, Request(newsize))
    }

    /** A larger block: over the free one behind it, or elsewhere. */
    method Grow(ptr: nat, n: nat, oldsize: nat, ghost i: nat) returns (p: nat)
      requires Valid() && ptr >= HDR && ptr - HDR in Live() && Request(n) == n < WORD && n % ALIGN == 0
      requires i + 1 < |order| && order[i] == ptr - HDR && oldsize == Live()[ptr - HDR] < n
      modifies this
      ensures Valid() <==> !Overruns(old(next), old(used), ptr - HDR, n)
      ensures Overruns(old(next), old(used), ptr - HDR, n) ==> ptr - HDR in next && next[ptr - HDR] < ptr
      ensures !Overruns(old(next), old(used), ptr - HDR, n) ==>
                && poolSize == old(poolSize) && old(trail) <= trail
                && Redone(n, ptr, p, old(order), old(used), old(next), old(free), old(available),
                          old(Live()), Live(), old(mem), mem)
                && KeptBytes(HDR, old(Live()), Live(), old(mem), mem)
    {
      hide Shape, Chains, LiveOf, Request, FirstFit, Highest, KeptBytes, Loose, Redone, Resized;
      ghost var order0, used0, next0, free0, live0, m0 := order, used, next, free, Live(), mem;
      ghost var available0 := available;
      FreeInNext();
      var x := ptr - HDR;
      ghost var j := LiveAt(x);
      assert Placed(order, x, i);
      SizeSmall(i);
      BlockAt(i);
      var b := next[x];
      if !used[b] {
        ghost var k := RightAt(i);
        BlockAt(i + 1);
        var nextsize := next[b] - b - HDR;
        if nextsize + oldsize > (n + MINIALLOC) % WORD {
          if n + MINIALLOC >= WORD {
            p := Overrun(ptr, n, i, k);
            return;
          }
          Extend(x, n, i);
          Scribble(live0, mem);
          GrownInPlace(n, ptr, i, order0, used0, next0, free0, available0, live0, Live(), m0, mem);
          p := ptr;
          return;
        }
      }
      p := Relocate(ptr, n, oldsize);
      GrownElsewhere(n, ptr, p, i, order0, used0, next0, free0, available0, live0, Live(), m0, mem);
    }

    /** The branch that extends the block over the free one behind it, when the sum in
        its test wrapped: the new free header lands inside the header of the block. */
    method Overrun(ptr: nat, n: nat, ghost i: nat, ghost k: nat) returns (p: nat)
      requires Valid() && ptr >= HDR && ptr - HDR in Live() && n + MINIALLOC >= WORD && n < WORD
      requires i + 2 < |order| && order[i] == ptr - HDR && k < |free| && free[k] == order[i + 1]
      modifies `next, `prev, `nextFree, `prevFree, `used, `available, `maxUsed
      ensures !Valid() && ptr - HDR in next && ptr - HDR < next[ptr - HDR] < ptr && p == ptr
    {
      hide Valid, Live;
      Whereabouts(i, k);
      var x := ptr - HDR;
      var b, oldsize := next[x], next[x] - x - HDR;
      available := (available - (n - oldsize)) % WORD;
      if (poolSize - available) % WORD > maxUsed { maxUsed := (poolSize - available) % WORD; }
      prevFree := prevFree[nextFree[b] := prevFree[b]];
      nextFree := nextFree[prevFree[b] := nextFree[b]];
      prev := prev[next[b] := prev[b]];
      next := next[prev[b] := next[b]];
      var h := ptr + n - WORD;               // a 32-bit pointer sum
      used := used[h := false];
      prev := prev[h := x];
      next := next[h := next[x]];
      prev := prev[next[x] := h];
      next := next[x := h];
      nextFree := nextFree[h := nextFree[header]];
      prevFree := prevFree[h := header];
      prevFree := prevFree[nextFree[header] := h];
      nextFree := nextFree[header := h];
      Ruined(x, i);
      p := ptr;
    }

    lemma Whereabouts(i: nat, k: nat)
      requires Valid() && i + 2 < |order| && k < |free| && free[k] == order[i + 1]
      ensures order[i] in next && next[order[i]] == order[i + 1] && order[i] + HDR <= order[i + 1]
      ensures order[i + 1] in next && order[i + 1] in prev && prev[order[i + 1]] == order[i]
      ensures order[i + 1] in nextFree && order[i + 1] in prevFree && header in nextFree
    {
      BlockAt(i);
      BlockAt(i + 1);
      FreeLinks(k);
    }

    lemma SizeSmall(i: nat)
      requires Valid() && i + 1 < |order|
      ensures order[i] in next && next[order[i]] - order[i] + HDR <= poolSize < WORD
    {
      BlockAt(i);
    }

    lemma FreeLinks(k: nat)
      requires Chains() && k < |free|
      ensures free[k] in nextFree && free[k] in prevFree && header in nextFree
    {
      var c := [header] + free;
      assert c[k + 1] == free[k] && c[0] == header;
      assert Linked(nextFree, prevFree, c, k + 1);
    }

    lemma Ruined(x: nat, i: nat)
      requires i + 1 < |order| && order[i] == x && x in next && next[x] != order[i + 1]
      ensures !Valid()
    {
      assert Ring(next, prev, order) ==> Linked(next, prev, order, i);
    }

    method Resize(ptr: nat, n: nat) returns (p: nat)
      requires Valid() && ptr >= HDR && ptr - HDR in Live() && Request(n) == n < WORD
      modifies this
      ensures Valid() <==> !Overruns(old(next), old(used), ptr - HDR, n)
      ensures Overruns(old(next), old(used), ptr - HDR, n) ==> ptr - HDR in next && next[ptr - HDR] < ptr
      ensures !Overruns(old(next), old(used), ptr - HDR, n) ==>
                && poolSize == old(poolSize) && old(trail) <= trail
                && Redone(n, ptr, p, old(order), old(used), old(next), old(free), old(available),
                          old(Live()), Live(), old(mem), mem)
                && KeptBytes(HDR, old(Live()), Live(), old(mem), mem)
    {
      hide Shape, Chains, LiveOf, Request, FirstFit, Highest, KeptBytes, Loose;
      FreeInNext();
      var x := ptr - HDR;
      ghost var i := LiveAt(x);
      assert Placed(order, x, i);
      SizeSmall(i);
      RequestAligned(n);
      var oldsize := next[x] - x - HDR;
      if n > oldsize {
        p := Grow(ptr, n, oldsize, i);
        return;
      }
      if n + HDR + MINIALLOC >= oldsize {
        p := ptr;
        KeptSelf();
        return;
      }
      Trim(x, n, i);
      Scribble(old(Live()), mem);
      p := ptr;
    }

    /** Headers, allocated bytes and free bytes account for the whole pool. */
    lemma Accounting()
      requires Valid()
      ensures forall a :: a in order ==> a in used
      ensures poolSize == available + Bytes(HDR, order, used, true) + HDR * |order|
    {
      BytesConserved(HDR, order, used);
    }

    /** The free list is a duplicate-free list of exactly the unused blocks, and
        no two of them are neighbours. */
    lemma FreeListExact(i: nat, j: nat)
      requires Valid() && i < |free| && j < |order|
      ensures free[i] in order && !used[free[i]]
      ensures !UsedIn(order, used, j) ==> order[j] in free
      ensures !UsedIn(order, used, j) ==> j + 1 < |order| && UsedIn(order, used, j + 1) && (j > 0 ==> UsedIn(order, used, j - 1))
      ensures forall k :: 0 <= k < |free| && k != i ==> free[k] != free[i]
    {
      assert free[i] in free && order[j] in order;
      if j > 0 { assert UsedIn(order, used, j - 1) || UsedIn(order, used, j); }
    }
  }
}
