/** mem.c: the small-memory heap. */
module SmallMem {
  // Blocks carry the offsets of their neighbours; one pointer, lfree, remembers the lowest
  // free block. All positions are offsets from heap_ptr.

  import opened Blocks
  import opened Rings

  const HDR: nat := 12       // SIZEOF_STRUCT_MEM on a 32-bit target
  const MIN_SIZE: nat := 12  // MIN_SIZE and MIN_SIZE_ALIGNED

  /** RT_ALIGN on a 32-bit rt_size_t. */
  function Align(size: nat): (r: nat)
    ensures r % ALIGN == 0
    ensures size <= WORD - ALIGN ==> size <= r < size + ALIGN
  {
    (size + (ALIGN - 1)) % WORD / ALIGN * ALIGN
  }

  /** The rounded size covers the request except within three bytes of 2^32, where
      RT_ALIGN wraps to zero: rt_malloc then takes the minimum, rt_realloc a free. */
  lemma AlignCovers(size: nat)
    requires size < WORD
    ensures Align(size) >= size <==> size <= WORD - ALIGN
    ensures size > WORD - ALIGN ==> Align(size) == 0
  {
  }

  datatype Ptr = Null | At(off: int)

  // ---- the blocks as values -------------------------------------------------

  ghost predicate Shape(order: seq<nat>, used: map<nat, bool>, tail: nat) {
    && Tiled(HDR, order, 0, tail)
    && (forall a :: a in order ==> a in used)
    && Coalesced(order, used)
  }

  /** Headers and data of the used blocks: a header-less byte count. */
  ghost function InUse(order: seq<nat>, used: map<nat, bool>): int
    requires forall a :: a in order ==> a in used
  {
    Bytes(0, order, used, true)
  }

  lemma InitialShape(tail: nat)
    requires tail >= HDR && tail % ALIGN == 0
    ensures Shape([0, tail], map[0 := false, tail := true], tail)
    ensures InUse([0, tail], map[0 := false, tail := true]) == 0
    ensures LiveOf(HDR, [0, tail], map[0 := false, tail := true], map[0 := tail, tail := tail], tail) == map[]
  {
    var order, used := [0, tail], map[0 := false, tail := true];
    assert Spaced(HDR, order, 0);
    assert UsedIn(order, used, 1);
    assert Bytes(0, order[1..], used, true) == 0;
  }

  lemma ShapeTake(order: seq<nat>, used: map<nat, bool>, tail: nat, i: nat)
    requires Shape(order, used, tail) && i + 1 < |order| && !UsedIn(order, used, i)
    ensures Shape(order, used[order[i] := true], tail)
    ensures InUse(order, used[order[i] := true]) == InUse(order, used) + order[i + 1] - order[i]
  {
    TiledDistinct(HDR, order, 0, tail);
    CoalescedTake(order, used, i);
    assert order[i] in order;
    BytesFlip(0, order, used, true, true, i);
  }

  lemma ShapeCarve(order: seq<nat>, used: map<nat, bool>, tail: nat, i: nat, m: nat)
    requires Shape(order, used, tail) && i + 1 < |order| && !UsedIn(order, used, i)
    requires order[i] + HDR <= m && m + HDR <= order[i + 1] && Aligned(m, 0)
    ensures m !in order
    ensures Shape(InsertAt(order, i + 1, m), used[m := false][order[i] := true], tail)
    ensures InUse(InsertAt(order, i + 1, m), used[m := false][order[i] := true]) == InUse(order, used) + (m - order[i])
  {
    var x, o, u := order[i], InsertAt(order, i + 1, m), used[m := false];
    assert UsedIn(order, used, i) || UsedIn(order, used, i + 1);
    TiledCut(HDR, order, 0, tail, i, m);
    CoalescedCut(order, used, i, m);
    InsertMembers(order, i + 1, m);
    assert order[i] in order;
    InUseCut(order, used, i, m);
    TiledDistinct(HDR, o, 0, tail);
    BytesFlip(0, o, u, true, true, i);
  }

  /** A free header cut into block i gives the tail of a used block back. */
  lemma InUseCut(order: seq<nat>, used: map<nat, bool>, i: nat, m: nat)
    requires (forall a :: a in order ==> a in used) && i + 1 < |order| && m !in order
    ensures var o, u := InsertAt(order, i + 1, m), used[m := false];
            && (forall a :: a in o ==> a in u)
            && InUse(o, u) == if used[order[i]] then InUse(order, used) - (order[i + 1] as int - m) else InUse(order, used)
  {
    var u := used[m := false];
    InsertMembers(order, i + 1, m);
    forall j | 0 <= j < |order| - 1 ensures used[order[j]] == u[order[j]] { assert order[j] in order; }
    BytesFrame(0, order, used, u, true);
    BytesCut(0, order, u, true, i, m);
  }

  /** Dropping the header of free block i + 1. */
  lemma InUseJoin(order: seq<nat>, used: map<nat, bool>, i: nat)
    requires (forall a :: a in order ==> a in used) && i + 2 < |order| && !used[order[i + 1]]
    ensures forall a :: a in RemoveAt(order, i + 1) ==> a in used
    ensures InUse(RemoveAt(order, i + 1), used)
            == if used[order[i]] then InUse(order, used) + order[i + 2] - order[i + 1] else InUse(order, used)
  {
    BytesJoin(0, order, used, true, i);
  }

  /** Releasing block i and merging it with its free neighbours. */
  lemma ShapeRelease(order: seq<nat>, used: map<nat, bool>, tail: nat, i: nat)
    requires Shape(order, used, tail) && i + 1 < |order| && UsedIn(order, used, i)
    ensures var l := LeftFree(order, used, i); var r := RightFree(order, used, i);
            && (r ==> i + 2 < |order|)
            && Shape(ReleaseOrder(order, i, l, r), used[order[i] := false], tail)
            && InUse(ReleaseOrder(order, i, l, r), used[order[i] := false]) == InUse(order, used) - (order[i + 1] as int - order[i])
  {
    var x, l, r, u := order[i], LeftFree(order, used, i), RightFree(order, used, i), used[order[i] := false];
    TiledDistinct(HDR, order, 0, tail);
    BytesFlip(0, order, used, false, true, i);
    if r {
      TiledJoin(HDR, order, 0, tail, i);
      InUseJoin(order, u, i);
      if l {
        ReleaseBoth(order, used, tail, i);
      } else {
        CoalescedRight(order, used, i);
      }
    } else {
      CoalescedGive(order, used, i);
      if l {
        ReleaseLeft(order, used, tail, i);
      }
    }
  }

  lemma ReleaseLeft(order: seq<nat>, used: map<nat, bool>, tail: nat, i: nat)
    requires Shape(order, used, tail) && i + 1 < |order| && UsedIn(order, used, i) && Distinct(order)
    requires LeftFree(order, used, i) && !RightFree(order, used, i)
    ensures Shape(RemoveAt(order, i), used[order[i] := false], tail)
    ensures InUse(RemoveAt(order, i), used[order[i] := false]) == InUse(order, used[order[i] := false])
  {
    var u := used[order[i] := false];
    CoalescedGive(order, used, i);
    assert UsedIn(order, u, i + 1);
    CoalescedDrop(order, u, -1, i);
    TiledJoin(HDR, order, 0, tail, i - 1);
    assert order[i - 1] in order && order[i - 1] != order[i];
    InUseJoin(order, u, i - 1);
  }

  lemma ReleaseBoth(order: seq<nat>, used: map<nat, bool>, tail: nat, i: nat)
    requires Shape(order, used, tail) && i + 1 < |order| && UsedIn(order, used, i) && Distinct(order)
    requires LeftFree(order, used, i) && RightFree(order, used, i)
    ensures i + 2 < |order|
    ensures Shape(RemoveAt(RemoveAt(order, i), i), used[order[i] := false], tail)
    ensures InUse(RemoveAt(RemoveAt(order, i), i), used[order[i] := false]) == InUse(order, used[order[i] := false])
  {
    var o, u := RemoveAt(order, i + 1), used[order[i] := false];
    CoalescedBoth(order, used, i);
    RemoveBoth(order, i);
    TiledJoin(HDR, order, 0, tail, i);
    InUseJoin(order, u, i);
    TiledJoin(HDR, o, 0, tail, i - 1);
    assert o[i - 1] == order[i - 1] && order[i - 1] in order && order[i - 1] != order[i] && o[i] == order[i];
    InUseJoin(o, u, i - 1);
  }

  /** Moving the free header behind used block i to m. */
  lemma ShapeMove(order: seq<nat>, used: map<nat, bool>, tail: nat, i: nat, m: nat)
    requires Shape(order, used, tail) && i + 2 < |order| && UsedIn(order, used, i) && RightFree(order, used, i)
    requires m !in order && order[i] + HDR <= m && m + HDR <= order[i + 2] && Aligned(m, 0)
    ensures Shape(InsertAt(RemoveAt(order, i + 1), i + 1, m), used[m := false], tail)
    ensures InUse(InsertAt(RemoveAt(order, i + 1), i + 1, m), used[m := false]) == InUse(order, used) - (order[i + 1] as int - m)
  {
    var o := RemoveAt(order, i + 1);
    CoalescedMove(order, used, i, m);
    assert InsertAt(o, i + 1, m) == order[i + 1 := m];
    TiledJoin(HDR, order, 0, tail, i);
    assert order[i + 1] in order;
    InUseJoin(order, used, i);
    TiledCut(HDR, o, 0, tail, i, m);
    InUseCut(o, used, i, m);
  }

  /** Cutting the end off used block i when a used block follows. */
  lemma ShapeTrim(order: seq<nat>, used: map<nat, bool>, tail: nat, i: nat, m: nat)
    requires Shape(order, used, tail) && i + 1 < |order| && UsedIn(order, used, i) && !RightFree(order, used, i)
    requires order[i] + HDR <= m && m + HDR <= order[i + 1] && Aligned(m, 0)
    ensures m !in order
    ensures Shape(InsertAt(order, i + 1, m), used[m := false], tail)
    ensures InUse(InsertAt(order, i + 1, m), used[m := false]) == InUse(order, used) - (order[i + 1] as int - m)
  {
    TiledCut(HDR, order, 0, tail, i, m);
    assert used[m := false][order[i] := true] == used[m := false];
    CoalescedCut(order, used, i, m);
    InUseCut(order, used, i, m);
  }

  // ---- the neighbour offsets ---------------------------------------------------

  ghost predicate Forward(next: map<nat, nat>, order: seq<nat>, i: nat)
    requires i < |order| && order[i] in next
  {
    next[order[i]] == order[if i + 1 == |order| then i else i + 1]
  }

  ghost predicate Backward(prev: map<nat, nat>, order: seq<nat>, i: nat)
    requires i < |order| && order[i] in prev
  {
    prev[order[i]] == order[if i == 0 then 0 else i - 1]
  }

  /** next and prev lead from block to block; the end marker points at itself
      and its prev is never kept. */
  ghost predicate Chain(next: map<nat, nat>, prev: map<nat, nat>, order: seq<nat>) {
    && |order| >= 2
    && (forall i :: 0 <= i < |order| ==> order[i] in next && order[i] in prev)
    && (forall i :: 0 <= i < |order| ==> Forward(next, order, i))
    && (forall i :: 0 <= i < |order| - 1 ==> Backward(prev, order, i))
  }

  lemma ChainInsert(next: map<nat, nat>, prev: map<nat, nat>, order: seq<nat>, i: nat, m: nat)
    requires Chain(next, prev, order) && Distinct(order) && i + 1 < |order| && m !in order
    ensures var x := order[i]; var q := next[x]; var p := prev[m := x];
            && q == order[i + 1]
            && Chain(next[m := q][x := m], if i + 2 < |order| then p[q := m] else p, InsertAt(order, i + 1, m))
  {
    var x, o := order[i], InsertAt(order, i + 1, m);
    assert Forward(next, order, i);
    var q := next[x];
    var next', p := next[m := q][x := m], prev[m := x];
    var prev' := if i + 2 < |order| then p[q := m] else p;
    forall j | 0 <= j < |o| ensures o[j] in next' && o[j] in prev' {
      if j != i + 1 { assert o[j] == order[if j <= i then j else j - 1]; }
    }
    forall j | 0 <= j < |o| ensures Forward(next', o, j) {
      if j < i { assert Forward(next, order, j); }
      if j > i + 1 { assert Forward(next, order, j - 1); }
    }
    forall j | 0 <= j < |o| - 1 ensures Backward(prev', o, j) {
      if j <= i { assert Backward(prev, order, j); }
      if j > i + 2 { assert Backward(prev, order, j - 1); }
    }
  }

  /** The two assignments of a merge in plug_holes. */
  lemma ChainRemove(next: map<nat, nat>, prev: map<nat, nat>, order: seq<nat>, i: nat)
    requires Chain(next, prev, order) && Distinct(order) && 0 < i && i + 1 < |order|
    ensures var x := order[i - 1]; var q := next[order[i]];
            && next[x] == order[i] && prev[order[i]] == x && q == order[i + 1]
            && Chain(next[x := q], prev[q := x], RemoveAt(order, i))
  {
    var x, o := order[i - 1], RemoveAt(order, i);
    assert Forward(next, order, i - 1) && Forward(next, order, i) && Backward(prev, order, i);
    var q := next[order[i]];
    var next', prev' := next[x := q], prev[q := x];
    forall j | 0 <= j < |o| ensures o[j] in next' && o[j] in prev' {
      assert o[j] == order[if j < i then j else j + 1];
    }
    forall j | 0 <= j < |o| ensures Forward(next', o, j) {
      assert Forward(next, order, if j < i then j else j + 1);
    }
    forall j | 0 <= j < |o| - 1 ensures Backward(prev', o, j) {
      if j < i { assert Backward(prev, order, j); } else { assert Backward(prev, order, j + 1); }
    }
  }

  // ---- the lowest free block -----------------------------------------------------

  /** Block k is the first free block, or the end marker when there is none. */
  ghost predicate Lowest(order: seq<nat>, used: map<nat, bool>, k: nat) {
    && k < |order|
    && (forall j :: 0 <= j < k ==> UsedIn(order, used, j))
    && (k + 1 < |order| ==> !UsedIn(order, used, k))
  }

  lemma ReleaseHead(order: seq<nat>, i: nat, l: bool, r: bool, k: nat)
    requires i + 1 < |order| && (r ==> i + 2 < |order|) && (if l then k < i else k <= i)
    ensures var o := ReleaseOrder(order, i, l, r); k < |o| && forall j :: 0 <= j <= k ==> o[j] == order[j]
    ensures k + 1 == |ReleaseOrder(order, i, l, r)| ==> k + 2 == |order| || k + 3 >= |order|
  {
  }

  lemma LowestRelease(order: seq<nat>, used: map<nat, bool>, tail: nat, low: nat, i: nat)
    requires Shape(order, used, tail) && Lowest(order, used, low) && i + 1 < |order| && UsedIn(order, used, i)
    ensures var l := LeftFree(order, used, i); var r := RightFree(order, used, i);
            var k := if order[i] < order[low] then i else low;
            && (r ==> i + 2 < |order|)
            && var o := ReleaseOrder(order, i, l, r);
            && Lowest(o, used[order[i] := false], k)
            && o[k] == (if order[i] < order[low] then order[i] else order[low])
  {
    hide ReleaseOrder;
    TiledDistinct(HDR, order, 0, tail);
    assert i != low;
    if i < low { TiledApart(HDR, order, 0, tail, i, low); } else { TiledApart(HDR, order, 0, tail, low, i); }
    var l, r, u := LeftFree(order, used, i), RightFree(order, used, i), used[order[i] := false];
    assert i < low ==> !l;
    var k := if i < low then i else low;
    var o := ReleaseOrder(order, i, l, r);
    ReleaseHead(order, i, l, r, k);
    forall j | 0 <= j < k ensures UsedIn(o, u, j) { assert UsedIn(order, used, j); }
    if k + 1 < |o| && i > low { assert !UsedIn(order, used, low); }
  }

  /** Taking block i behind the lowest free one, cut at m or whole. */
  lemma LowestTake(order: seq<nat>, used: map<nat, bool>, low: nat, i: nat, m: nat)
    requires Lowest(order, used, low) && low < i && i + 1 < |order| && Distinct(order)
    ensures Lowest(order, used[order[i] := true], low)
    ensures m !in order ==> Lowest(InsertAt(order, i + 1, m), used[m := false][order[i] := true], low)
  {
    var used' := used[order[i] := true];
    forall j | 0 <= j < low ensures UsedIn(order, used', j) { assert UsedIn(order, used, j); }
    if m !in order {
      var o, u := InsertAt(order, i + 1, m), used[m := false][order[i] := true];
      forall j | 0 <= j < low ensures UsedIn(o, u, j) { assert UsedIn(order, used, j); }
      assert !UsedIn(order, used, low);
    }
  }

  /** A new free header m behind used block i. */
  lemma LowestTrim(order: seq<nat>, used: map<nat, bool>, tail: nat, low: nat, i: nat, m: nat)
    requires Shape(order, used, tail) && Lowest(order, used, low) && i + 1 < |order| && m !in order
    requires order[i] < m < order[i + 1] && UsedIn(order, used, i)
    ensures var o, k := InsertAt(order, i + 1, m), if m < order[low] then i + 1 else low;
            Lowest(o, used[m := false], k) && o[k] == if m < order[low] then m else order[low]
  {
    var o, u := InsertAt(order, i + 1, m), used[m := false];
    if low < i { TiledApart(HDR, order, 0, tail, low, i); }
    if i + 1 < low { TiledApart(HDR, order, 0, tail, i + 1, low); }
    assert low != i;
    var k := if m < order[low] then i + 1 else low;
    forall j | 0 <= j < k ensures UsedIn(o, u, j) {
      assert o[j] == order[j] && UsedIn(order, used, j);
    }
    if low < i { assert !UsedIn(order, used, low); }
  }

  lemma ReplaceAt(order: seq<nat>, i: nat, m: nat)
    requires i < |order|
    ensures InsertAt(RemoveAt(order, i), i, m) == order[i := m]
  {
    var a, b := InsertAt(RemoveAt(order, i), i, m), order[i := m];
    forall j | 0 <= j < |a| ensures a[j] == b[j] { }
  }

  /** The lowest free block is not behind a free one. */
  lemma LowestBefore(order: seq<nat>, used: map<nat, bool>, low: nat, i: nat)
    requires Lowest(order, used, low) && i + 2 < |order| && UsedIn(order, used, i) && RightFree(order, used, i)
    ensures low <= i + 1 && low != i
  {
    assert !UsedIn(order, used, i + 1);
  }

  /** The same when the block behind is free and is absorbed by m. */
  lemma LowestMove(order: seq<nat>, used: map<nat, bool>, tail: nat, low: nat, i: nat, m: nat)
    requires Shape(order, used, tail) && Lowest(order, used, low) && i + 2 < |order| && m !in order
    requires order[i] < m < order[i + 1] && UsedIn(order, used, i) && RightFree(order, used, i)
    ensures var o := InsertAt(RemoveAt(order, i + 1), i + 1, m);
            Lowest(o, used[m := false], low) && o[low] == if m < order[low] then m else order[low]
  {
    var o, u := InsertAt(RemoveAt(order, i + 1), i + 1, m), used[m := false];
    ReplaceAt(order, i + 1, m);
    if low < i { TiledApart(HDR, order, 0, tail, low, i); }
    LowestBefore(order, used, low, i);
    forall j | 0 <= j < low ensures UsedIn(o, u, j) {
      assert o[j] == order[j] && UsedIn(order, used, j);
    }
    if low < i { assert !UsedIn(order, used, low); }
  }

  // ---- the heap --------------------------------------------------------------------

  /** Block i is free and holds n bytes. */
  ghost predicate Holds(order: seq<nat>, used: map<nat, bool>, n: nat, i: nat) {
    i + 1 < |order| && !UsedIn(order, used, i) && order[i + 1] - order[i] - HDR >= n
  }

  /** It is not an exact fit in the last place, which the scan bound of rt_malloc
      passes over. */
  ghost predicate Fits(order: seq<nat>, used: map<nat, bool>, n: nat, i: nat) {
    Holds(order, used, n, i) && !(i + 2 == |order| && order[i + 1] - order[i] - HDR == n)
  }

  /** A block that holds n bytes is there and rt_malloc finds none exactly when the last
      block is the only one and has just n. */
  lemma PassedOver(order: seq<nat>, used: map<nat, bool>, n: nat)
    requires |order| >= 2
    ensures var k := |order| - 2;
            (exists j :: Holds(order, used, n, j)) && (forall j :: !Fits(order, used, n, j)) <==>
            && Holds(order, used, n, k) && order[k + 1] - order[k] - HDR == n
            && forall j :: 0 <= j < k ==> !Holds(order, used, n, j)
  {
    var k := |order| - 2;
    if j :| Holds(order, used, n, j) && forall i :: !Fits(order, used, n, i) {
      assert !Fits(order, used, n, j);
      forall i | 0 <= i < k ensures !Holds(order, used, n, i) { assert !Fits(order, used, n, i); }
    }
  }

  /** A new heap of n bytes refuses a request for all of them. */
  lemma WholeHeapRefused(n: nat)
    requires n >= MIN_SIZE && n % ALIGN == 0
    ensures var order, used := [0, n + HDR], map[0 := false, n + HDR := true];
            && Shape(order, used, n + HDR) && Holds(order, used, n, 0)
            && forall j :: !Fits(order, used, n, j)
  {
    InitialShape(n + HDR);
  }

  /** Outcome of rt_malloc for a rounded size n: the lowest block that fits is
      taken, cut when the rest can hold a block of minimal size. */
  ghost predicate MallocResult(n: nat, p: Ptr, i: nat, order0: seq<nat>, used0: map<nat, bool>, live0: map<nat, int>,
                               order: seq<nat>, live: map<nat, int>, inUse0: int, inUse: int)
  {
    if p.Null? then
      && (forall j :: 0 <= j < |order0| ==> !Fits(order0, used0, n, j))
      && order == order0 && live == live0 && inUse == inUse0
    else
      && Fits(order0, used0, n, i) && (forall j :: 0 <= j < i ==> !Fits(order0, used0, n, j))
      && var x := order0[i];
      && var whole := order0[i + 1] - x - HDR;
      && var cut := whole >= n + HDR + MIN_SIZE;
      && p == At(x + HDR) && x !in live0
      && live == live0[x := if cut then n else whole]
      && order == (if cut then InsertAt(order0, i + 1, x + HDR + n) else order0)
      && inUse == inUse0 + HDR + if cut then n else whole
  }

  /** A block that rt_malloc returns holds the bytes asked for, exactly unless the request
      was rounded past 2^32. */
  lemma MallocCovers(size: nat, tail: nat, p: Ptr, i: nat, order0: seq<nat>, used0: map<nat, bool>, live0: map<nat, int>,
                     order: seq<nat>, live: map<nat, int>, inUse0: int, inUse: int)
    requires 0 < size < WORD && Shape(order0, used0, tail) && tail + HDR < WORD && p.At?
    requires MallocResult(Max(Align(size), MIN_SIZE), p, i, order0, used0, live0, order, live, inUse0, inUse)
    ensures p.off - HDR >= 0 && p.off - HDR in live
    ensures live[p.off - HDR] >= size <==> size <= WORD - ALIGN
  {
    hide Align;
    AlignCovers(size);
    if i + 1 < |order0| - 1 { TiledApart(HDR, order0, 0, tail, i + 1, |order0| - 1); }
  }

  /** How rt_realloc of live block x (block i) to n rounded bytes proceeds:
      unchanged on equal size, cut in place when more than a minimal block would
      be left over, otherwise moved to a fresh block. */
  ghost predicate ReallocChoice(n: nat, off: int, p: Ptr, i: nat, order0: seq<nat>, used0: map<nat, bool>,
                                live0: map<nat, int>, live: map<nat, int>)
    requires i + 1 < |order0| && off - HDR >= 0 && off - HDR in live0
  {
    var x := off - HDR;
    if live0[x] == n then p == At(off) && live == live0
    else if n + HDR + MIN_SIZE < live0[x] then p == At(off) && live == live0[x := n]
    else
      && p != At(off)
      && (p.Null? <==> forall j :: 0 <= j < |order0| ==> !Fits(order0, used0, Max(n, MIN_SIZE), j))
  }

  /** Block i was resized: its bytes and the place chosen for them. */
  ghost predicate Resizing(n: nat, off: int, p: Ptr, i: nat, order0: seq<nat>, used0: map<nat, bool>,
                           live0: map<nat, int>, live: map<nat, int>, m0: nat -> bv8, m: nat -> bv8)
  {
    && off - HDR >= 0 && off - HDR in live0 && i + 1 < |order0| && order0[i] == off - HDR
    && Resized(HDR, off - HDR, n, if p.At? then p.off else 0, live0, live, m0, m)
    && ReallocChoice(n, off, p, i, order0, used0, live0, live)
  }

  class Heap {
    const size: nat            // mem_size_aligned
    var next: map<nat, nat>
    var prev: map<nat, nat>
    var used: map<nat, bool>
    var lfree: nat
    var usedMem: int
    var maxMem: int
    var mem: nat -> bv8        // the bytes of the heap
    ghost var order: seq<nat>  // every block, end marker last
    ghost var low: nat         // the place of lfree in it
    ghost var trail: seq<int>  // the values of used_mem

    function Tail(): nat {
      size + HDR
    }

    ghost predicate Valid()
      reads `next, `prev, `used, `lfree, `usedMem, `maxMem, `order, `low, `trail
    {
      && size >= MIN_SIZE && size % ALIGN == 0 && size + 2 * HDR < WORD
      && Shape(order, used, Tail())
      && Chain(next, prev, order)
      && Lowest(order, used, low) && lfree == order[low]
      && usedMem == InUse(order, used)
      && trail != [] && trail[|trail| - 1] == usedMem && maxMem == Highest(trail)
    }

    ghost function Live(): map<nat, int>
      requires Valid()
      reads `next, `prev, `used, `lfree, `usedMem, `maxMem, `order, `low, `trail
    {
      LiveOf(HDR, order, used, next, Tail())
    }

    /** rt_system_heap_init, from the aligned bounds. */
    constructor (beginAlign: nat, endAlign: nat)
      requires beginAlign % ALIGN == 0 && endAlign % ALIGN == 0 && endAlign < WORD
      requires beginAlign + 2 * HDR + MIN_SIZE <= endAlign
      ensures Valid() && size == endAlign - beginAlign - 2 * HDR
      ensures order == [0, Tail()] && used == map[0 := false, Tail() := true]
      ensures Live() == map[] && usedMem == 0 && lfree == 0
    {
      var n := endAlign - beginAlign - 2 * HDR;
      SizeAligned(beginAlign, endAlign);
      hide Shape, LiveOf, InUse, Highest;
      size := n;
      next := map[0 := n + HDR, n + HDR := n + HDR];
      prev := map[0 := 0, n + HDR := n + HDR];
      used := map[0 := false, n + HDR := true];
      lfree := 0;
      usedMem, maxMem := 0, 0;
      order, low, trail := [0, n + HDR], 0, [0];
      new;
      InitialShape(n + HDR);
      assert Forward(next, order, 0) && Forward(next, order, 1) && Backward(prev, order, 0);
      assert !UsedIn(order, used, 0);
      HighestNext([], 0);
      assert [] + [0] == trail;
    }

    lemma BlockAt(i: nat)
      requires Valid() && i + 1 < |order|
      ensures order[i] in next && next[order[i]] == order[i + 1] && order[i] in used && order[i] != Tail()
      ensures order[i] + HDR <= order[i + 1] <= Tail() && Aligned(order[i], 0) && Distinct(order)
      ensures order[|order| - 1] == Tail() && (!UsedIn(order, used, i) ==> order[i] !in Live())
    {
      assert Forward(next, order, i) && Spaced(HDR, order, i) && order[i] in order;
      TiledDistinct(HDR, order, 0, Tail());
      if i + 1 < |order| - 1 { TiledApart(HDR, order, 0, Tail(), i + 1, |order| - 1); }
    }

    lemma LiveAt(x: nat) returns (i: nat)
      requires Valid() && x in Live()
      ensures i + 1 < |order| && order[i] == x && UsedIn(order, used, i)
      ensures x in next && next[x] == order[i + 1] && x + HDR <= order[i + 1] && Live()[x] == order[i + 1] - x - HDR
      ensures order[i] != Tail() && Aligned(x, 0) && Distinct(order)
    {
      i :| 0 <= i < |order| && order[i] == x;
      assert order[|order| - 1] == Tail();
      BlockAt(i);
    }

    lemma ChainInNext()
      requires Chain(next, prev, order)
      ensures forall x :: x in order ==> x in next
    {
    }

    lemma InMaps()
      requires Valid()
      ensures forall x :: x in order ==> x in used && x in next && x in prev
    {
    }

    /** Data areas of allocated blocks are disjoint and inside the heap. */
    lemma LiveApart(x: nat, y: nat)
      requires Valid() && x in Live() && y in Live() && x < y
      ensures x + HDR + Live()[x] <= y && y + HDR + Live()[y] <= Tail()
    {
      hide Tiled, Coalesced, Chain, LiveOf;
      var i := LiveAt(x);
      var j := LiveAt(y);
      BlockAt(i);
      BlockAt(j);
      if j < i { TiledApart(HDR, order, 0, Tail(), j, i); }
      if i + 1 < j { TiledApart(HDR, order, 0, Tail(), i + 1, j); }
    }

    lemma LiveAligned(x: nat)
      requires Valid() && x in Live()
      ensures (x + HDR) % ALIGN == 0
    {
      var i := LiveAt(x);
    }

    /** The forward half of plug_holes. */
    method PlugForward(x: nat, ghost i: nat, ghost r: bool)
      requires Chain(next, prev, order) && Distinct(order) && i + 1 < |order| && order[i] == x
      requires order[|order| - 1] == Tail()
      requires order[i + 1] in used && used[order[i + 1]] == !r && (r ==> i + 2 < |order|)
      modifies `next, `prev, `lfree, `order
      ensures Chain(next, prev, order) && Distinct(order)
      ensures order == if r then RemoveAt(old(order), i + 1) else old(order)
      ensures lfree == if r && old(lfree) == old(order)[i + 1] then x else old(lfree)
      ensures forall y :: y in old(next) && y != x ==> y in next && next[y] == old(next)[y]
    {
      assert Forward(next, order, i);
      var nmem := next[x];
      if x != nmem && !used[nmem] && nmem != Tail() {
        ChainRemove(next, prev, order, i + 1);
        DistinctRemove(order, i + 1);
        if lfree == nmem { lfree := x; }
        prev := prev[next[nmem] := x];
        next := next[x := next[nmem]];
        order := RemoveAt(order, i + 1);
      }
    }

    /** The backward half. */
    method PlugBackward(x: nat, ghost i: nat, ghost l: bool)
      requires Chain(next, prev, order) && Distinct(order) && i + 1 < |order| && order[i] == x
      requires (l ==> i > 0) && (i > 0 ==> order[i - 1] in used && used[order[i - 1]] == !l)
      modifies `next, `prev, `lfree, `order
      ensures Chain(next, prev, order) && Distinct(order)
      ensures order == if l then RemoveAt(old(order), i) else old(order)
      ensures lfree == if l && old(lfree) == x then old(order)[i - 1] else old(lfree)
      ensures forall y :: y in old(next) && (l ==> y != old(order)[i - 1]) ==> y in next && next[y] == old(next)[y]
    {
      assert Backward(prev, order, i);
      var pmem := prev[x];
      if pmem != x && !used[pmem] {
        ChainRemove(next, prev, order, i);
        DistinctRemove(order, i);
        if lfree == x { lfree := pmem; }
        ghost var q := next[x];
        next := next[pmem := next[x]];
        prev := prev[next[x] := pmem];
        order := RemoveAt(order, i);
      }
    }

    /** plug_holes(x), for free block i with free neighbours as l and r say. */
    method PlugHoles(x: nat, ghost i: nat, ghost l: bool, ghost r: bool)
      requires Chain(next, prev, order) && Distinct(order) && i + 1 < |order| && order[i] == x
      requires order[|order| - 1] == Tail()
      requires (l ==> i > 0) && (i > 0 ==> order[i - 1] in used && used[order[i - 1]] == !l)
      requires order[i + 1] in used && used[order[i + 1]] == !r && (r ==> i + 2 < |order|)
      modifies `next, `prev, `lfree, `order
      ensures Chain(next, prev, order)
      ensures order == ReleaseOrder(old(order), i, l, r)
      ensures var f := if r && old(lfree) == old(order)[i + 1] then x else old(lfree);
              lfree == if l && f == x then old(order)[i - 1] else f
      ensures forall y :: y in old(next) && y != x && (l ==> y != old(order)[i - 1]) ==> y in next && next[y] == old(next)[y]
    {
      hide Chain, Distinct, RemoveAt, ReleaseOrder;
      InTwoSteps(order, i, l, r);
      PlugForward(x, i, r);
      PlugBackward(x, i, l);
    }

    static lemma InTwoSteps(order: seq<nat>, i: nat, l: bool, r: bool)
      requires i + 1 < |order| && (r ==> i + 2 < |order|) && (l ==> i > 0)
      ensures var o := if r then RemoveAt(order, i + 1) else order;
              && i + 1 < |o| && o[i] == order[i] && (i > 0 ==> o[i - 1] == order[i - 1])
              && ReleaseOrder(order, i, l, r) == if l then RemoveAt(o, i) else o
    {
      if r { RemoveBoth(order, i); }
    }

    static lemma SizeAligned(b: nat, e: nat)
      requires b % ALIGN == 0 && e % ALIGN == 0 && b + 2 * HDR <= e
      ensures (e - b - 2 * HDR) % ALIGN == 0 && (e - b - HDR) % ALIGN == 0
    {
    }

    // ---- rt_malloc ---------------------------------------------------------------

    /** The scan from lfree; x is block i when found. */
    method Scan(n: nat) returns (found: bool, x: nat, ghost i: nat)
      requires Valid() && MIN_SIZE <= n <= size
      ensures found ==> i + 1 < |order| && order[i] == x && Fits(order, used, n, i) && low <= i
      ensures found ==> forall j :: 0 <= j < i ==> !Fits(order, used, n, j)
      ensures !found ==> forall j :: 0 <= j < |order| ==> !Fits(order, used, n, j)
    {
      x, i, found := lfree, low, false;
      forall j | 0 <= j < low ensures !Fits(order, used, n, j) { assert UsedIn(order, used, j); }
      while x < size - n
        invariant low <= i < |order| && x == order[i]
        invariant forall j :: 0 <= j < i ==> !Fits(order, used, n, j)
        decreases |order| - i
      {
        NotTail(i, n);
        BlockAt(i);
        if !used[x] && next[x] - (x + HDR) >= n {
          found := true;
          if i + 2 == |order| { LastExact(i); }
          return;
        }
        x := next[x];
        i := i + 1;
      }
      forall j | i <= j < |order| - 1 ensures !Fits(order, used, n, j) { TooFar(i, j, n); }
    }

    lemma NotTail(i: nat, n: nat)
      requires Valid() && i < |order| && order[i] < size - n && n <= size
      ensures i + 1 < |order|
    {
    }

    lemma LastExact(i: nat)
      requires Valid() && i + 2 == |order|
      ensures order[i + 1] - order[i] - HDR == size - order[i]
    {
    }

    lemma TooFar(i: nat, j: nat, n: nat)
      requires Valid() && i <= j && j + 1 < |order| && n <= size && order[i] >= size - n
      ensures !Fits(order, used, n, j)
    {
      if i < j { TiledApart(HDR, order, 0, Tail(), i, j); }
      if j + 2 < |order| { TiledApart(HDR, order, 0, Tail(), j + 1, |order| - 1); }
    }

    /** The writes that cut block x at m and mark its front used. */
    method CutWrites(x: nat, m: nat, ghost i: nat)
      requires Chain(next, prev, order) && Distinct(order) && i + 1 < |order| && order[i] == x && m !in order
      requires order[|order| - 1] == Tail()
      modifies `next, `prev, `used, `order
      ensures Chain(next, prev, order) && order == InsertAt(old(order), i + 1, m)
      ensures x in old(next) && next == old(next)[m := old(next)[x]][x := m]
      ensures used == old(used)[m := false][x := true]
    {
      ChainInsert(next, prev, order, i, m);
      LastIsTail(i);
      used := used[m := false];
      next := next[m := next[x]];
      prev := prev[m := x];
      next := next[x := m];
      used := used[x := true];
      if next[m] != Tail() {
        prev := prev[next[m] := m];
      }
      order := InsertAt(order, i + 1, m);
    }

    lemma LastIsTail(i: nat)
      requires Distinct(order) && i + 1 < |order| && order[|order| - 1] == Tail()
      ensures order[i + 1] == Tail() <==> i + 2 == |order|
    {
    }

    /** Move lfree on to the next free block. */
    method AdvanceLfree()
      requires Chain(next, prev, order) && low < |order| && lfree == order[low] && order[|order| - 1] == Tail()
      requires Distinct(order) && (forall y :: y in order ==> y in used)
      requires forall j :: 0 <= j < low ==> UsedIn(order, used, j)
      modifies `lfree, `low
      ensures Lowest(order, used, low) && lfree == order[low]
    {
      while used[lfree] && lfree != Tail()
        invariant low < |order| && lfree == order[low]
        invariant forall j :: 0 <= j < low ==> UsedIn(order, used, j)
        decreases |order| - low
      {
        assert Forward(next, order, low);
        lfree := next[lfree];
        low := low + 1;
      }
      assert order[low] in order;
    }

    /** Everything an allocation establishes about the new blocks o, flags u and
        offsets v, before lfree moves. */
    ghost predicate Claimed(o: seq<nat>, u: map<nat, bool>, v: map<nat, nat>, x: nat, i: nat, taken: int)
      requires Valid()
      reads `next, `prev, `used, `lfree, `usedMem, `maxMem, `order, `low, `trail
    {
      && Shape(o, u, Tail()) && InUse(o, u) == usedMem + HDR + taken
      && Distinct(o) && o[|o| - 1] == Tail() && low < |o| && o[low] == lfree
      && (low < i ==> Lowest(o, u, low)) && (forall j :: 0 <= j < low ==> UsedIn(o, u, j))
      && (forall y :: y in o ==> y in u && y in v)
      && LiveOf(HDR, o, u, v, Tail()) == Live()[x := taken]
    }

    lemma CutReady(i: nat, m: nat)
      requires Valid() && i + 1 < |order| && !UsedIn(order, used, i) && low <= i
      requires order[i] + HDR <= m && m + HDR <= order[i + 1] && Aligned(m, 0)
      ensures m !in order && order[i] in next
      ensures var x := order[i];
              Claimed(InsertAt(order, i + 1, m), used[m := false][x := true], next[m := next[x]][x := m], x, i, m - x - HDR)
    {
      hide Aligned, Chain, Spaced;
      BlockAt(i);
      InMaps();
      var x := order[i];
      ShapeCarve(order, used, Tail(), i, m);
      LiveCut(HDR, order, used, next, Tail(), i, m);
      var o, u := InsertAt(order, i + 1, m), used[m := false][x := true];
      TiledDistinct(HDR, o, 0, Tail());
      hide Shape, InUse, LiveOf, Distinct;
      if low < i { LowestTake(order, used, low, i, m); }
      forall j | 0 <= j < low ensures UsedIn(o, u, j) { assert UsedIn(order, used, j); }
    }

    lemma WholeReady(i: nat)
      requires Valid() && i + 1 < |order| && !UsedIn(order, used, i) && low <= i
      ensures var x := order[i];
              Claimed(order, used[x := true], next, x, i, order[i + 1] - x - HDR)
    {
      hide Aligned, Chain, Spaced;
      BlockAt(i);
      InMaps();
      var x, u := order[i], used[order[i] := true];
      assert x in order;
      ShapeTake(order, used, Tail(), i);
      LiveTake(HDR, order, used, next, Tail(), x);
      hide Shape, InUse, LiveOf, Distinct;
      if low < i { LowestTake(order, used, low, i, x); }
      forall j | 0 <= j < low ensures UsedIn(order, u, j) { assert UsedIn(order, used, j); }
    }

    /** Account for n more bytes in use and move lfree off block x. */
    method Settle(x: nat, n: int)
      requires Chain(next, prev, order) && low < |order| && lfree == order[low] && order[|order| - 1] == Tail()
      requires Distinct(order) && (forall y :: y in order ==> y in used)
      requires forall j :: 0 <= j < low ==> UsedIn(order, used, j)
      requires x != lfree ==> Lowest(order, used, low)
      modifies `lfree, `usedMem, `maxMem, `low, `trail
      ensures Lowest(order, used, low) && lfree == order[low]
      ensures usedMem == old(usedMem) + n && maxMem == Max(old(maxMem), usedMem) && trail == old(trail) + [usedMem]
    {
      usedMem := usedMem + n;
      if maxMem < usedMem { maxMem := usedMem; }
      trail := trail + [usedMem];
      if x == lfree {
        AdvanceLfree();
      }
    }

    /** Take the front n bytes of block x. */
    method TakeFront(x: nat, n: nat, ghost i: nat)
      requires Valid() && i + 1 < |order| && !UsedIn(order, used, i) && low <= i && order[i] == x && n % ALIGN == 0
      requires order[i + 1] - x - HDR >= n + HDR
      modifies `next, `prev, `used, `lfree, `usedMem, `maxMem, `order, `low, `trail
      ensures Valid() && x !in old(Live()) && Live() == old(Live())[x := n]
      ensures order == InsertAt(old(order), i + 1, x + HDR + n)
      ensures usedMem == old(usedMem) + HDR + n && trail == old(trail) + [usedMem]
    {
      hide Shape, InUse, LiveOf, Distinct, Chain, Lowest;
      BlockAt(i);
      AlignedStep(HDR, x, n, 0);
      var m := x + HDR + n;
      CutReady(i, m);
      HighestNext(trail, usedMem + HDR + n);
      CutWrites(x, m, i);
      Settle(x, n + HDR);
    }

    /** Take the whole of block x. */
    method TakeWhole(x: nat, ghost i: nat)
      requires Valid() && i + 1 < |order| && !UsedIn(order, used, i) && low <= i && order[i] == x
      modifies `used, `lfree, `usedMem, `maxMem, `low, `trail
      ensures Valid() && x !in old(Live()) && Live() == old(Live())[x := order[i + 1] - x - HDR]
      ensures usedMem == old(usedMem) + (order[i + 1] - x) as int && trail == old(trail) + [usedMem]
    {
      hide Shape, InUse, LiveOf, Distinct, Chain, Lowest;
      BlockAt(i);
      WholeReady(i);
      HighestNext(trail, usedMem + (order[i + 1] - x) as int);
      used := used[x := true];
      Settle(x, next[x] - x);
    }

    method Take(x: nat, n: nat, ghost i: nat)
      requires Valid() && Fits(order, used, n, i) && low <= i && order[i] == x && n % ALIGN == 0
      modifies `next, `prev, `used, `lfree, `usedMem, `maxMem, `order, `low, `trail
      ensures Valid()
      ensures var whole := old(order)[i + 1] - x - HDR; var cut := whole >= n + HDR + MIN_SIZE;
              && x !in old(Live()) && Live() == old(Live())[x := if cut then n else whole]
              && order == (if cut then InsertAt(old(order), i + 1, x + HDR + n) else old(order))
              && usedMem == old(usedMem) + HDR + if cut then n else whole
      ensures trail == old(trail) + [usedMem]
    {
      BlockAt(i);
      if next[x] - (x + HDR) >= n + HDR + MIN_SIZE {
        TakeFront(x, n, i);
        return;
      }
      TakeWhole(x, i);
    }

    /** Take with its header writes, which reach no allocated byte. */
    method Place(x: nat, n: nat, ghost i: nat)
      requires Valid() && Fits(order, used, n, i) && low <= i && order[i] == x && n % ALIGN == 0
      modifies this
      ensures Valid()
      ensures var whole := old(order)[i + 1] - x - HDR; var cut := whole >= n + HDR + MIN_SIZE;
              && x !in old(Live()) && Live() == old(Live())[x := if cut then n else whole]
              && order == (if cut then InsertAt(old(order), i + 1, x + HDR + n) else old(order))
              && usedMem == old(usedMem) + HDR + if cut then n else whole
      ensures trail == old(trail) + [usedMem]
      ensures KeptBytes(HDR, old(Live()), Live(), old(mem), mem)
    {
      hide Shape, Chain, LiveOf, InUse, Lowest, KeptBytes;
      Take(x, n, i);
      Scribble(old(Live()), mem);
    }

    /** The locked section of rt_malloc. */
    method Allocate(n: nat) returns (p: Ptr, ghost i: nat)
      requires Valid() && n % ALIGN == 0 && MIN_SIZE <= n <= size
      modifies this
      ensures Valid()
      ensures MallocResult(n, p, i, old(order), old(used), old(Live()), order, Live(), old(usedMem), usedMem)
      ensures trail == old(trail) + if p.Null? then [] else [usedMem]
      ensures KeptBytes(HDR, old(Live()), Live(), old(mem), mem)
    {
      hide Valid, Live, InsertAt, KeptBytes;
      p := Null;
      var found, x;
      found, x, i := Scan(n);
      if !found { KeptSelf(); return; }
      Place(x, n, i);
      p := At(x + HDR);
    }

    /** rt_malloc */
    method Malloc(size: nat) returns (p: Ptr, ghost i: nat)
      requires Valid() && size < WORD
      modifies this
      ensures Valid()
      ensures var n := Max(Align(size), MIN_SIZE);
              if size == 0 || Align(size) > this.size then
                p.Null? && order == old(order) && Live() == old(Live()) && usedMem == old(usedMem) && trail == old(trail)
              else
                && MallocResult(n, p, i, old(order), old(used), old(Live()), order, Live(), old(usedMem), usedMem)
                && trail == old(trail) + if p.Null? then [] else [usedMem]
      ensures KeptBytes(HDR, old(Live()), Live(), old(mem), mem)
    {
      hide Shape, Chain, Lowest, LiveOf, InUse, KeptBytes, MallocResult;
      p, i := Null, 0;
      if size == 0 { KeptSelf(); return; }
      var n := Align(size);
      if n > this.size { KeptSelf(); return; }
      if n < MIN_SIZE { n := MIN_SIZE; }
      p, i := Allocate(n);
    }

    lemma KeptSelf()
      requires Valid()
      ensures KeptBytes(HDR, Live(), Live(), mem, mem)
    {
    }

    ghost predicate InHeader(a: nat)
      reads `order
    {
      exists i :: 0 <= i < |order| && order[i] <= a < order[i] + HDR
    }

    lemma LiveClear(x: nat, a: nat)
      requires Valid() && x in Live() && x + HDR <= a < x + HDR + Live()[x]
      ensures !InHeader(a)
    {
      var i := LiveAt(x);
      forall j | 0 <= j < |order| ensures !(order[j] <= a < order[j] + HDR) {
        if j < i { TiledApart(HDR, order, 0, Tail(), j, i); }
        if j > i + 1 { TiledApart(HDR, order, 0, Tail(), i + 1, j); }
      }
    }

    /** Block headers live in the heap itself, so an operation may leave any
        bytes in the header areas. */
    method Clobber()
      modifies `mem
      ensures forall a :: !InHeader(a) ==> mem(a) == old(mem)(a)
    {
    }

    /** The header writes of an operation, seen from the allocated bytes. */
    method Scribble(ghost live: map<nat, int>, ghost m: nat -> bv8)
      requires Valid() && mem == m
      modifies `mem
      ensures KeptBytes(HDR, live, Live(), m, mem)
    {
      Clobber();
      forall x, a | x in live && x in Live() && x + HDR <= a < x + HDR + live[x] && a < x + HDR + Live()[x]
        ensures m(a) == mem(a) {
        LiveClear(x, a);
      }
    }

    // ---- rt_free ------------------------------------------------------------------

    /** What releasing block i leaves. */
    lemma GiveReady(x: nat) returns (i: nat, l: bool, r: bool)
      requires Valid() && x in Live()
      ensures i + 1 < |order| && order[i] == x && x in next && next[x] == order[i + 1]
      ensures l == LeftFree(order, used, i) && r == RightFree(order, used, i) && (r ==> i + 2 < |order|)
      ensures Distinct(order) && order[|order| - 1] == Tail()
      ensures (l ==> i > 0) && (i > 0 ==> order[i - 1] in used && used[order[i - 1]] == !l && order[i - 1] != x)
      ensures order[i + 1] in used && used[order[i + 1]] == !r && order[i + 1] != x
      ensures Shape(ReleaseOrder(order, i, l, r), used[x := false], Tail())
      ensures InUse(ReleaseOrder(order, i, l, r), used[x := false]) == usedMem - (order[i + 1] as int - x)
      ensures var k := if x < lfree then i else low; var o := ReleaseOrder(order, i, l, r);
              Lowest(o, used[x := false], k) && o[k] == if x < lfree then x else lfree
      ensures l ==> order[i - 1] in order && (if x < lfree then x else lfree) != x
      ensures r ==> (if x < lfree then x else lfree) != order[i + 1]
    {
      i := LiveAt(x);
      l, r := LeftFree(order, used, i), RightFree(order, used, i);
      ShapeRelease(order, used, Tail(), i);
      LowestRelease(order, used, Tail(), low, i);
      assert order[|order| - 1] == Tail();
      assert forall y :: y in order ==> y in used;
      assert order[i + 1] in order;
      if i > 0 { assert order[i - 1] in order; }
      LowestNeighbours(i);
    }

    /** A freed block's free neighbours never are what lfree then points at. */
    lemma LowestNeighbours(i: nat)
      requires Valid() && i + 1 < |order| && UsedIn(order, used, i)
      ensures var f := if order[i] < lfree then order[i] else lfree;
              && (LeftFree(order, used, i) ==> f != order[i]) && (RightFree(order, used, i) ==> f != order[i + 1])
    {
      TiledDistinct(HDR, order, 0, Tail());
      if LeftFree(order, used, i) {
        assert low <= i - 1;
        TiledApart(HDR, order, 0, Tail(), low, i);
      }
      if RightFree(order, used, i) && !(order[i] < lfree) {
        if i < low { TiledApart(HDR, order, 0, Tail(), i, low); }
      }
    }

    /** The locked section of rt_free. */
    method GiveBack(x: nat) returns (ghost i: nat)
      requires Valid() && x in Live()
      modifies `next, `prev, `used, `lfree, `usedMem, `order, `low, `trail
      ensures Valid()
      ensures i + 1 < |old(order)| && old(order)[i] == x
      ensures Live() == old(Live()) - {x}
      ensures RightFree(old(order), old(used), i) ==> i + 2 < |old(order)|
      ensures order == ReleaseOrder(old(order), i, LeftFree(old(order), old(used), i), RightFree(old(order), old(used), i))
      ensures usedMem == old(usedMem) - (HDR + old(Live())[x]) && trail == old(trail) + [usedMem]
    {
      hide Shape, InUse, Lowest, LiveOf, Distinct, LeftFree, RightFree, ReleaseOrder, Chain, Highest, Aligned, RemoveAt;
      ghost var l, r;
      i, l, r := GiveReady(x);
      ghost var order0, used0, next0 := order, used, next;
      ghost var j := LiveAt(x);
      InMaps();
      used := used[x := false];
      if x < lfree { lfree := x; }
      usedMem := usedMem - (next[x] - x);
      PlugHoles(x, i, l, r);
      low := if x < old(lfree) then i else low;
      trail := trail + [usedMem];
      ChainInNext();
      LiveRelease(HDR, order0, used0, next0, next, Tail(), i);
      HighestNext(old(trail), usedMem);
      HighestLast(old(trail));
    }

    /** rt_free */
    method Free(ptr: Ptr)
      requires Valid() && (ptr.At? ==> ptr.off >= HDR && ptr.off - HDR in Live())
      modifies this
      ensures Valid()
      ensures ptr.Null? ==> unchanged(this)
      ensures ptr.At? ==> Live() == old(Live()) - {ptr.off - HDR}
      ensures ptr.At? ==> usedMem == old(usedMem) - (HDR + old(Live())[ptr.off - HDR]) && trail == old(trail) + [usedMem]
      ensures KeptBytes(HDR, old(Live()), Live(), old(mem), mem)
    {
      if ptr.Null? {
        KeptSelf();
        return;
      }
      FreeBlock(ptr.off - HDR);
    }

    method FreeBlock(x: nat)
      requires Valid() && x in Live()
      modifies this
      ensures Valid() && Live() == old(Live()) - {x}
      ensures usedMem == old(usedMem) - (HDR + old(Live())[x]) && trail == old(trail) + [usedMem]
      ensures KeptBytes(HDR, old(Live()), Live(), old(mem), mem)
    {
      hide Shape, Chain, LiveOf, InUse, Lowest, KeptBytes, ReleaseOrder;
      ghost var i := GiveBack(x);
      Scribble(old(Live()), mem);
    }

    // ---- rt_realloc ----------------------------------------------------------------

    /** Blocks o after a free header m was put into used block i. */
    ghost predicate Shrunk(o: seq<nat>, m: nat, i: nat, k: nat)
      requires Valid() && i + 1 < |order|
      reads `next, `prev, `used, `lfree, `usedMem, `maxMem, `order, `low, `trail
    {
      && Shape(o, used[m := false], Tail())
      && (forall y :: y in o ==> y in used[m := false])
      && InUse(o, used[m := false]) == usedMem - (order[i + 1] as int - m)
      && Lowest(o, used[m := false], k) && o[k] == (if m < lfree then m else lfree)
      && (forall y :: y in order && used[y] ==> y in o && y != m) && (forall y :: y in o ==> y == m || y in order)
    }

    lemma TrimReady(i: nat, m: nat)
      requires Valid() && i + 1 < |order| && UsedIn(order, used, i) && !RightFree(order, used, i)
      requires order[i] + HDR <= m && m + HDR <= order[i + 1] && Aligned(m, 0)
      ensures m !in order && Shrunk(InsertAt(order, i + 1, m), m, i, if m < lfree then i + 1 else low)
    {
      NotBlock(m, i);
      ShapeTrim(order, used, Tail(), i, m);
      LowestTrim(order, used, Tail(), low, i, m);
      hide Tiled, Coalesced, InUse, Lowest, Chain;
      InsertMembers(order, i + 1, m);
    }

    lemma LowestNear(i: nat)
      requires Valid() && i + 2 < |order| && UsedIn(order, used, i) && RightFree(order, used, i)
      ensures low <= i + 1 && low != i && (low < i ==> lfree < order[i])
      ensures lfree == order[i + 1] <==> low == i + 1
    {
      LowestBefore(order, used, low, i);
      if low < i + 1 { TiledApart(HDR, order, 0, Tail(), low, i + 1); }
      if low < i { TiledApart(HDR, order, 0, Tail(), low, i); }
    }

    lemma MoveReady(i: nat, m: nat)
      requires Valid() && i + 2 < |order| && UsedIn(order, used, i) && RightFree(order, used, i)
      requires order[i] + HDR <= m && m + HDR <= order[i + 1] && Aligned(m, 0)
      ensures m !in order && Shrunk(InsertAt(RemoveAt(order, i + 1), i + 1, m), m, i, low)
      ensures (if m < lfree then m else lfree) != order[i + 1]
    {
      NotBlock(m, i);
      BlockAt(i);
      BlockAt(i + 1);
      assert order[i + 1] in order;
      ShapeMove(order, used, Tail(), i, m);
      LowestMove(order, used, Tail(), low, i, m);
      LowestNear(i);
      RemoveMembers(order, i + 1);
      InsertMembers(RemoveAt(order, i + 1), i + 1, m);
    }

    /** The writes that put a free header m into used block x, with a free block
        behind it (r) absorbed. */
    method ShrinkWrites(x: nat, m: nat, ghost i: nat, ghost r: bool)
      requires Chain(next, prev, order) && Distinct(order) && i + 1 < |order| && order[i] == x && m !in order
      requires order[|order| - 1] == Tail() && x in used && used[x]
      requires order[i + 1] in used && used[order[i + 1]] == !r && (r ==> i + 2 < |order|)
      requires r ==> (if m < lfree then m else lfree) != order[i + 1]
      modifies `next, `prev, `used, `lfree, `order
      ensures Chain(next, prev, order)
      ensures order == if r then InsertAt(RemoveAt(old(order), i + 1), i + 1, m) else InsertAt(old(order), i + 1, m)
      ensures used == old(used)[m := false] && lfree == if m < old(lfree) then m else old(lfree)
      ensures x in next && next[x] == m && forall y :: y in old(next) && y != x && y != m ==> y in next && next[y] == old(next)[y]
    {
      hide Chain, Distinct, InsertAt;
      InsertRemoveSwap(order, i + 1, m);
      InsertPlaces(order, i, m);
      LinkAfter(x, m, i);
      used := used[m := false];
      if m < lfree { lfree := m; }
      PlugHoles(m, i + 1, false, r);
    }

    /** A header at m behind block x. */
    method LinkAfter(x: nat, m: nat, ghost i: nat)
      requires Chain(next, prev, order) && Distinct(order) && i + 1 < |order| && order[i] == x && m !in order
      requires order[|order| - 1] == Tail()
      modifies `next, `prev, `order
      ensures Chain(next, prev, order) && Distinct(order) && order == InsertAt(old(order), i + 1, m)
      ensures x in next && next[x] == m && forall y :: y in old(next) && y != x && y != m ==> y in next && next[y] == old(next)[y]
    {
      ChainInsert(next, prev, order, i, m);
      LastIsTail(i);
      DistinctInsert(order, i + 1, m);
      next := next[m := next[x]];
      prev := prev[m := x];
      next := next[x := m];
      if next[m] != Tail() {
        prev := prev[next[m] := m];
      }
      order := InsertAt(order, i + 1, m);
    }

    static lemma InsertPlaces(o: seq<nat>, i: nat, m: nat)
      requires i + 1 < |o|
      ensures var p := InsertAt(o, i + 1, m);
              |p| == |o| + 1 && p[i] == o[i] && p[i + 1] == m && p[i + 2] == o[i + 1] && p[|p| - 1] == o[|o| - 1]
              && (i + 2 < |o| ==> i + 3 < |p|)
    {
    }

    /** Cut live block x down to n bytes, with a free block behind it. */
    method ShrinkBefore(x: nat, n: nat, ghost i: nat)
      requires Valid() && x in Live() && n % ALIGN == 0 && n + HDR + MIN_SIZE < Live()[x]
      requires i + 1 < |order| && order[i] == x && UsedIn(order, used, i) && Live()[x] == order[i + 1] - x - HDR
      requires i + 2 < |order| && RightFree(order, used, i)
      modifies `next, `prev, `used, `lfree, `usedMem, `order, `low, `trail
      ensures Valid() && Live() == old(Live())[x := n]
      ensures usedMem == old(usedMem) - (old(Live())[x] - n) && trail == old(trail) + [usedMem]
    {
      hide Shape, Chain, LiveOf, InUse, Lowest, Distinct, InsertAt, RemoveAt, Highest, Aligned;
      BlockAt(i);
      AlignedStep(HDR, x, n, 0);
      InMaps();
      var m := x + HDR + n;
      ghost var order0, used0, next0 := order, used, next;
      MoveReady(i, m);
      assert order[i + 1] in order && used[order[i + 1]] == false && m !in order;
      ghost var size0, k := next[x] - x - HDR, low;
      HighestNext(trail, usedMem - (size0 - n));
      HighestLast(trail);
      usedMem := usedMem - (next[x] - x - HDR - n);
      ShrinkWrites(x, m, i, true);
      low := k;
      trail := trail + [usedMem];
      ChainInNext();
      LiveResize(HDR, order0, order, used0, next0, next, Tail(), x, m);
    }

    /** The same with a used block behind it. */
    method ShrinkInside(x: nat, n: nat, ghost i: nat)
      requires Valid() && x in Live() && n % ALIGN == 0 && n + HDR + MIN_SIZE < Live()[x]
      requires i + 1 < |order| && order[i] == x && UsedIn(order, used, i) && Live()[x] == order[i + 1] - x - HDR
      requires !RightFree(order, used, i)
      modifies `next, `prev, `used, `lfree, `usedMem, `order, `low, `trail
      ensures Valid() && Live() == old(Live())[x := n]
      ensures usedMem == old(usedMem) - (old(Live())[x] - n) && trail == old(trail) + [usedMem]
    {
      hide Shape, Chain, LiveOf, InUse, Lowest, Distinct, InsertAt, RemoveAt, Highest, Aligned;
      BlockAt(i);
      AlignedStep(HDR, x, n, 0);
      InMaps();
      var m := x + HDR + n;
      ghost var order0, used0, next0 := order, used, next;
      TrimReady(i, m);
      assert order[i + 1] in order && used[order[i + 1]] == true && m !in order;
      ghost var size0, k := next[x] - x - HDR, if m < lfree then i + 1 else low;
      HighestNext(trail, usedMem - (size0 - n));
      HighestLast(trail);
      usedMem := usedMem - (next[x] - x - HDR - n);
      ShrinkWrites(x, m, i, false);
      low := k;
      trail := trail + [usedMem];
      ChainInNext();
      LiveResize(HDR, order0, order, used0, next0, next, Tail(), x, m);
    }

    /** Cut live block x down to n bytes in place. */
    method Shrink(x: nat, n: nat)
      requires Valid() && x in Live() && n % ALIGN == 0 && n + HDR + MIN_SIZE < Live()[x]
      modifies `next, `prev, `used, `lfree, `usedMem, `order, `low, `trail
      ensures Valid() && Live() == old(Live())[x := n]
      ensures usedMem == old(usedMem) - (old(Live())[x] - n) && trail == old(trail) + [usedMem]
    {
      hide Shape, Chain, LiveOf, InUse, Lowest, Distinct;
      ghost var i := LiveAt(x);
      BlockAt(i);
      InMaps();
      assert order[i + 1] in order;
      LastIsTail(i);
      if RightFree(order, used, i) { RightInside(i); }
      if !used[next[x]] && next[x] != Tail() {
        ShrinkBefore(x, n, i);
      } else {
        ShrinkInside(x, n, i);
      }
    }

    lemma RightInside(i: nat)
      requires Valid() && i + 1 < |order| && RightFree(order, used, i)
      ensures i + 2 < |order|
    {
    }

    lemma NotBlock(m: nat, i: nat)
      requires Valid() && i + 1 < |order| && order[i] < m < order[i + 1]
      ensures m !in order
    {
      forall j | 0 <= j < |order| ensures order[j] != m {
        if j < i { TiledApart(HDR, order, 0, Tail(), j, i); }
        if j > i + 1 { TiledApart(HDR, order, 0, Tail(), i + 1, j); }
      }
    }

    /** rt_memcpy */
    method Copy(dst: nat, src: nat, n: nat)
      modifies `mem
      ensures Copied(old(mem), mem, dst, src, n)
    {
      var m := mem;
      mem := (a: nat) => if dst <= a < dst + n then m(a - dst + src) else m(a);
    }

    /** A new block lies clear of the old ones. */
    lemma FreshApart(live0: map<nat, int>, y: nat)
      requires Valid() && y in Live() && y !in live0 && Live() == live0[y := Live()[y]]
      ensures ClearOf(HDR, live0, y, Live()[y])
    {
      hide Valid, Live;
      forall z | z in live0 ensures z + HDR + live0[z] <= y || y + HDR + Live()[y] <= z {
        assert z in Live() && Live()[z] == live0[z];
        if z < y { LiveApart(z, y); } else { LiveApart(y, z); }
      }
    }

    static lemma Granted(n: nat, p: Ptr, i: nat, order0: seq<nat>, used0: map<nat, bool>, live0: map<nat, int>,
                         order: seq<nat>, live: map<nat, int>, inUse0: int, inUse: int)
      requires MallocResult(n, p, i, order0, used0, live0, order, live, inUse0, inUse)
      ensures p.Null? <==> forall j :: 0 <= j < |order0| ==> !Fits(order0, used0, n, j)
      ensures p.Null? ==> live == live0 && inUse == inUse0
      ensures p.At? ==> p.off >= HDR
      ensures p.At? ==> var y := p.off - HDR; y !in live0 && y in live && live == live0[y := live[y]] && live[y] >= n
    {
    }

    /** rt_malloc of an already rounded size, as a change of the live map. */
    method Fresh(n: nat) returns (p: Ptr)
      requires Valid() && n % ALIGN == 0 && 0 < n <= size
      modifies this
      ensures Valid()
      ensures p.Null? <==> forall j :: 0 <= j < |old(order)| ==> !Fits(old(order), old(used), Max(n, MIN_SIZE), j)
      ensures p.Null? ==> Live() == old(Live()) && usedMem == old(usedMem) && trail == old(trail)
      ensures p.At? ==> p.off >= HDR && trail == old(trail) + [usedMem]
      ensures p.At? ==> var y := p.off - HDR;
              && y !in old(Live()) && y in Live() && Live() == old(Live())[y := Live()[y]] && Live()[y] >= n
              && ClearOf(HDR, old(Live()), y, Live()[y])
      ensures KeptBytes(HDR, old(Live()), Live(), old(mem), mem)
    {
      hide Shape, Chain, Lowest, LiveOf, InUse, KeptBytes, MallocResult, Fits, ClearOf;
      ghost var i;
      AlignExact(n);
      p, i := Malloc(n);
      Granted(Max(n, MIN_SIZE), p, i, old(order), old(used), old(Live()), order, Live(), old(usedMem), usedMem);
      if p.At? { FreshApart(old(Live()), p.off - HDR); }
    }

    static lemma AlignExact(n: nat)
      requires n % ALIGN == 0 && n <= WORD - ALIGN
      ensures Align(n) == n
    {
    }

    /** Allocate, copy, free the old block. */
    method Relocate(x: nat, n: nat, oldsize: nat) returns (p: Ptr)
      requires Valid() && x in Live() && oldsize == Live()[x] && n % ALIGN == 0 && 0 < n <= size
      modifies this
      ensures Valid()
      ensures p.Null? <==> forall j :: 0 <= j < |old(order)| ==> !Fits(old(order), old(used), Max(n, MIN_SIZE), j)
      ensures p.Null? ==> usedMem == old(usedMem) && trail == old(trail)
      ensures p.At? ==> p.off >= HDR && p.off != x + HDR && |trail| == |old(trail)| + 2 && old(trail) <= trail
      ensures Resized(HDR, x, n, if p.Null? then 0 else p.off, old(Live()), Live(), old(mem), mem)
      ensures KeptBytes(HDR, old(Live()), Live(), old(mem), mem)
    {
      hide Valid, Live, KeptBytes, Resized, ClearOf, Copied, Fits;
      p := Fresh(n);
      if p.Null? {
        ResizeFailed(x, n);
        return;
      }
      ghost var live1, mem1, y := Live(), mem, p.off - HDR;
      var c := if oldsize < n then oldsize else n;
      Copy(p.off, x + HDR, c);
      ghost var mem2 := mem;
      FreeBlock(x);
      RelocateBytes(HDR, x, y, live1[y], n, c, old(Live()), old(mem), mem1, mem2, mem);
    }

    lemma ResizeFailed(x: nat, n: nat)
      requires Valid() && x in Live()
      ensures forall m0, m :: Resized(HDR, x, n, 0, Live(), Live(), m0, m)
    {
    }

    /** rt_realloc. A pointer outside the heap is returned as it is. */
    method Realloc(rmem: Ptr, newsize: nat) returns (p: Ptr, ghost i: nat)
      requires Valid() && newsize < WORD
      requires rmem.At? && 0 <= rmem.off < Tail() ==> rmem.off >= HDR && rmem.off - HDR in Live()
      modifies this
      ensures Valid() && old(trail) <= trail
      ensures var n := Align(newsize);
              if n > size then p.Null? && Live() == old(Live()) && trail == old(trail)
              else if n == 0 then
                p.Null? && Live() == if rmem.At? && 0 <= rmem.off < Tail() then old(Live()) - {rmem.off - HDR} else old(Live())
              else if rmem.Null? then
                MallocResult(Max(n, MIN_SIZE), p, i, old(order), old(used), old(Live()), order, Live(), old(usedMem), usedMem)
              else if !(0 <= rmem.off < Tail()) then p == rmem && Live() == old(Live()) && trail == old(trail)
              else Resizing(n, rmem.off, p, i, old(order), old(used), old(Live()), Live(), old(mem), mem)
      ensures KeptBytes(HDR, old(Live()), Live(), old(mem), mem)
    {
      p, i := Null, 0;
      var n := Align(newsize);
      if n > size { KeptSelf(); return; }
      if n == 0 {
        if rmem.At? && 0 <= rmem.off < Tail() { FreeBlock(rmem.off - HDR); } else { KeptSelf(); }
        return;
      }
      if rmem.Null? {
        AlignExact(n);
        p, i := Malloc(n);
        return;
      }
      if rmem.off < 0 || rmem.off >= Tail() {
        p := rmem;
        KeptSelf();
        return;
      }
      p, i := Resize(rmem.off - HDR, n);
    }

    method Resize(x: nat, n: nat) returns (p: Ptr, ghost i: nat)
      requires Valid() && x in Live() && n % ALIGN == 0 && 0 < n <= size
      modifies this
      ensures Valid() && old(trail) <= trail
      ensures Resized(HDR, x, n, if p.At? then p.off else 0, old(Live()), Live(), old(mem), mem)
      ensures i + 1 < |old(order)| && old(order)[i] == x
      ensures ReallocChoice(n, x + HDR, p, i, old(order), old(used), old(Live()), Live())
      ensures KeptBytes(HDR, old(Live()), Live(), old(mem), mem)
    {
      hide Shape, Chain, Lowest, LiveOf, InUse;
      i := LiveAt(x);
      var oldsize := next[x] - x - HDR;
      if oldsize == n {
        p := At(x + HDR);
        KeptSelf();
        return;
      }
      if n + HDR + MIN_SIZE < oldsize {
        Shrink(x, n);
        Scribble(old(Live()), mem);
        p := At(x + HDR);
        return;
      }
      p := Relocate(x, n, oldsize);
    }
  }
}
