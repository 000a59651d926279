/** slab.c: size classes and zone layout. */
module SlabSizes {
  const PAGE: nat := 4096          // RT_MM_PAGE_SIZE
  const NZONES: nat := 72
  const HEADER: nat := 36          // sizeof(slab_zone)
  const MIN_ZONE: nat := 32768     // ZALLOC_MIN_ZONE_SIZE
  const MAX_ZONE: nat := 131072    // ZALLOC_MAX_ZONE_SIZE
  const ZONE_LIMIT: nat := 16384   // ZALLOC_ZONE_LIMIT

  function RoundUp(n: nat, k: nat): nat
    requires k > 0
  {
    (n + k - 1) / k * k
  }

  lemma MulOrder(a: nat, b: nat, k: nat)
    requires a < b
    ensures a * k + k <= b * k
  {
    var d := b - a;
    assert b == a + d && (a + d) * k == a * k + d * k;
    assert (d - 1) * k >= 0;
  }

  lemma DivMul(q: nat, k: nat)
    requires k > 0
    ensures q * k / k == q
  {
    var d := q * k / k;
    assert d * k <= q * k < d * k + k;
    if d < q { MulOrder(d, q, k); }
    if q < d { MulOrder(q, d, k); }
  }

  lemma RoundsUp(n: nat, k: nat)
    requires k > 0
    ensures n <= RoundUp(n, k) < n + k && RoundUp(n, k) / k * k == RoundUp(n, k)
  {
    DivMul((n + k - 1) / k, k);
  }

  // ---- the size classes ---------------------------------------------------------------

  /** The chunk sizes in order: sixteen steps of 8 bytes, then eight of each doubled step. */
  function ChunkSize(i: nat): nat {
    if i < 16 then (i + 1) * 8
    else if i < 24 then (i - 7) * 16
    else if i < 32 then (i - 15) * 32
    else if i < 40 then (i - 23) * 64
    else if i < 48 then (i - 31) * 128
    else if i < 56 then (i - 39) * 256
    else if i < 64 then (i - 47) * 512
    else (i - 55) * 1024
  }

  /** i is the class of requests of n bytes. */
  predicate Class(n: nat, i: nat) {
    i < NZONES && n <= ChunkSize(i) && (i > 0 ==> ChunkSize(i - 1) < n)
  }

  lemma {:induction false} ChunkSizesGrow(i: nat, j: nat)
    requires i < j
    ensures ChunkSize(i) < ChunkSize(j)
    decreases j
  {
    if i + 1 < j { ChunkSizesGrow(i, j - 1); }
  }

  /** Every small request has exactly one class; classes follow sizes, never round
      down, waste less than 8 bytes or an eighth, and two requests share one exactly
      when they are rounded to the same size. */
  lemma Classes(m: nat, n: nat, i: nat, j: nat)
    requires Class(m, i) && Class(n, j)
    ensures m <= n ==> i <= j
    ensures i == j <==> ChunkSize(i) == ChunkSize(j)
    ensures m >= 64 ==> (ChunkSize(i) - m) * 8 < m
    ensures m < 64 ==> ChunkSize(i) - m < 8 || m == 0
    ensures Class(ChunkSize(i), i)
  {
    if i < j { ChunkSizesGrow(i, j); }
    if j < i { ChunkSizesGrow(j, i); }
    if m <= n && j < i && j < i - 1 { ChunkSizesGrow(j, i - 1); }
    if i > 0 { ChunkSizesGrow(i - 1, i); }
  }

  /** The class of a small request. */
  function ClassOf(n: nat): (i: nat)
    requires 0 < n < ZONE_LIMIT
    ensures Class(n, i)
  {
    if n <= 128 then (n - 1) / 8 else if n <= 256 then (n - 1) / 16 + 8
    else if n <= 512 then (n - 1) / 32 + 16 else if n <= 1024 then (n - 1) / 64 + 24
    else if n <= 2048 then (n - 1) / 128 + 32 else if n <= 4096 then (n - 1) / 256 + 40
    else if n <= 8192 then (n - 1) / 512 + 48 else (n - 1) / 1024 + 56
  }

  /** The size zoneindex writes back. */
  function Rounded(n: nat): (r: nat)
    ensures n <= r < n + 1024 && (n >= ZONE_LIMIT ==> r == n)
  {
    if 0 < n < ZONE_LIMIT then ChunkSize(ClassOf(n)) else n
  }

  /** It is the only one. */
  lemma ClassUnique(n: nat, i: nat)
    requires 0 < n < ZONE_LIMIT && Class(n, i)
    ensures i == ClassOf(n) && Rounded(n) == ChunkSize(i)
  {
    Classes(n, n, i, ClassOf(n));
  }

  /** zoneindex: the least class whose chunks hold n bytes, and its chunk size, which
      the source writes back through the pointer. */
  method ZoneIndex(n: nat) returns (zi: nat, bytes: nat)
    requires n > 0
    ensures n < ZONE_LIMIT ==> zi < NZONES && n <= bytes == ChunkSize(zi) && (zi > 0 ==> ChunkSize(zi - 1) < n)
    ensures n < ZONE_LIMIT ==> zi == ClassOf(n)
    ensures bytes == Rounded(n) && (n >= ZONE_LIMIT ==> zi == 0)
  {
    hide ChunkSize, ClassOf;
    zi, bytes := Index(n);
    if n < ZONE_LIMIT { ClassUnique(n, zi); }
  }

  /** Its branches. */
  method Index(n: nat) returns (zi: nat, bytes: nat)
    requires n > 0
    ensures n < ZONE_LIMIT ==> Class(n, zi) && bytes == ChunkSize(zi)
    ensures n >= ZONE_LIMIT ==> zi == 0 && bytes == n
  {
    hide RoundUp;
    bytes := n;
    if n < 128 {
      bytes := RoundUp(n, 8);
      RoundsUp(n, 8);
      return bytes / 8 - 1, bytes;
    }
    if n < 256 {
      bytes := RoundUp(n, 16);
      RoundsUp(n, 16);
      return bytes / 16 + 7, bytes;
    }
    if n < 8192 {
      if n < 512 {
        bytes := RoundUp(n, 32);
        RoundsUp(n, 32);
        return bytes / 32 + 15, bytes;
      }
      if n < 1024 {
        bytes := RoundUp(n, 64);
        RoundsUp(n, 64);
        return bytes / 64 + 23, bytes;
      }
      if n < 2048 {
        bytes := RoundUp(n, 128);
        RoundsUp(n, 128);
        return bytes / 128 + 31, bytes;
      }
      if n < 4096 {
        bytes := RoundUp(n, 256);
        RoundsUp(n, 256);
        return bytes / 256 + 39, bytes;
      }
      bytes := RoundUp(n, 512);
      RoundsUp(n, 512);
      return bytes / 512 + 47, bytes;
    }
    if n < ZONE_LIMIT {
      bytes := RoundUp(n, 1024);
      RoundsUp(n, 1024);
      return bytes / 1024 + 55, bytes;
    }
    zi := 0;
  }

  // ---- the layout of a zone -------------------------------------------------------------

  /** The powers of two among the chunk sizes. */
  predicate Pow2(size: nat) {
    size in {8, 16, 32, 64, 128, 256, 512, 1024, 2048, 4096, 8192, 16384}
  }

  /** The expression the source tests with. */
  predicate Pow2Test(s: bv16) {
    (s | (s - 1)) + 1 == s << 1
  }

  /** On the chunk sizes, as 16-bit words, it finds the same twelve. */
  lemma Pow2TestCorrect(s: bv16)
    requires 8 <= s <= 16384
    ensures Pow2Test(s) <==> s in {8, 16, 32, 64, 128, 256, 512, 1024, 2048, 4096, 8192, 16384}
  {
  }

  /** Where the chunks of a zone start, behind its header. */
  function Offset(size: nat): nat
    requires size > 0
  {
    if Pow2(size) then RoundUp(HEADER, size) else RoundUp(HEADER, 8)
  }

  /** z_nmax */
  function Capacity(zoneSize: nat, size: nat): nat
    requires size > 0
  {
    if Offset(size) > zoneSize then 0 else (zoneSize - Offset(size)) / size
  }

  predicate ZoneSize(z: nat) {
    z == 32768 || z == 65536 || z == 131072
  }

  lemma OffsetIs(size: nat)
    requires size > 0
    ensures Offset(size) == if Pow2(size) && size >= 64 then size
                            else if size == 16 then 48 else if size == 32 then 64 else 40
  {
  }

  /** At least two chunks fit behind the header of a zone, and not one more than z_nmax. */
  lemma ZoneHolds(zoneSize: nat, size: nat)
    requires ZoneSize(zoneSize) && 8 <= size && size * 4 <= zoneSize
    ensures HEADER <= Offset(size) <= zoneSize && Capacity(zoneSize, size) >= 2
    ensures Offset(size) + Capacity(zoneSize, size) * size <= zoneSize
    ensures zoneSize < Offset(size) + (Capacity(zoneSize, size) + 1) * size
  {
    hide Offset;
    OffsetIs(size);
    var room := zoneSize - Offset(size);
    assert room >= 2 * size;
    var n := room / size;
    assert n * size <= room < n * size + size;
    if n < 2 { MulOrder(n, 2, size); }
  }

  lemma MulMod(c: nat, k: nat)
    requires k > 0
    ensures c * k % k == 0
  {
    DivMul(c, k);
  }

  lemma ModShift(x: nat, m: nat, k: nat)
    requires k > 0
    ensures (x + m * k) % k == 0 <==> x % k == 0
  {
    var q, d := x / k, (x + m * k) / k;
    if x % k == 0 {
      assert x + m * k == (q + m) * k;
      MulMod(q + m, k);
    }
    if (x + m * k) % k == 0 {
      assert x + m * k == d * k;
      if d < m { MulOrder(d, m, k); }
      assert x == (d - m) * k;
      MulMod(d - m, k);
    }
  }

  lemma Pow2Parts(size: nat) returns (c: nat, p: nat)
    requires Pow2(size)
    ensures Offset(size) == c * size && (size <= PAGE ==> PAGE == p * size)
  {
    OffsetIs(size);
    c := if size == 8 then 5 else if size == 16 then 3 else if size == 32 then 2 else 1;
    p := PAGE / size;
  }

  /** A chunk of a power-of-two size is aligned to it exactly when its zone is; zones
      are whole pages, so beyond a page's size that is not given. */
  lemma ChunkAligned(page: nat, size: nat, i: nat)
    requires Pow2(size)
    ensures (page * PAGE + Offset(size) + i * size) % size == 0 <==> page * PAGE % size == 0
    ensures size <= PAGE ==> page * PAGE % size == 0
  {
    hide Offset, Pow2;
    var c, p := Pow2Parts(size);
    assert Offset(size) + i * size == (c + i) * size;
    ModShift(page * PAGE, c + i, size);
    if size <= PAGE {
      assert page * PAGE == (page * p) * size;
      MulMod(page * p, size);
    }
  }

  /** A power-of-two request of at least 8 bytes is not rounded. */
  lemma Pow2Kept(n: nat, i: nat)
    requires Pow2(n) && Class(n, i)
    ensures ChunkSize(i) == n
  {
    if n < ZONE_LIMIT {
      var j := ClassOf(n);
      Classes(n, n, i, j);
      assert ChunkSize(j) == n;
    } else if i < 71 {
      ChunkSizesGrow(i, 71);
    }
  }

  lemma ChunkUnaligned()
    ensures Pow2(8192) && (1 * PAGE + Offset(8192) + 0 * 8192) % 8192 != 0
  {
  }

  // ---- the chunks of a zone ---------------------------------------------------------------

  /** The first k chunk addresses from base. */
  ghost function Carved(base: nat, size: nat, k: nat): set<nat> {
    if k == 0 then {} else Carved(base, size, k - 1) + {base + (k - 1) * size}
  }

  lemma {:induction false} CarvedWithin(base: nat, size: nat, k: nat)
    ensures forall a :: a in Carved(base, size, k) ==> base <= a && a + size <= base + k * size
  {
    if k > 0 {
      CarvedWithin(base, size, k - 1);
      assert k * size == (k - 1) * size + size;
    }
  }

  lemma {:induction false} CarvedApart(base: nat, size: nat, k: nat)
    ensures forall a, b :: a in Carved(base, size, k) && b in Carved(base, size, k) && a < b ==> a + size <= b
  {
    if k > 0 {
      CarvedApart(base, size, k - 1);
      CarvedWithin(base, size, k - 1);
    }
  }

  lemma {:induction false} CarvedCount(base: nat, size: nat, k: nat)
    requires size > 0
    ensures |Carved(base, size, k)| == k && base + k * size !in Carved(base, size, k)
  {
    if k > 0 { CarvedCount(base, size, k - 1); }
    CarvedWithin(base, size, k);
  }
}
