/** slab.c, the upper half: zones of equal chunks for small requests, whole pages for
    large ones, and a page map that leads an address back to its zone. */
module Slab {
  import opened Chains
  import opened Pages
  import opened Rings
  import opened SlabSizes

  type Addr = nat

  const MAGIC := 0x51ab51ab
  const SPARES: nat := 2           // ZONE_RELEASE_THRESH
  const WORD: nat := 0x1_0000_0000

  /** slab_zone, the header at the start of a zone; the z_next links are kept apart. */
  datatype Zone = Zone(magic: int, nfree: int, nmax: int, base: Addr, uindex: int, chunk: nat, index: nat,
                       free: Option<Addr>)

  /** What a zone holds: the chunks on its free list and those handed out. */
  datatype Body = Body(chain: seq<Addr>, live: set<Addr>)

  datatype PageType = FreePage | Small | Large

  /** memusage: the type of a page, and its offset in the zone or the run's length. */
  datatype Usage = Usage(kind: PageType, size: nat)

  /** Who has a page: the page list, a caller or a section under way, a zone, a large
      block. */
  datatype Owner = OnList | Held | InZone(z: Page) | InLarge(l: Page)

  // ---- one zone ---------------------------------------------------------------------

  ghost predicate Laid(z: Page, h: Zone, zoneSize: nat) {
    && h.magic == MAGIC && h.index < NZONES && h.chunk == ChunkSize(h.index) && h.chunk * 4 <= zoneSize
    && h.base == z * PAGE + Offset(h.chunk) && h.nmax == Capacity(zoneSize, h.chunk)
  }

  /** Every chunk carved so far is free or handed out, and the count is right. */
  ghost predicate ZoneOk(z: Page, h: Zone, zoneSize: nat, link: map<Addr, Option<Addr>>, b: Body) {
    && Laid(z, h, zoneSize)
    && 0 <= h.uindex < h.nmax
    && h.nfree == h.nmax - 1 - h.uindex + |b.chain|
    && Chain(link, h.free, b.chain) && Distinct(b.chain)
    && (forall a :: a in Carved(h.base, h.chunk, h.uindex + 1) <==> a in b.chain || a in b.live)
    && (forall a :: a in b.chain ==> a !in b.live)
  }

  lemma ChunkSizePositive(i: nat)
    ensures ChunkSize(i) >= 8
  {
  }

  lemma ChunksSplit(s: set<Addr>, b: Body)
    requires Distinct(b.chain) && forall a :: a in b.chain ==> a !in b.live
    requires forall a :: a in s <==> a in b.chain || a in b.live
    ensures |s| == |b.chain| + |b.live| && (b.live == {} <==> |b.live| == 0)
  {
    DistinctCount(b.chain);
    Disjoint3(Members(b.chain), b.live, {});
    assert s == Members(b.chain) + b.live + {};
  }

  /** z_nfree is also the capacity less the chunks handed out. */
  lemma ZoneCounts(z: Page, h: Zone, zoneSize: nat, link: map<Addr, Option<Addr>>, b: Body)
    requires ZoneOk(z, h, zoneSize, link, b)
    ensures h.nfree == h.nmax - |b.live| && 0 <= h.nfree <= h.nmax
    ensures h.nfree == h.nmax <==> b.live == {}
  {
    hide Chain, Carved;
    ChunkSizePositive(h.index);
    var k: nat := h.uindex + 1;
    CarvedCount(h.base, h.chunk, k);
    ChunksSplit(Carved(h.base, h.chunk, k), b);
  }

  /** Chunks lie behind the header and inside the zone's pages. */
  lemma InsideZone(z: Page, h: Zone, zoneSize: nat, k: nat, a: Addr)
    requires Laid(z, h, zoneSize) && ZoneSize(zoneSize) && k <= h.nmax && a in Carved(h.base, h.chunk, k)
    ensures z * PAGE + HEADER <= a && a + h.chunk <= z * PAGE + zoneSize
    ensures z <= a / PAGE < z + zoneSize / PAGE
  {
    hide Offset, Capacity;
    ChunkSizePositive(h.index);
    ZoneHolds(zoneSize, h.chunk);
    CarvedWithin(h.base, h.chunk, k);
    if k < h.nmax { MulOrder(k, h.nmax, h.chunk); }
  }

  lemma ZoneKnown(z: Page, h: Zone, zoneSize: nat, link: map<Addr, Option<Addr>>, b: Body)
    requires ZoneOk(z, h, zoneSize, link, b)
    ensures h.chunk == ChunkSize(h.index) && h.index < NZONES && 0 <= h.uindex < h.nmax && h.magic == MAGIC
  {
  }

  lemma ChunkPage(z: Page, h: Zone, zoneSize: nat, link: map<Addr, Option<Addr>>, b: Body, a: Addr)
    requires ZoneOk(z, h, zoneSize, link, b) && ZoneSize(zoneSize) && a in b.live
    ensures z <= a / PAGE < z + zoneSize / PAGE
  {
    InsideZone(z, h, zoneSize, h.uindex + 1, a);
  }

  lemma CarvedMore(base: nat, size: nat, k: nat)
    ensures Carved(base, size, k + 1) == Carved(base, size, k) + {base + k * size}
  {
  }

  lemma TakeNew(z: Page, h: Zone, zoneSize: nat, link: map<Addr, Option<Addr>>, b: Body)
    requires ZoneOk(z, h, zoneSize, link, b) && h.uindex + 1 != h.nmax
    ensures var a := h.base + (h.uindex + 1) * h.chunk;
            && a !in b.live && a in Carved(h.base, h.chunk, h.uindex + 2)
            && ZoneOk(z, h.(nfree := h.nfree - 1, uindex := h.uindex + 1), zoneSize, link,
                      b.(live := b.live + {a}))
  {
    hide Laid, Chain, Distinct, Carved;
    LaidChunk(z, h, zoneSize);
    var k: nat := h.uindex + 1;
    CarvedCount(h.base, h.chunk, k);
    CarvedMore(h.base, h.chunk, k);
  }

  lemma LaidChunk(z: Page, h: Zone, zoneSize: nat)
    requires Laid(z, h, zoneSize)
    ensures h.chunk > 0
    ensures forall h': Zone :: h' == h.(nfree := h'.nfree, uindex := h'.uindex, free := h'.free) ==> Laid(z, h', zoneSize)
  {
  }

  lemma TakeOld(z: Page, h: Zone, zoneSize: nat, link: map<Addr, Option<Addr>>, b: Body)
    requires ZoneOk(z, h, zoneSize, link, b) && h.uindex + 1 == h.nmax && h.nfree > 0
    ensures h.free.Some? && h.free.value in link && b.chain != []
    ensures var a := h.free.value;
            && a !in b.live && a in Carved(h.base, h.chunk, h.uindex + 1)
            && ZoneOk(z, h.(nfree := h.nfree - 1, free := link[a]), zoneSize, link,
                      Body(b.chain[1..], b.live + {a}))
  {
    hide Laid, Chain, Distinct, Carved;
    LaidChunk(z, h, zoneSize);
    ChainPop(link, h.free, b.chain);
    DistinctHead(b.chain);
  }

  lemma GiveBack(z: Page, h: Zone, zoneSize: nat, link: map<Addr, Option<Addr>>, b: Body, a: Addr)
    requires ZoneOk(z, h, zoneSize, link, b) && a in b.live
    ensures ZoneOk(z, h.(nfree := h.nfree + 1, free := Some(a)), zoneSize, link[a := h.free],
                   Body([a] + b.chain, b.live - {a}))
  {
    hide Laid, Chain, Distinct, Carved;
    LaidChunk(z, h, zoneSize);
    ChainPush(link, h.free, b.chain, a);
    DistinctPush(b.chain, a);
  }

  lemma ZoneFrame(z: Page, h: Zone, zoneSize: nat, link: map<Addr, Option<Addr>>, link': map<Addr, Option<Addr>>, b: Body)
    requires ZoneOk(z, h, zoneSize, link, b)
    requires forall a :: a in b.chain && a in link ==> a in link' && link'[a] == link[a]
    ensures ZoneOk(z, h, zoneSize, link', b)
  {
    hide Laid, Distinct, Carved;
    forall a | a in b.chain ensures a in link {
      var i :| 0 <= i < |b.chain| && b.chain[i] == a;
      assert Follows(link, b.chain, i);
    }
    ChainFrame(link, link', h.free, b.chain);
  }

  /** The header a zone starts with: its first chunk is handed out at once. */
  function FirstHeader(z: Page, zoneSize: nat, zi: nat): Zone {
    var size := ChunkSize(zi);
    Zone(MAGIC, Capacity(zoneSize, size) - 1, Capacity(zoneSize, size), z * PAGE + Offset(size), 0, size, zi, None)
  }

  lemma Started(z: Page, zoneSize: nat, link: map<Addr, Option<Addr>>, zi: nat)
    requires ZoneSize(zoneSize) && zi < NZONES && ChunkSize(zi) * 4 <= zoneSize
    ensures var h := FirstHeader(z, zoneSize, zi);
            && ZoneOk(z, h, zoneSize, link, Body([], {h.base}))
            && h.nfree > 0 && h.base in Carved(h.base, h.chunk, 1)
  {
    hide Offset, Capacity;
    ZoneHolds(zoneSize, ChunkSize(zi));
    var h := FirstHeader(z, zoneSize, zi);
    assert Carved(h.base, h.chunk, 1) == Carved(h.base, h.chunk, 0) + {h.base + 0 * h.chunk};
  }

  // ---- the zone lists ------------------------------------------------------------------

  /** The class of every zone that has a free chunk. */
  ghost function Slots(zones: map<Page, Zone>, bodies: map<Page, Body>): map<Page, nat> {
    map z | z in bodies && z in zones && zones[z].nfree > 0 :: zones[z].index
  }

  ghost predicate RowIs(next: map<Page, Option<Page>>, head: Option<Page>, row: seq<Page>, slots: map<Page, nat>, i: nat) {
    && Chain(next, head, row) && Distinct(row)
    && (forall z :: z in row <==> z in slots && slots[z] == i)
  }

  /** zone_array lists, class by class, exactly the zones with a free chunk. */
  ghost predicate RowsAre(next: map<Page, Option<Page>>, heads: seq<Option<Page>>, rows: seq<seq<Page>>, slots: map<Page, nat>) {
    && |heads| == |rows| == NZONES
    && forall i :: 0 <= i < NZONES ==> RowIs(next, heads[i], rows[i], slots, i)
  }

  ghost predicate SparesAre(next: map<Page, Option<Page>>, head: Option<Page>, spares: seq<Page>, s: set<Page>) {
    && Chain(next, head, spares) && Distinct(spares)
    && (forall z :: z in spares <==> z in s)
  }

  /** Links of zones outside a list may change. */
  lemma RowFrame(next: map<Page, Option<Page>>, next': map<Page, Option<Page>>, head: Option<Page>, row: seq<Page>)
    requires Chain(next, head, row) && forall z :: z in row && z in next ==> z in next' && next'[z] == next[z]
    ensures Chain(next', head, row)
  {
    forall z | z in row ensures z in next {
      var i :| 0 <= i < |row| && row[i] == z;
      assert Follows(next, row, i);
    }
    ChainFrame(next, next', head, row);
  }

  /** Zone z, with its link rewritten, leaves or enters row i. */
  lemma RowsChange(next: map<Page, Option<Page>>, heads: seq<Option<Page>>, rows: seq<seq<Page>>, slots: map<Page, nat>,
                   next': map<Page, Option<Page>>, head': Option<Page>, row': seq<Page>, slots': map<Page, nat>,
                   i: nat, loose: set<Page>)
    requires RowsAre(next, heads, rows, slots) && i < NZONES
    requires forall z :: z in next && z !in loose ==> z in next' && next'[z] == next[z]
    requires forall z :: z in loose ==> z !in slots || slots[z] == i
    requires forall z :: (z in slots && slots[z] != i) || (z in slots' && slots'[z] != i) ==>
               z in slots && z in slots' && slots'[z] == slots[z]
    requires RowIs(next', head', row', slots', i)
    ensures RowsAre(next', heads[i := head'], rows[i := row'], slots')
  {
    forall j | 0 <= j < NZONES && j != i ensures RowIs(next', heads[j], rows[j], slots', j) {
      assert RowIs(next, heads[j], rows[j], slots, j);
      RowFrame(next, next', heads[j], rows[j]);
    }
  }

  lemma SparesFrame(next: map<Page, Option<Page>>, next': map<Page, Option<Page>>, head: Option<Page>,
                    spares: seq<Page>, s: set<Page>)
    requires SparesAre(next, head, spares, s)
    requires forall z :: z in s && z in next ==> z in next' && next'[z] == next[z]
    ensures SparesAre(next', head, spares, s)
  {
    RowFrame(next, next', head, spares);
  }

  /** Taking row[k] out: its predecessor's link, or the head, skips it. */
  lemma RowDrop(next: map<Page, Option<Page>>, head: Option<Page>, row: seq<Page>, k: nat)
    requires Chain(next, head, row) && Distinct(row) && k < |row|
    ensures row[k] in next
    ensures var after := next[row[k]]; var row' := row[..k] + row[k + 1..];
            && Chain(if k == 0 then next else next[row[k - 1] := after], if k == 0 then after else head, row')
            && Distinct(row')
            && forall z :: z in row' <==> z in row && z != row[k]
  {
    assert Follows(next, row, k);
    var after, row' := next[row[k]], row[..k] + row[k + 1..];
    var next' := if k == 0 then next else next[row[k - 1] := after];
    forall i | 0 <= i < |row'| ensures Follows(next', row', i) {
      assert Follows(next, row, if i < k then i else i + 1);
    }
    forall z ensures z in row' <==> z in row && z != row[k] {
      if z in row && z != row[k] {
        var i :| 0 <= i < |row| && row[i] == z;
        assert row'[if i < k then i else i - 1] == z;
      }
    }
  }

  lemma SlotsSet(zones: map<Page, Zone>, bodies: map<Page, Body>, z: Page, h: Zone, b: Body)
    ensures Slots(zones[z := h], bodies[z := b]) ==
            if h.nfree > 0 then Slots(zones, bodies)[z := h.index] else Slots(zones, bodies) - {z}
  {
  }

  lemma SlotsRetire(zones: map<Page, Zone>, bodies: map<Page, Body>, z: Page, h: Zone)
    ensures Slots(zones[z := h], bodies - {z}) == Slots(zones, bodies) - {z}
  {
  }

  lemma RowAt(next: map<Page, Option<Page>>, heads: seq<Option<Page>>, rows: seq<seq<Page>>, slots: map<Page, nat>, i: nat)
    requires RowsAre(next, heads, rows, slots) && i < NZONES
    ensures |heads| == |rows| == NZONES && RowIs(next, heads[i], rows[i], slots, i)
    ensures heads[i] == First(rows[i])
    ensures rows[i] != [] ==> rows[i][0] in slots && slots[rows[i][0]] == i && rows[i][0] in next
  {
    assert RowIs(next, heads[i], rows[i], slots, i);
    if rows[i] != [] {
      assert rows[i][0] in rows[i];
      ChainPop(next, heads[i], rows[i]);
    }
  }

  lemma RowsPop(next: map<Page, Option<Page>>, heads: seq<Option<Page>>, rows: seq<seq<Page>>, slots: map<Page, nat>, i: nat)
    requires RowsAre(next, heads, rows, slots) && i < NZONES && rows[i] != []
    ensures var z := rows[i][0];
            z in next && RowsAre(next[z := None], heads[i := next[z]], rows[i := rows[i][1..]], slots - {z})
  {
    hide RowsAre, Distinct;
    RowAt(next, heads, rows, slots, i);
    var z, tail := rows[i][0], rows[i][1..];
    var next', slots' := next[z := None], slots - {z};
    ChainPop(next, heads[i], rows[i]);
    DistinctHead(rows[i]);
    RowFrame(next, next', next[z], tail);
    RowsChange(next, heads, rows, slots, next', next[z], tail, slots', i, {z});
  }

  lemma RowsPush(next: map<Page, Option<Page>>, heads: seq<Option<Page>>, rows: seq<seq<Page>>, slots: map<Page, nat>,
                 i: nat, z: Page)
    requires RowsAre(next, heads, rows, slots) && i < NZONES && z !in slots
    ensures RowsAre(next[z := heads[i]], heads[i := Some(z)], rows[i := [z] + rows[i]], slots[z := i])
  {
    hide RowsAre, Distinct, Chain;
    RowAt(next, heads, rows, slots, i);
    ChainPush(next, heads[i], rows[i], z);
    DistinctPush(rows[i], z);
    RowsChange(next, heads, rows, slots, next[z := heads[i]], Some(z), [z] + rows[i], slots[z := i], i, {z});
  }

  lemma RowsDrop(next: map<Page, Option<Page>>, heads: seq<Option<Page>>, rows: seq<seq<Page>>, slots: map<Page, nat>,
                 i: nat, k: nat)
    requires RowsAre(next, heads, rows, slots) && i < NZONES && k < |rows[i]|
    ensures var row := rows[i]; var z := row[k];
            && z in next && (k > 0 ==> row[k - 1] in next)
            && RowsAre(if k == 0 then next else next[row[k - 1] := next[z]],
                       heads[i := if k == 0 then next[z] else heads[i]], rows[i := row[..k] + row[k + 1..]], slots - {z})
  {
    hide RowsAre, Distinct, Chain;
    RowAt(next, heads, rows, slots, i);
    var row := rows[i];
    RowDrop(next, heads[i], row, k);
    assert row[k] in row;
    if k > 0 {
      assert row[k - 1] in row;
      RowDrop(next, heads[i], row, k - 1);
    }
    RowsChange(next, heads, rows, slots, if k == 0 then next else next[row[k - 1] := next[row[k]]],
               if k == 0 then next[row[k]] else heads[i], row[..k] + row[k + 1..], slots - {row[k]}, i,
               if k == 0 then {} else {row[k - 1]});
  }

  /** The link of a zone on no row may change. */
  lemma RowsLink(next: map<Page, Option<Page>>, heads: seq<Option<Page>>, rows: seq<seq<Page>>, slots: map<Page, nat>,
                 z: Page, v: Option<Page>)
    requires RowsAre(next, heads, rows, slots) && z !in slots
    ensures RowsAre(next[z := v], heads, rows, slots)
  {
    forall i | 0 <= i < NZONES ensures RowIs(next[z := v], heads[i], rows[i], slots, i) {
      assert RowIs(next, heads[i], rows[i], slots, i);
      RowFrame(next, next[z := v], heads[i], rows[i]);
    }
  }

  lemma SparesPush(next: map<Page, Option<Page>>, head: Option<Page>, spares: seq<Page>, s: set<Page>, z: Page, s': set<Page>)
    requires SparesAre(next, head, spares, s) && z !in s && s' == s + {z}
    ensures SparesAre(next[z := head], Some(z), [z] + spares, s')
  {
    hide Distinct, Chain;
    ChainPush(next, head, spares, z);
    DistinctPush(spares, z);
  }

  lemma SparesPop(next: map<Page, Option<Page>>, head: Option<Page>, spares: seq<Page>, s: set<Page>)
    requires SparesAre(next, head, spares, s) && head.Some?
    ensures spares != [] && head == Some(spares[0]) && head.value in next && head.value in s
    ensures SparesAre(next, next[head.value], spares[1..], s - {head.value})
  {
    hide Distinct;
    ChainPop(next, head, spares);
    DistinctHead(spares);
  }

  // ---- who has which page -----------------------------------------------------------------

  ghost function Mark(owner: map<Page, Owner>, p: Page, n: nat, o: Owner): map<Page, Owner> {
    map q | q in owner :: if p <= q < p + n then o else owner[q]
  }

  /** All pages of a fresh heap are on the list. */
  ghost function AllListed(p: Page, n: nat): (m: map<Page, Owner>)
    ensures forall q: Page :: q in m <==> p <= q < p + n
    ensures forall q :: q in m ==> m[q] == OnList
  {
    if n == 0 then map[] else AllListed(p, n - 1)[p + n - 1 := OnList]
  }

  lemma ListedAtFirst(p: Page, n: nat)
    requires n > 0
    ensures FreeAre(AllListed(p, n), [Run(p, n)])
  {
    forall q: Page ensures Covers([Run(p, n)], q) <==> p <= q < p + n {
      CoversCons(Run(p, n), [], q);
      assert [Run(p, n)] == [Run(p, n)] + [];
    }
  }

  lemma MarkKeys(owner: map<Page, Owner>, p: Page, n: nat, o: Owner)
    ensures Mark(owner, p, n, o).Keys == owner.Keys
  {
  }

  ghost predicate AllAre(owner: map<Page, Owner>, p: Page, n: nat, o: Owner) {
    forall q: Page :: p <= q < p + n ==> q in owner && owner[q] == o
  }

  lemma MarkAll(owner: map<Page, Owner>, p: Page, n: nat, o: Owner, o': Owner)
    requires AllAre(owner, p, n, o)
    ensures AllAre(Mark(owner, p, n, o'), p, n, o')
  {
  }

  lemma RunsApart(owner: map<Page, Owner>, l: Page, n: nat, o: Owner, m: Page, k: nat, p: Owner)
    requires AllAre(owner, l, n, o) && AllAre(owner, m, k, p) && n > 0 && k > 0 && o != p
    ensures l + n <= m || m + k <= l
  {
    assert l in owner && owner[l] == o && m in owner && owner[m] == p;
  }

  ghost predicate ZonePages(owner: map<Page, Owner>, usage: map<Page, Usage>, z: Page, zp: nat) {
    AllAre(owner, z, zp, InZone(z)) && forall q: Page :: z <= q < z + zp ==> q in usage && usage[q] == Usage(Small, q - z)
  }

  ghost predicate LargePages(owner: map<Page, Owner>, usage: map<Page, Usage>, l: Page, n: nat) {
    AllAre(owner, l, n, InLarge(l)) && n > 0 && l in usage && usage[l] == Usage(Large, n)
  }

  /** Zones and large blocks own exactly their pages, and the page map says so. */
  ghost predicate Owned(owner: map<Page, Owner>, usage: map<Page, Usage>, zones: set<Page>, large: map<Page, nat>, zp: nat) {
    && (forall z :: z in zones ==> ZonePages(owner, usage, z, zp))
    && (forall l :: l in large ==> LargePages(owner, usage, l, large[l]))
    && (forall q :: q in owner && owner[q].InZone? ==> owner[q].z in zones && owner[q].z <= q < owner[q].z + zp)
    && (forall q :: q in owner && owner[q].InLarge? ==>
          owner[q].l in large && owner[q].l <= q < owner[q].l + large[owner[q].l])
  }

  ghost predicate FreeAre(owner: map<Page, Owner>, runs: seq<Run>) {
    forall q: Page :: Covers(runs, q) <==> q in owner && owner[q].OnList?
  }

  /** Only the n pages from p change hands, and only their entries in the page map. */
  ghost predicate Others(owner: map<Page, Owner>, usage: map<Page, Usage>, owner': map<Page, Owner>, usage': map<Page, Usage>,
                         p: Page, n: nat) {
    && owner'.Keys == owner.Keys
    && (forall q :: q in owner && !(p <= q < p + n) ==> owner'[q] == owner[q])
    && (forall q :: q in usage && !(p <= q < p + n) ==> q in usage' && usage'[q] == usage[q])
  }

  lemma ZoneStays(owner: map<Page, Owner>, usage: map<Page, Usage>, owner': map<Page, Owner>, usage': map<Page, Usage>,
                  p: Page, n: nat, z: Page, zp: nat)
    requires Others(owner, usage, owner', usage', p, n) && ZonePages(owner, usage, z, zp)
    requires forall q: Page :: p <= q < p + n ==> q in owner && owner[q] != InZone(z)
    ensures ZonePages(owner', usage', z, zp)
  {
    forall q: Page | z <= q < z + zp
      ensures q in owner' && owner'[q] == InZone(z) && q in usage' && usage'[q] == usage[q]
    {
      assert q in owner && owner[q] == InZone(z) && !(p <= q < p + n);
    }
  }

  lemma LargeStays(owner: map<Page, Owner>, usage: map<Page, Usage>, owner': map<Page, Owner>, usage': map<Page, Usage>,
                   p: Page, n: nat, l: Page, k: nat)
    requires Others(owner, usage, owner', usage', p, n) && LargePages(owner, usage, l, k)
    requires forall q: Page :: p <= q < p + n ==> q in owner && owner[q] != InLarge(l)
    ensures LargePages(owner', usage', l, k)
  {
    assert l in owner && owner[l] == InLarge(l);
    forall q: Page | l <= q < l + k ensures q in owner' && owner'[q] == InLarge(l) {
      assert q in owner && owner[q] == InLarge(l) && !(p <= q < p + n);
    }
  }

  /** Pages move between the page list and those who ask it. */
  lemma OwnedMoves(owner: map<Page, Owner>, usage: map<Page, Usage>, zones: set<Page>, large: map<Page, nat>, zp: nat,
                   p: Page, n: nat, o: Owner)
    requires Owned(owner, usage, zones, large, zp)
    requires o.OnList? || o.Held?
    requires forall q: Page :: p <= q < p + n ==> q in owner && (owner[q].OnList? || owner[q].Held?)
    ensures Owned(Mark(owner, p, n, o), usage, zones, large, zp)
  {
    hide ZonePages, LargePages;
    var owner' := Mark(owner, p, n, o);
    forall z | z in zones ensures ZonePages(owner', usage, z, zp) {
      ZoneStays(owner, usage, owner', usage, p, n, z, zp);
    }
    forall l | l in large ensures LargePages(owner', usage, l, large[l]) {
      LargeStays(owner, usage, owner', usage, p, n, l, large[l]);
    }
  }

  lemma StartsOwn(owner: map<Page, Owner>, usage: map<Page, Usage>, zones: set<Page>, large: map<Page, nat>, zp: nat, p: Page)
    requires Owned(owner, usage, zones, large, zp) && zp > 0
    ensures p in zones ==> p in owner && owner[p] == InZone(p)
    ensures p in large ==> p in owner && owner[p] == InLarge(p) && large[p] > 0
  {
    if p in zones { assert ZonePages(owner, usage, p, zp); }
    if p in large { assert LargePages(owner, usage, p, large[p]); }
  }

  lemma OwnedLarge(owner: map<Page, Owner>, usage: map<Page, Usage>, zones: set<Page>, large: map<Page, nat>, zp: nat,
                   l: Page, n: nat)
    requires Owned(owner, usage, zones, large, zp) && zp > 0 && n > 0 && AllAre(owner, l, n, Held)
    ensures l !in large
    ensures Owned(Mark(owner, l, n, InLarge(l)), usage[l := Usage(Large, n)], zones, large[l := n], zp)
  {
    hide ZonePages;
    var owner', usage', large' := Mark(owner, l, n, InLarge(l)), usage[l := Usage(Large, n)], large[l := n];
    StartsOwn(owner, usage, zones, large, zp, l);
    forall z | z in zones ensures ZonePages(owner', usage', z, zp) {
      ZoneStays(owner, usage, owner', usage', l, n, z, zp);
    }
    forall m | m in large' ensures LargePages(owner', usage', m, large'[m]) {
      if m != l { LargeStays(owner, usage, owner', usage', l, n, m, large[m]); }
    }
  }

  lemma DisownedLarge(owner: map<Page, Owner>, usage: map<Page, Usage>, zones: set<Page>, large: map<Page, nat>, zp: nat,
                      l: Page, u: Usage)
    requires Owned(owner, usage, zones, large, zp) && zp > 0 && l in large
    ensures LargePages(owner, usage, l, large[l])
    ensures Owned(Mark(owner, l, large[l], Held), usage[l := u], zones, large - {l}, zp)
  {
    hide ZonePages;
    var owner', usage', large' := Mark(owner, l, large[l], Held), usage[l := u], large - {l};
    assert LargePages(owner, usage, l, large[l]) && owner[l] == InLarge(l);
    forall z | z in zones ensures ZonePages(owner', usage', z, zp) {
      ZoneStays(owner, usage, owner', usage', l, large[l], z, zp);
    }
    forall m | m in large' ensures LargePages(owner', usage', m, large'[m]) {
      LargeStays(owner, usage, owner', usage', l, large[l], m, large[m]);
    }
  }

  ghost predicate UsageOutside(usage: map<Page, Usage>, usage': map<Page, Usage>, p: Page, n: nat) {
    forall q :: q in usage && !(p <= q < p + n) ==> q in usage' && usage'[q] == usage[q]
  }

  lemma OwnedZone(owner: map<Page, Owner>, usage: map<Page, Usage>, zones: set<Page>, large: map<Page, nat>, zp: nat,
                  z: Page, usage': map<Page, Usage>)
    requires Owned(owner, usage, zones, large, zp) && zp > 0 && AllAre(owner, z, zp, Held)
    requires UsageOutside(usage, usage', z, zp)
    requires forall q: Page :: z <= q < z + zp ==> q in usage' && usage'[q] == Usage(Small, q - z)
    ensures z !in zones
    ensures Owned(Mark(owner, z, zp, InZone(z)), usage', zones + {z}, large, zp)
  {
    hide LargePages;
    var owner' := Mark(owner, z, zp, InZone(z));
    StartsOwn(owner, usage, zones, large, zp, z);
    assert z !in zones;
    forall y | y in zones + {z} ensures ZonePages(owner', usage', y, zp) {
      if y != z { ZoneStays(owner, usage, owner', usage', z, zp, y, zp); }
    }
    forall m | m in large ensures LargePages(owner', usage', m, large[m]) {
      LargeStays(owner, usage, owner', usage', z, zp, m, large[m]);
    }
  }

  lemma DisownedZone(owner: map<Page, Owner>, usage: map<Page, Usage>, zones: set<Page>, large: map<Page, nat>, zp: nat,
                     z: Page, usage': map<Page, Usage>)
    requires Owned(owner, usage, zones, large, zp) && z in zones && UsageOutside(usage, usage', z, zp)
    ensures AllAre(owner, z, zp, InZone(z))
    ensures Owned(Mark(owner, z, zp, Held), usage', zones - {z}, large, zp)
  {
    hide LargePages;
    var owner' := Mark(owner, z, zp, Held);
    assert ZonePages(owner, usage, z, zp);
    forall y | y in zones - {z} ensures ZonePages(owner', usage', y, zp) {
      ZoneStays(owner, usage, owner', usage', z, zp, y, zp);
    }
    forall m | m in large ensures LargePages(owner', usage', m, large[m]) {
      LargeStays(owner, usage, owner', usage', z, zp, m, large[m]);
    }
  }

  lemma FreeMoves(owner: map<Page, Owner>, runs: seq<Run>, runs': seq<Run>, p: Page, n: nat, o: Owner)
    requires FreeAre(owner, runs)
    requires forall q: Page :: p <= q < p + n ==> q in owner
    requires forall q: Page :: Covers(runs', q) <==> if p <= q < p + n then o.OnList? else Covers(runs, q)
    ensures FreeAre(Mark(owner, p, n, o), runs')
  {
  }

  // ---- the blocks handed out ----------------------------------------------------------------

  ghost predicate Placed(a: Addr, bodies: map<Page, Body>, large: map<Page, nat>) {
    (a % PAGE == 0 && a / PAGE in large) || exists z :: z in bodies && a in bodies[z].live
  }

  ghost predicate ChunksListed(blocks: map<Addr, nat>, size: nat, live: set<Addr>) {
    forall a :: a in live ==> a in blocks && blocks[a] == size
  }

  /** blocks maps each address handed out to the bytes it has there. */
  ghost predicate BlocksAre(blocks: map<Addr, nat>, zones: map<Page, Zone>, bodies: map<Page, Body>, large: map<Page, nat>) {
    && (forall z :: z in bodies ==> z in zones && ChunksListed(blocks, zones[z].chunk, bodies[z].live))
    && (forall l :: l in large ==> l * PAGE in blocks && blocks[l * PAGE] == large[l] * PAGE)
    && (forall a :: a in blocks ==> Placed(a, bodies, large))
  }

  ghost predicate AllOk(zones: map<Page, Zone>, bodies: map<Page, Body>, link: map<Addr, Option<Addr>>, zoneSize: nat) {
    forall z :: z in bodies ==> z in zones && ZoneOk(z, zones[z], zoneSize, link, bodies[z])
  }

  lemma SameZone(owner: map<Page, Owner>, usage: map<Page, Usage>, zones: set<Page>, large: map<Page, nat>, zp: nat,
                 z: Page, p: Page)
    requires Owned(owner, usage, zones, large, zp) && z in zones && z <= p < z + zp
    ensures p in owner && owner[p] == InZone(z) && p in usage && usage[p] == Usage(Small, p - z)
    ensures forall y :: y in zones && y <= p < y + zp ==> y == z
    ensures p !in large
  {
    assert ZonePages(owner, usage, z, zp);
    forall y | y in zones && y <= p < y + zp ensures y == z {
      assert ZonePages(owner, usage, y, zp) && owner[p] == InZone(y);
    }
    assert p in large ==> LargePages(owner, usage, p, large[p]);
  }

  /** The pages of a chunk handed out are those of its zone and of no other. */
  lemma LiveAt(owner: map<Page, Owner>, usage: map<Page, Usage>, large: map<Page, nat>, zones: map<Page, Zone>,
               bodies: map<Page, Body>, link: map<Addr, Option<Addr>>, zoneSize: nat, z: Page, a: Addr)
    requires Owned(owner, usage, zones.Keys, large, zoneSize / PAGE) && ZoneSize(zoneSize)
    requires AllOk(zones, bodies, link, zoneSize) && z in bodies && (a in bodies[z].live || a in bodies[z].chain)
    ensures z in zones && ZoneOk(z, zones[z], zoneSize, link, bodies[z])
    ensures z * PAGE + HEADER <= a && a + zones[z].chunk <= z * PAGE + zoneSize
    ensures z <= a / PAGE < z + zoneSize / PAGE && a / PAGE in owner && owner[a / PAGE] == InZone(z)
    ensures a / PAGE in usage && usage[a / PAGE] == Usage(Small, a / PAGE - z)
  {
    hide Owned, Chain, Distinct;
    InsideZone(z, zones[z], zoneSize, zones[z].uindex + 1, a);
    SameZone(owner, usage, zones.Keys, large, zoneSize / PAGE, z, a / PAGE);
  }

  /** An address in a zone's pages is a block only if it is a live chunk there. */
  lemma NotABlock(owner: map<Page, Owner>, usage: map<Page, Usage>, large: map<Page, nat>, zones: map<Page, Zone>,
                  bodies: map<Page, Body>, link: map<Addr, Option<Addr>>, zoneSize: nat, blocks: map<Addr, nat>,
                  z: Page, a: Addr)
    requires Owned(owner, usage, zones.Keys, large, zoneSize / PAGE) && ZoneSize(zoneSize)
    requires AllOk(zones, bodies, link, zoneSize) && BlocksAre(blocks, zones, bodies, large)
    requires z in zones && z <= a / PAGE < z + zoneSize / PAGE && (z in bodies ==> a !in bodies[z].live)
    ensures a !in blocks
  {
    hide Owned, AllOk, BlocksAre;
    if a in blocks {
      IsPlaced(blocks, zones, bodies, large, a);
      SameZone(owner, usage, zones.Keys, large, zoneSize / PAGE, z, a / PAGE);
      if y :| y in bodies && a in bodies[y].live {
        LiveAt(owner, usage, large, zones, bodies, link, zoneSize, y, a);
      }
    }
  }

  lemma IsPlaced(blocks: map<Addr, nat>, zones: map<Page, Zone>, bodies: map<Page, Body>, large: map<Page, nat>, a: Addr)
    requires BlocksAre(blocks, zones, bodies, large) && a in blocks
    ensures Placed(a, bodies, large)
  {
  }

  /** The start of a run nobody has been given yet is no block. */
  lemma HeldNoBlock(owner: map<Page, Owner>, usage: map<Page, Usage>, large: map<Page, nat>, zones: map<Page, Zone>,
                    bodies: map<Page, Body>, link: map<Addr, Option<Addr>>, zoneSize: nat, blocks: map<Addr, nat>, p: Page)
    requires Owned(owner, usage, zones.Keys, large, zoneSize / PAGE) && ZoneSize(zoneSize)
    requires AllOk(zones, bodies, link, zoneSize) && BlocksAre(blocks, zones, bodies, large)
    requires p in owner && owner[p] == Held
    ensures p * PAGE !in blocks
  {
    hide AllOk, BlocksAre;
    var a := p * PAGE;
    if a in blocks {
      IsPlaced(blocks, zones, bodies, large, a);
      StartsOwn(owner, usage, zones.Keys, large, zoneSize / PAGE, p);
      if y :| y in bodies && a in bodies[y].live {
        LiveAt(owner, usage, large, zones, bodies, link, zoneSize, y, a);
      }
    }
  }

  /** The page map tells the two kinds of block apart and leads a chunk to its zone. */
  lemma WhichKind(owner: map<Page, Owner>, usage: map<Page, Usage>, large: map<Page, nat>, zones: map<Page, Zone>,
                  bodies: map<Page, Body>, link: map<Addr, Option<Addr>>, zoneSize: nat, blocks: map<Addr, nat>, a: Addr)
    requires Owned(owner, usage, zones.Keys, large, zoneSize / PAGE) && ZoneSize(zoneSize)
    requires AllOk(zones, bodies, link, zoneSize) && BlocksAre(blocks, zones, bodies, large) && a in blocks
    ensures var p := a / PAGE;
            && p in usage
            && (usage[p].kind == Large ==> a == p * PAGE && p in large && usage[p].size == large[p])
            && (usage[p].kind != Large ==>
                  && usage[p].kind == Small && p >= usage[p].size
                  && p - usage[p].size in bodies && a in bodies[p - usage[p].size].live)
  {
    hide AllOk, BlocksAre;
    IsPlaced(blocks, zones, bodies, large, a);
    if a % PAGE == 0 && a / PAGE in large {
      assert LargePages(owner, usage, a / PAGE, large[a / PAGE]);
    } else {
      var y :| y in bodies && a in bodies[y].live;
      LiveAt(owner, usage, large, zones, bodies, link, zoneSize, y, a);
    }
  }

  /** A zone's header and body change; the links of the others do not. */
  lemma AllSet(owner: map<Page, Owner>, usage: map<Page, Usage>, large: map<Page, nat>, zones: map<Page, Zone>,
               bodies: map<Page, Body>, link: map<Addr, Option<Addr>>, zoneSize: nat,
               z: Page, h: Zone, b: Body, link': map<Addr, Option<Addr>>)
    requires Owned(owner, usage, zones.Keys, large, zoneSize / PAGE) && ZoneSize(zoneSize)
    requires AllOk(zones, bodies, link, zoneSize) && ZoneOk(z, h, zoneSize, link', b)
    requires link' == link || (z in bodies && exists a :: a in bodies[z].live && link' == link[a := zones[z].free])
    ensures AllOk(zones[z := h], bodies[z := b], link', zoneSize)
  {
    hide Owned, ZoneOk;
    forall y | y in bodies && y != z ensures ZoneOk(y, zones[y], zoneSize, link', bodies[y]) {
      if link' != link {
        var a :| a in bodies[z].live && link' == link[a := zones[z].free];
        LiveAt(owner, usage, large, zones, bodies, link, zoneSize, z, a);
        if a in bodies[y].chain { LiveAt(owner, usage, large, zones, bodies, link, zoneSize, y, a); }
      }
      ZoneFrame(y, zones[y], zoneSize, link, link', bodies[y]);
    }
  }

  lemma BlocksTake(blocks: map<Addr, nat>, zones: map<Page, Zone>, bodies: map<Page, Body>, large: map<Page, nat>,
                   z: Page, h: Zone, b: Body, a: Addr)
    requires BlocksAre(blocks, zones, bodies, large) && a !in blocks
    requires (z in bodies ==> z in zones && zones[z].chunk == h.chunk) && b.live == (if z in bodies then bodies[z].live else {}) + {a}
    ensures BlocksAre(blocks[a := h.chunk], zones[z := h], bodies[z := b], large)
  {
    var blocks', bodies' := blocks[a := h.chunk], bodies[z := b];
    forall y | y in bodies ensures ChunksListed(blocks', zones[y].chunk, bodies[y].live) {
      assert ChunksListed(blocks, zones[y].chunk, bodies[y].live);
    }
    assert ChunksListed(blocks', h.chunk, b.live);
    forall c | c in blocks' ensures Placed(c, bodies', large) {
      if c == a {
        assert z in bodies' && a in bodies'[z].live;
      } else {
        assert Placed(c, bodies, large);
        if y :| y in bodies && c in bodies[y].live { assert y in bodies' && c in bodies'[y].live; }
      }
    }
  }

  lemma BlocksGive(owner: map<Page, Owner>, usage: map<Page, Usage>, large: map<Page, nat>, zones: map<Page, Zone>,
                   bodies: map<Page, Body>, link: map<Addr, Option<Addr>>, zoneSize: nat, blocks: map<Addr, nat>,
                   z: Page, h: Zone, b: Body, a: Addr)
    requires Owned(owner, usage, zones.Keys, large, zoneSize / PAGE) && ZoneSize(zoneSize)
    requires AllOk(zones, bodies, link, zoneSize) && BlocksAre(blocks, zones, bodies, large)
    requires z in bodies && a in bodies[z].live && b.live == bodies[z].live - {a} && z in zones && zones[z].chunk == h.chunk
    ensures BlocksAre(blocks - {a}, zones[z := h], bodies[z := b], large)
  {
    hide Owned, AllOk;
    LiveAt(owner, usage, large, zones, bodies, link, zoneSize, z, a);
    SameZone(owner, usage, zones.Keys, large, zoneSize / PAGE, z, a / PAGE);
    var blocks', bodies' := blocks - {a}, bodies[z := b];
    forall y | y in bodies && y != z ensures ChunksListed(blocks', zones[y].chunk, bodies[y].live) {
      if a in bodies[y].live { LiveAt(owner, usage, large, zones, bodies, link, zoneSize, y, a); }
      assert ChunksListed(blocks, zones[y].chunk, bodies[y].live);
    }
    assert ChunksListed(blocks, zones[z].chunk, bodies[z].live);
    assert ChunksListed(blocks', h.chunk, b.live);
    forall c | c in blocks' ensures Placed(c, bodies', large) {
      assert Placed(c, bodies, large);
      if y :| y in bodies && c in bodies[y].live { assert y in bodies' && c in bodies'[y].live; }
    }
    forall l | l in large ensures l * PAGE != a { assert l * PAGE / PAGE == l; }
  }

  lemma BlocksLarge(blocks: map<Addr, nat>, zones: map<Page, Zone>, bodies: map<Page, Body>, large: map<Page, nat>,
                    l: Page, n: nat)
    requires BlocksAre(blocks, zones, bodies, large) && l * PAGE !in blocks
    ensures BlocksAre(blocks[l * PAGE := n * PAGE], zones, bodies, large[l := n])
  {
    var blocks', large' := blocks[l * PAGE := n * PAGE], large[l := n];
    forall y | y in bodies ensures ChunksListed(blocks', zones[y].chunk, bodies[y].live) {
      assert ChunksListed(blocks, zones[y].chunk, bodies[y].live);
    }
    forall c | c in blocks' ensures Placed(c, bodies, large') {
      if c == l * PAGE { assert c / PAGE == l; } else { assert Placed(c, bodies, large); }
    }
  }

  lemma LargeNotLive(owner: map<Page, Owner>, usage: map<Page, Usage>, large: map<Page, nat>, zones: map<Page, Zone>,
                     bodies: map<Page, Body>, link: map<Addr, Option<Addr>>, zoneSize: nat, l: Page, y: Page)
    requires Owned(owner, usage, zones.Keys, large, zoneSize / PAGE) && ZoneSize(zoneSize)
    requires AllOk(zones, bodies, link, zoneSize) && l in large && y in bodies
    ensures l * PAGE !in bodies[y].live
  {
    hide AllOk;
    var a := l * PAGE;
    assert LargePages(owner, usage, l, large[l]) && a / PAGE == l && owner[l] == InLarge(l);
    if a in bodies[y].live { LiveAt(owner, usage, large, zones, bodies, link, zoneSize, y, a); }
  }

  lemma BlocksUnlarge(owner: map<Page, Owner>, usage: map<Page, Usage>, large: map<Page, nat>, zones: map<Page, Zone>,
                      bodies: map<Page, Body>, link: map<Addr, Option<Addr>>, zoneSize: nat, blocks: map<Addr, nat>, l: Page)
    requires Owned(owner, usage, zones.Keys, large, zoneSize / PAGE) && ZoneSize(zoneSize)
    requires AllOk(zones, bodies, link, zoneSize) && BlocksAre(blocks, zones, bodies, large) && l in large
    ensures BlocksAre(blocks - {l * PAGE}, zones, bodies, large - {l})
  {
    hide AllOk, Owned, Placed, ZoneSize, ChunksListed;
    var blocks', large', a := blocks - {l * PAGE}, large - {l}, l * PAGE;
    forall y | y in bodies ensures ChunksListed(blocks', zones[y].chunk, bodies[y].live) {
      LargeNotLive(owner, usage, large, zones, bodies, link, zoneSize, l, y);
      StillListed(blocks, zones[y].chunk, bodies[y].live, a);
    }
    forall c | c in blocks' ensures Placed(c, bodies, large') {
      StillPlaced(c, bodies, large, l);
    }
  }

  lemma StillListed(blocks: map<Addr, nat>, size: nat, live: set<Addr>, a: Addr)
    requires ChunksListed(blocks, size, live) && a !in live
    ensures ChunksListed(blocks - {a}, size, live)
  {
  }

  lemma StillPlaced(c: Addr, bodies: map<Page, Body>, large: map<Page, nat>, l: Page)
    requires Placed(c, bodies, large) && c != l * PAGE
    ensures Placed(c, bodies, large - {l})
  {
    if c % PAGE == 0 { assert c == c / PAGE * PAGE; }
  }

  /** A zone with no chunk handed out stops being one. */
  lemma BlocksRetire(blocks: map<Addr, nat>, zones: map<Page, Zone>, bodies: map<Page, Body>, large: map<Page, nat>,
                     z: Page, h: Zone)
    requires BlocksAre(blocks, zones, bodies, large) && z in bodies && bodies[z].live == {}
    ensures BlocksAre(blocks, zones[z := h], bodies - {z}, large)
  {
    var bodies' := bodies - {z};
    forall y | y in bodies' ensures ChunksListed(blocks, zones[y].chunk, bodies[y].live) {
    }
    forall c | c in blocks ensures Placed(c, bodies', large) {
      assert Placed(c, bodies, large);
      if y :| y in bodies && c in bodies[y].live { assert y in bodies' && c in bodies'[y].live; }
    }
  }

  lemma TakeMoves(owner: map<Page, Owner>, usage: map<Page, Usage>, zones: set<Page>, large: map<Page, nat>, zp: nat,
                  runs: seq<Run>, n: nat)
    requires Owned(owner, usage, zones, large, zp) && FreeAre(owner, runs) && Canonical(runs) && n > 0
    requires Take(runs, n).1.Some?
    ensures var p := Take(runs, n).1.value; var owner' := Mark(owner, p, n, Held);
            && AllAre(owner, p, n, OnList) && AllAre(owner', p, n, Held)
            && Owned(owner', usage, zones, large, zp) && FreeAre(owner', Take(runs, n).0)
  {
    hide Owned, Canonical, Take;
    var p := Take(runs, n).1.value;
    TakeTakes(runs, n);
    forall q: Page | p <= q < p + n ensures q in owner && owner[q].OnList? { assert In(Run(p, n), q); }
    forall q: Page ensures Covers(Take(runs, n).0, q) <==> if p <= q < p + n then false else Covers(runs, q) {
      assert In(Run(p, n), q) <==> p <= q < p + n;
    }
    FreeMoves(owner, runs, Take(runs, n).0, p, n, Held);
    OwnedMoves(owner, usage, zones, large, zp, p, n, Held);
  }

  lemma PutMoves(owner: map<Page, Owner>, usage: map<Page, Usage>, zones: set<Page>, large: map<Page, nat>, zp: nat,
                 runs: seq<Run>, p: Page, n: nat)
    requires Owned(owner, usage, zones, large, zp) && FreeAre(owner, runs) && Canonical(runs) && n > 0
    requires AllAre(owner, p, n, Held)
    ensures Apart(runs, p, n)
    ensures Owned(Mark(owner, p, n, OnList), usage, zones, large, zp) && FreeAre(Mark(owner, p, n, OnList), Put(runs, p, n))
  {
    hide Owned, Canonical, Put;
    PutPuts(runs, p, n);
    forall q: Page ensures Covers(Put(runs, p, n), q) <==> if p <= q < p + n then true else Covers(runs, q) {
      assert In(Run(p, n), q) <==> p <= q < p + n;
    }
    FreeMoves(owner, runs, Put(runs, p, n), p, n, OnList);
    OwnedMoves(owner, usage, zones, large, zp, p, n, OnList);
  }

  /** Pages off the list pass from one owner to another. */
  lemma OffList(owner: map<Page, Owner>, runs: seq<Run>, p: Page, n: nat, o: Owner, o': Owner)
    requires FreeAre(owner, runs) && AllAre(owner, p, n, o) && !o.OnList? && !o'.OnList?
    ensures FreeAre(Mark(owner, p, n, o'), runs)
  {
    forall q: Page | p <= q < p + n ensures !Covers(runs, q) { assert q in owner && owner[q] == o; }
    FreeMoves(owner, runs, runs, p, n, o');
  }

  /** Headers that no body goes with come and go without a trace elsewhere. */
  lemma HeaderOnly(zones: map<Page, Zone>, zones': map<Page, Zone>, bodies: map<Page, Body>, link: map<Addr, Option<Addr>>,
                   zoneSize: nat, blocks: map<Addr, nat>, large: map<Page, nat>)
    requires AllOk(zones, bodies, link, zoneSize) && BlocksAre(blocks, zones, bodies, large)
    requires forall z :: z in bodies && z in zones ==> z in zones' && zones'[z] == zones[z]
    ensures AllOk(zones', bodies, link, zoneSize) && BlocksAre(blocks, zones', bodies, large)
    ensures Slots(zones', bodies) == Slots(zones, bodies)
  {
    hide ZoneOk, Placed, ChunksListed;
  }

  lemma AllBut(zones: map<Page, Zone>, bodies: map<Page, Body>, link: map<Addr, Option<Addr>>, zoneSize: nat, z: Page, h: Zone)
    requires AllOk(zones, bodies, link, zoneSize)
    ensures AllOk(zones[z := h], bodies - {z}, link, zoneSize)
  {
    hide ZoneOk;
  }

  lemma BodiesAreZones(zones: map<Page, Zone>, bodies: map<Page, Body>, link: map<Addr, Option<Addr>>, zoneSize: nat)
    requires AllOk(zones, bodies, link, zoneSize)
    ensures bodies.Keys <= zones.Keys
  {
  }
}
