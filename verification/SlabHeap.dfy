/** slab.c: rt_system_heap_init, rt_malloc and rt_free over zones and page runs. */
module SlabHeap {
  // Each method is a section under the heap lock, or the sequence of such sections that
  // makes up a call; every one of them keeps Inv, so the sections of several callers may
  // interleave.

  import opened Chains
  import opened Pages
  import opened Rings
  import opened Slab
  import opened SlabSizes

  class Heap {
    const pages: PageList
    const zoneSize: nat
    const zoneLimit: nat
    var usage: map<Page, Usage>            // memusage
    var zones: map<Page, Zone>             // the headers of all zones, by their first page
    var znext: map<Page, Option<Page>>     // their z_next
    var heads: seq<Option<Page>>           // zone_array
    var spare: Option<Page>                // zone_free
    var spareCnt: nat                      // zone_free_cnt
    var link: map<Addr, Option<Addr>>      // c_next of free chunks
    ghost var owner: map<Page, Owner>
    ghost var large: map<Page, nat>
    ghost var rows: seq<seq<Page>>
    ghost var spares: seq<Page>
    ghost var bodies: map<Page, Body>
    ghost var blocks: map<Addr, nat>

    ghost predicate Config() {
      ZoneSize(zoneSize) && zoneLimit == if zoneSize / 4 > ZONE_LIMIT then ZONE_LIMIT else zoneSize / 4
    }

    ghost predicate PagesOk()
      reads `owner, pages
    {
      pages.Valid() && FreeAre(owner, pages.runs)
    }

    ghost predicate MapOk()
      reads `owner, `usage, `zones, `large
    {
      Owned(owner, usage, zones.Keys, large, zoneSize / PAGE)
    }

    ghost predicate ZonesOk()
      reads `zones, `bodies, `link
    {
      AllOk(zones, bodies, link, zoneSize)
    }

    ghost predicate RowsOk()
      reads `znext, `heads, `rows, `zones, `bodies
    {
      RowsAre(znext, heads, rows, Slots(zones, bodies))
    }

    /** loose: zones between two lists in the middle of a section. */
    ghost predicate SparesOk(loose: set<Page>)
      reads `znext, `spare, `spares, `spareCnt, `zones, `bodies
    {
      SparesAre(znext, spare, spares, zones.Keys - bodies.Keys - loose) && spareCnt == |spares|
    }

    ghost predicate BlocksOk()
      reads `blocks, `zones, `bodies, `large
    {
      BlocksAre(blocks, zones, bodies, large)
    }

    ghost predicate Inv(loose: set<Page>)
      reads this, pages
    {
      Config() && PagesOk() && MapOk() && ZonesOk() && RowsOk() && SparesOk(loose) && BlocksOk()
    }

    ghost predicate Valid()
      reads this, pages
    {
      Inv({}) && spareCnt <= SPARES
    }

    lemma Open(loose: set<Page>)
      requires Inv(loose)
      ensures Config() && pages.Valid() && FreeAre(owner, pages.runs)
      ensures Owned(owner, usage, zones.Keys, large, zoneSize / PAGE) && AllOk(zones, bodies, link, zoneSize)
      ensures RowsAre(znext, heads, rows, Slots(zones, bodies))
      ensures SparesAre(znext, spare, spares, zones.Keys - bodies.Keys - loose) && spareCnt == |spares|
      ensures BlocksAre(blocks, zones, bodies, large)
    {
    }

    lemma Shut(loose: set<Page>)
      requires Config() && pages.Valid() && FreeAre(owner, pages.runs)
      requires Owned(owner, usage, zones.Keys, large, zoneSize / PAGE) && AllOk(zones, bodies, link, zoneSize)
      requires RowsAre(znext, heads, rows, Slots(zones, bodies))
      requires SparesAre(znext, spare, spares, zones.Keys - bodies.Keys - loose) && spareCnt == |spares|
      requires BlocksAre(blocks, zones, bodies, large)
      ensures Inv(loose)
    {
    }

    /** The zone size grows with the heap, from 32 to 128 KB. */
    static method PickZoneSize(limsize: nat) returns (z: nat)
      ensures ZoneSize(z)
      ensures z == if MAX_ZONE < limsize / 1024 then MAX_ZONE else if 2 * MIN_ZONE < limsize / 1024 then 2 * MIN_ZONE else MIN_ZONE
    {
      z := MIN_ZONE;
      while z < MAX_ZONE && z * 2 < limsize / 1024
        invariant z == MIN_ZONE || z == 2 * MIN_ZONE || z == MAX_ZONE
        invariant z > MIN_ZONE ==> z < limsize / 1024
        decreases MAX_ZONE - z
      {
        z := z * 2;
      }
    }

    /** rt_system_heap_init, over n whole pages. */
    constructor (start: Page, n: nat)
      requires n > 0
      ensures Valid() && fresh(pages) && blocks == map[]
      ensures forall q: Page :: q in owner <==> start <= q < start + n
    {
      hide Owned, FreeAre, AllOk, RowsAre, SparesAre, BlocksAre, Take, Mark, AllListed, AllAre;
      var p := new PageList(start, n);
      var z := PickZoneSize(n * PAGE);
      pages := p;
      zoneSize := z;
      zoneLimit := if z / 4 > ZONE_LIMIT then ZONE_LIMIT else z / 4;
      usage, zones, znext, link := map[], map[], map[], map[];
      heads, spare, spareCnt := seq(NZONES, _ => None), None, 0;
      owner := AllListed(start, n);
      large, rows, spares, bodies, blocks := map[], seq(NZONES, _ => []), [], map[], map[];
      new;
      Empty(start, n);
      var bytes := RoundUp(n * 4, PAGE);
      var m := AllocPages(bytes / PAGE, {});
    }

    lemma Empty(start: Page, n: nat)
      requires n > 0 && Config() && pages.Valid() && pages.runs == [Run(start, n)] && owner == AllListed(start, n)
      requires usage == map[] && zones == map[] && bodies == map[] && large == map[] && blocks == map[]
      requires heads == seq(NZONES, _ => None) && rows == seq(NZONES, _ => [])
      requires spare == None && spares == [] && spareCnt == 0
      ensures Inv({})
    {
      ListedAtFirst(start, n);
    }

    /** rt_page_alloc */
    method AllocPages(n: nat, ghost loose: set<Page>) returns (r: Option<Page>)
      requires Inv(loose)
      modifies `owner, pages
      ensures Inv(loose)
      ensures n == 0 ==> r == None && pages.runs == old(pages.runs)
      ensures n > 0 ==> (pages.runs, r) == Take(old(pages.runs), n)
      ensures r == None ==> owner == old(owner)
      ensures r.Some? ==> AllAre(old(owner), r.value, n, OnList) && AllAre(owner, r.value, n, Held)
      ensures r.Some? ==> owner == Mark(old(owner), r.value, n, Held)
      ensures owner.Keys == old(owner).Keys
    {
      hide Owned, FreeAre, AllOk, RowsAre, SparesAre, BlocksAre, Take, Mark, AllAre;
      r := pages.Alloc(n);
      if r.Some? {
        MarkKeys(owner, r.value, n, Held);
        TakeMoves(owner, usage, zones.Keys, large, zoneSize / PAGE, old(pages.runs), n);
        owner := Mark(owner, r.value, n, Held);
      } else if n > 0 {
        TakeTakes(old(pages.runs), n);
      }
    }

    /** rt_page_free */
    method FreePages(p: Page, n: nat, ghost loose: set<Page>)
      requires Inv(loose) && n > 0 && AllAre(owner, p, n, Held)
      modifies `owner, pages
      ensures Inv(loose) && owner == Mark(old(owner), p, n, OnList)
      ensures pages.runs == Put(old(pages.runs), p, n)
    {
      hide Owned, FreeAre, AllOk, RowsAre, SparesAre, BlocksAre, Put, Mark, AllAre;
      PutMoves(owner, usage, zones.Keys, large, zoneSize / PAGE, pages.runs, p, n);
      pages.Free(p, n);
      owner := Mark(owner, p, n, OnList);
    }

    lemma ListedZone(zi: nat)
      requires ZonesOk() && RowsOk() && zi < NZONES && rows[zi] != []
      ensures |heads| == |rows| == NZONES && heads[zi] == Some(rows[zi][0])
      ensures var z := rows[zi][0];
              && z in bodies && z in zones && z in znext && z in Slots(zones, bodies) && Slots(zones, bodies)[z] == zi
              && zones[z].index == zi && zones[z].nfree > 0 && ZoneOk(z, zones[z], zoneSize, link, bodies[z])
              && zones[z].chunk == ChunkSize(zi)
    {
      hide ZoneOk;
      RowAt(znext, heads, rows, Slots(zones, bodies), zi);
      var z := rows[zi][0];
      ZoneKnown(z, zones[z], zoneSize, link, bodies[z]);
    }

    /** A chunk of zone z: from the part never used while that lasts, then from the
        free list. */
    method PickChunk(z: Page, h: Zone, ghost b: Body) returns (h': Zone, a: Addr, ghost b': Body)
      requires ZoneSize(zoneSize) && ZoneOk(z, h, zoneSize, link, b) && h.nfree > 0
      ensures ZoneOk(z, h', zoneSize, link, b') && h'.nfree == h.nfree - 1
      ensures h'.chunk == h.chunk && h'.index == h.index
      ensures a !in b.live && b'.live == b.live + {a} && z <= a / PAGE < z + zoneSize / PAGE
    {
      hide ZoneOk;
      ZoneKnown(z, h, zoneSize, link, b);
      if h.uindex + 1 != h.nmax {
        TakeNew(z, h, zoneSize, link, b);
        h' := h.(nfree := h.nfree - 1, uindex := h.uindex + 1);
        a := h.base + (h.uindex + 1) * h.chunk;
        b' := b.(live := b.live + {a});
      } else {
        TakeOld(z, h, zoneSize, link, b);
        a := h.free.value;
        h' := h.(nfree := h.nfree - 1, free := link[a]);
        b' := Body(b.chain[1..], b.live + {a});
      }
      ChunkPage(z, h', zoneSize, link, b', a);
    }

    lemma SlotStays(zi: nat, z: Page, h: Zone, b: Body)
      requires z in Slots(zones, bodies) && Slots(zones, bodies)[z] == zi && h.index == zi
      ensures Slots(zones[z := h], bodies[z := b]) ==
              if h.nfree > 0 then Slots(zones, bodies) else Slots(zones, bodies) - {z}
    {
      hide Slots;
      SlotsSet(zones, bodies, z, h, b);
      assert Slots(zones, bodies)[z := zi] == Slots(zones, bodies);
    }

    lemma HeadFirst(i: nat)
      requires RowsOk() && i < NZONES && |heads| == NZONES && heads[i].Some?
      ensures |rows| == NZONES && rows[i] != [] && rows[i][0] == heads[i].value
    {
      RowAt(znext, heads, rows, Slots(zones, bodies), i);
    }

    /** The first zone leaves its row. */
    method PopRow(zi: nat, z: Page)
      requires RowsOk() && SparesOk({}) && zi < NZONES && |heads| == NZONES && heads[zi] == Some(z) && z in bodies
      modifies `znext, `heads, `rows
      ensures RowsAre(znext, heads, rows, Slots(zones, bodies) - {z}) && SparesOk({})
    {
      hide RowsAre, SparesAre, Slots;
      ghost var slots := Slots(zones, bodies);
      HeadFirst(zi);
      RowAt(znext, heads, rows, slots, zi);
      RowsPop(znext, heads, rows, slots, zi);
      heads := heads[zi := znext[z]];
      znext := znext[z := None];
      rows := rows[zi := rows[zi][1..]];
      SparesFrame(old(znext), znext, spare, spares, zones.Keys - bodies.Keys - {});
    }

    /** The first part of rt_malloc for a small request: the first zone of the row
        gives a chunk, and leaves the row when that was its last. */
    method TakeChunk(zi: nat) returns (a: Addr)
      requires Inv({}) && zi < NZONES && heads[zi].Some?
      modifies `zones, `znext, `heads, `rows, `bodies, `blocks
      ensures Inv({}) && a !in old(blocks) && blocks == old(blocks)[a := ChunkSize(zi)]
    {
      hide Owned, FreeAre, AllOk, RowsAre, SparesAre, BlocksAre, ZoneOk, Slots, Inv, PageList.Valid;
      Open({});
      RowAt(znext, heads, rows, Slots(zones, bodies), zi);
      ListedZone(zi);
      var z := heads[zi].value;
      var h := zones[z];
      ghost var b, slots := bodies[z], Slots(zones, bodies);
      if h.nfree - 1 == 0 { PopRow(zi, z); }
      var h', c, b' := PickChunk(z, h, b);
      a := c;
      Taken(zi, z, h', a, b');
      zones := zones[z := h'];
      bodies := bodies[z := b'];
      blocks := blocks[a := h.chunk];
      Shut({});
    }

    /** What taking chunk a from zone z does to everything but the rows. */
    lemma Taken(zi: nat, z: Page, h': Zone, a: Addr, b': Body)
      requires Config() && MapOk() && ZonesOk() && BlocksOk()
      requires z in Slots(zones, bodies) && Slots(zones, bodies)[z] == zi && h'.index == zi
      requires z in bodies && z in zones && ZoneOk(z, h', zoneSize, link, b') && h'.chunk == zones[z].chunk
      requires a !in bodies[z].live && b'.live == bodies[z].live + {a} && z <= a / PAGE < z + zoneSize / PAGE
      ensures zones[z := h'].Keys == zones.Keys && bodies[z := b'].Keys == bodies.Keys && a !in blocks
      ensures AllOk(zones[z := h'], bodies[z := b'], link, zoneSize)
      ensures BlocksAre(blocks[a := h'.chunk], zones[z := h'], bodies[z := b'], large)
      ensures var slots := Slots(zones, bodies);
              Slots(zones[z := h'], bodies[z := b']) == if h'.nfree > 0 then slots else slots - {z}
    {
      hide Owned, FreeAre, AllOk, RowsAre, SparesAre, BlocksAre, ZoneOk, Slots;
      SlotStays(zi, z, h', b');
      NotABlock(owner, usage, large, zones, bodies, link, zoneSize, blocks, z, a);
      AllSet(owner, usage, large, zones, bodies, link, zoneSize, z, h', b', link);
      BlocksTake(blocks, zones, bodies, large, z, h', b', a);
    }

    /** Zone z becomes the first of row i. */
    method PushRow(i: nat, z: Page, ghost slots: map<Page, nat>, ghost s: set<Page>)
      requires RowsAre(znext, heads, rows, slots) && SparesAre(znext, spare, spares, s)
      requires i < NZONES && |heads| == NZONES && z !in slots && z !in s
      modifies `znext, `heads, `rows
      ensures RowsAre(znext, heads, rows, slots[z := i]) && SparesAre(znext, spare, spares, s)
    {
      hide RowsAre, SparesAre;
      RowsPush(znext, heads, rows, slots, i, z);
      RowAt(znext, heads, rows, slots, i);
      SparesFrame(znext, znext[z := heads[i]], spare, spares, s);
      znext := znext[z := heads[i]];
      rows := rows[i := [z] + rows[i]];
      heads := heads[i := Some(z)];
    }

    /** memset and set up of a zone that is on no list; its first chunk is handed out. */
    method StartZone(z: Page, zi: nat) returns (a: Addr)
      requires Inv({z}) && z in zones && z !in bodies && zi < NZONES && ChunkSize(zi) * 4 <= zoneSize
      modifies `zones, `znext, `heads, `rows, `bodies, `blocks
      ensures Inv({}) && a !in old(blocks) && blocks == old(blocks)[a := ChunkSize(zi)]
    {
      hide Owned, FreeAre, AllOk, RowsAre, SparesAre, BlocksAre, ZoneOk, Slots, Inv, PageList.Valid, Offset, Capacity;
      Open({z});
      var size := ChunkSize(zi);
      var off := Offset(size);
      var n: int := Capacity(zoneSize, size);
      var h := Zone(MAGIC, n - 1, n, z * PAGE + off, 0, size, zi, None);
      var first: nat := h.uindex;
      a := h.base + first * size;
      ghost var b, slots := Body([], {a}), Slots(zones, bodies);
      Started(z, zoneSize, link, zi);
      Begun(z, h, a, b);
      RowAt(znext, heads, rows, slots, zi);
      PushRow(zi, z, slots, zones.Keys - bodies.Keys - {z});
      zones := zones[z := h];
      bodies := bodies[z := b];
      blocks := blocks[a := size];
      Shut({});
    }

    /** What starting zone z with its first chunk taken does to everything but the rows. */
    lemma Begun(z: Page, h: Zone, a: Addr, b: Body)
      requires Config() && MapOk() && ZonesOk() && BlocksOk() && z in zones && z !in bodies
      requires ZoneOk(z, h, zoneSize, link, b) && h.nfree > 0 && b == Body([], {a})
      ensures a !in blocks && z !in Slots(zones, bodies)
      ensures zones[z := h].Keys == zones.Keys && zones.Keys - bodies[z := b].Keys - {} == zones.Keys - bodies.Keys - {z}
      ensures AllOk(zones[z := h], bodies[z := b], link, zoneSize)
      ensures BlocksAre(blocks[a := h.chunk], zones[z := h], bodies[z := b], large)
      ensures Slots(zones[z := h], bodies[z := b]) == Slots(zones, bodies)[z := h.index]
    {
      hide Owned, FreeAre, AllOk, RowsAre, SparesAre, BlocksAre, ZoneOk, Slots;
      ChunkPage(z, h, zoneSize, link, b, a);
      NotInSlots(z);
      SlotsSet(zones, bodies, z, h, b);
      NotABlock(owner, usage, large, zones, bodies, link, zoneSize, blocks, z, a);
      AllSet(owner, usage, large, zones, bodies, link, zoneSize, z, h, b, link);
      BlocksTake(blocks, zones, bodies, large, z, h, b, a);
    }

    lemma NotInSlots(z: Page)
      requires z !in bodies
      ensures z !in Slots(zones, bodies)
    {
    }

    /** The first spare zone. */
    method PopSpare() returns (z: Page)
      requires Inv({}) && spare.Some? && spareCnt <= SPARES
      modifies `spare, `spareCnt, `spares
      ensures Inv({z}) && spareCnt + 1 == old(spareCnt) && z in zones && z !in bodies
    {
      hide Owned, FreeAre, AllOk, RowsAre, BlocksAre, Slots;
      ghost var s := zones.Keys - bodies.Keys - {};
      SparesPop(znext, spare, spares, s);
      z := spare.value;
      assert s - {z} == zones.Keys - bodies.Keys - {z};
      spare := znext[z];
      spareCnt := spareCnt - 1;
      spares := spares[1..];
    }

    /** A run of pages becomes a zone: the page map leads each page back to the first. */
    method Adopt(z: Page)
      requires Inv({}) && AllAre(owner, z, zoneSize / PAGE, Held)
      modifies `usage, `zones, `owner
      ensures Inv({z}) && z in zones && z !in bodies && owner == Mark(old(owner), z, zoneSize / PAGE, InZone(z))
    {
      hide Owned, FreeAre, AllOk, RowsAre, SparesAre, BlocksAre, ZoneOk, Slots, Inv, PageList.Valid, Mark, AllAre;
      Open({});
      var off: nat := 0;
      while off < zoneSize / PAGE
        invariant off <= zoneSize / PAGE && UsageOutside(old(usage), usage, z, off)
        invariant zones == old(zones) && owner == old(owner)
        invariant forall q: Page :: z <= q < z + off ==> q in usage && usage[q] == Usage(Small, q - z)
      {
        usage := usage[z + off := Usage(Small, off)];
        off := off + 1;
      }
      OwnedZone(owner, old(usage), zones.Keys, large, zoneSize / PAGE, z, usage);
      OffList(owner, pages.runs, z, zoneSize / PAGE, Held, InZone(z));
      BodiesAreZones(zones, bodies, link, zoneSize);
      HeaderOnly(zones, zones[z := Zone(0, 0, 0, 0, 0, 0, 0, None)], bodies, link, zoneSize, blocks, large);
      owner := Mark(owner, z, zoneSize / PAGE, InZone(z));
      zones := zones[z := Zone(0, 0, 0, 0, 0, 0, 0, None)];
      assert zones.Keys == old(zones).Keys + {z};
      assert zones.Keys - bodies.Keys - {z} == old(zones).Keys - bodies.Keys - {};
      Shut({z});
    }

    /** Bytes of the pages a large request is rounded to; the sum wraps. */
    function AlignPage(size: nat): nat {
      RoundUp(size, PAGE) % WORD
    }

    /** A run of pages becomes a large block. */
    method MarkLarge(l: Page, n: nat)
      requires Inv({}) && n > 0 && AllAre(owner, l, n, Held)
      modifies `usage, `owner, `large, `blocks
      ensures Inv({}) && l * PAGE !in old(blocks) && blocks == old(blocks)[l * PAGE := n * PAGE]
    {
      hide Owned, FreeAre, AllOk, RowsAre, SparesAre, BlocksAre, ZoneOk, Slots, Inv, PageList.Valid, Mark;
      Open({});
      HeldNoBlock(owner, usage, large, zones, bodies, link, zoneSize, blocks, l);
      OwnedLarge(owner, usage, zones.Keys, large, zoneSize / PAGE, l, n);
      OffList(owner, pages.runs, l, n, Held, InLarge(l));
      BlocksLarge(blocks, zones, bodies, large, l, n);
      usage := usage[l := Usage(Large, n)];
      owner := Mark(owner, l, n, InLarge(l));
      large := large[l := n];
      blocks := blocks[l * PAGE := n * PAGE];
      Shut({});
    }

    /** The pages a request that finds no chunk takes from the list. */
    function PagesNeeded(size: nat): nat {
      if size >= zoneLimit then AlignPage(size) / PAGE else zoneSize / PAGE
    }

    lemma Aligned(size: nat)
      requires size < WORD
      ensures AlignPage(size) == AlignPage(size) / PAGE * PAGE
      ensures AlignPage(size) > 0 ==> size <= AlignPage(size) < size + PAGE
    {
      hide RoundUp;
      RoundsUp(size, PAGE);
      var r := RoundUp(size, PAGE);
      assert r <= WORD && (r == WORD || AlignPage(size) == r);
    }

    lemma ClassFits(size: nat, zi: nat)
      requires Config() && size < zoneLimit && Class(size, zi)
      ensures ChunkSize(zi) * 4 <= zoneSize
    {
      var top := if zoneLimit == ZONE_LIMIT then 71 else 63;
      if top < zi - 1 { ChunkSizesGrow(top, zi - 1); }
      if zi < top { ChunkSizesGrow(zi, top); }
    }

    lemma HeadsFit()
      requires RowsOk()
      ensures |heads| == NZONES
    {
    }

    /** The bytes rt_malloc sets aside for a request. */
    ghost predicate Granted(size: nat, cap: nat) {
      if size < zoneLimit then exists i :: Class(size, i) && cap == ChunkSize(i)
      else cap == AlignPage(size) && size <= cap < size + PAGE
    }

    /** When rt_malloc fails: no zone of the class has a chunk, no zone is spare and no run of
        pages is long enough; or the size is 0 or rounds past 2^32. */
    ghost predicate NoRoom(size: nat)
      requires Valid()
      reads this, pages
    {
      HeadsFit();
      if size == 0 then true
      else if size >= zoneLimit then AlignPage(size) == 0 || Take(pages.runs, PagesNeeded(size)).1 == None
      else heads[ClassOf(size)] == None && spare == None && Take(pages.runs, PagesNeeded(size)).1 == None
    }

    /** rt_malloc */
    method Malloc(size: nat) returns (r: Option<Addr>)
      requires Valid() && size < WORD
      modifies this, pages
      ensures Valid()
      ensures r == None ==> blocks == old(blocks)
      ensures r == None <==> old(NoRoom(size))
      ensures r.Some? ==> r.value !in old(blocks) && r.value in blocks
      ensures r.Some? ==> blocks == old(blocks)[r.value := blocks[r.value]] && Granted(size, blocks[r.value])
    {
      hide Owned, FreeAre, AllOk, RowsAre, SparesAre, BlocksAre, Slots, Mark, AllAre, Take, ChunkSize, PagesOk, MapOk, RowsOk;
      HeadsFit();
      if size == 0 { return None; }
      if size >= zoneLimit {
        var bytes := AlignPage(size);
        Aligned(size);
        var p := AllocPages(bytes / PAGE, {});
        if p == None { return None; }
        MarkLarge(p.value, bytes / PAGE);
        return Some(p.value * PAGE);
      }
      var zi, bytes := ZoneIndex(size);
      ClassFits(size, zi);
      if heads[zi].Some? {
        var a := TakeChunk(zi);
        return Some(a);
      }
      var z: Page;
      if spare.Some? {
        z := PopSpare();
      } else {
        var p := AllocPages(zoneSize / PAGE, {});
        if p == None { return None; }
        z := p.value;
        Adopt(z);
      }
      var a := StartZone(z, zi);
      r := Some(a);
    }

    /** rt_free */
    method Free(ptr: Option<Addr>)
      requires Valid() && (ptr.Some? ==> ptr.value in blocks)
      modifies this, pages
      ensures Valid() && blocks == if ptr.Some? then old(blocks) - {ptr.value} else old(blocks)
    {
      hide Valid;
      if ptr == None { return; }
      Release(ptr.value);
    }

    method Release(a: Addr)
      requires Valid() && a in blocks
      modifies this, pages
      ensures Valid() && blocks == old(blocks) - {a}
    {
      hide Owned, FreeAre, AllOk, RowsAre, SparesAre, BlocksAre, Slots, Mark, AllAre, Put, ZoneOk;
      WhichKind(owner, usage, large, zones, bodies, link, zoneSize, blocks, a);
      var p := a / PAGE;
      if usage[p].kind == Large {
        var n := ForgetLarge(p);
        FreePages(p, n, {});
        return;
      }
      var z := p - usage[p].size;
      GiveChunk(z, a);
      RowOf(z);
      var h := zones[z];
      if h.nfree == h.nmax && (znext[z].Some? || heads[h.index] != Some(z)) {
        Retire(z);
        if spareCnt > SPARES {
          var y := DropSpare();
          FreePages(y, zoneSize / PAGE, {});
        }
      }
    }

    /** A large block's entry in the page map is cleared, before its pages go back. */
    method ForgetLarge(l: Page) returns (n: nat)
      requires Inv({}) && l in large && l in usage && usage[l].size == large[l]
      modifies `usage, `owner, `large, `blocks
      ensures Inv({}) && n > 0 && AllAre(owner, l, n, Held) && blocks == old(blocks) - {l * PAGE}
    {
      hide Owned, FreeAre, AllOk, RowsAre, SparesAre, BlocksAre, ZoneOk, Slots, Inv, PageList.Valid, Mark, AllAre;
      Open({});
      n := usage[l].size;
      DisownedLarge(owner, usage, zones.Keys, large, zoneSize / PAGE, l, usage[l].(size := 0));
      OffList(owner, pages.runs, l, n, InLarge(l), Held);
      MarkAll(owner, l, n, InLarge(l), Held);
      BlocksUnlarge(owner, usage, large, zones, bodies, link, zoneSize, blocks, l);
      usage := usage[l := usage[l].(size := 0)];
      owner := Mark(owner, l, n, Held);
      large := large - {l};
      blocks := blocks - {l * PAGE};
      Shut({});
    }

    /** The chunk goes on its zone's free list, and the zone back on its row. */
    method GiveChunk(z: Page, a: Addr)
      requires Inv({}) && z in bodies && a in bodies[z].live
      modifies `zones, `znext, `heads, `rows, `bodies, `blocks, `link
      ensures Inv({}) && blocks == old(blocks) - {a}
      ensures z in bodies && z in zones && zones[z].nfree > 0
    {
      hide Owned, FreeAre, AllOk, RowsAre, SparesAre, BlocksAre, ZoneOk, Slots, Inv, PageList.Valid;
      Open({});
      ZoneIsThere(z);
      var h := zones[z];
      ghost var b', slots := Body([a] + bodies[z].chain, bodies[z].live - {a}), Slots(zones, bodies);
      var h' := h.(nfree := h.nfree + 1, free := Some(a));
      Given(z, a, h', b');
      RowAt(znext, heads, rows, slots, h.index);
      link := link[a := h.free];
      if h.nfree == 0 {
        PushRow(h.index, z, slots, zones.Keys - bodies.Keys - {});
      }
      zones := zones[z := h'];
      bodies := bodies[z := b'];
      blocks := blocks - {a};
      Shut({});
    }

    /** What giving chunk a back to zone z does to everything but the rows. */
    lemma Given(z: Page, a: Addr, h': Zone, b': Body)
      requires Inv({}) && z in bodies && z in zones && a in bodies[z].live
      requires h' == zones[z].(nfree := zones[z].nfree + 1, free := Some(a))
      requires b' == Body([a] + bodies[z].chain, bodies[z].live - {a})
      ensures zones[z := h'].Keys == zones.Keys && bodies[z := b'].Keys == bodies.Keys
      ensures zones[z].index < NZONES && zones[z].nfree >= 0 && a in blocks && blocks[a] == zones[z].chunk
      ensures AllOk(zones[z := h'], bodies[z := b'], link[a := zones[z].free], zoneSize)
      ensures BlocksAre(blocks - {a}, zones[z := h'], bodies[z := b'], large)
      ensures zones[z].nfree == 0 ==> z !in Slots(zones, bodies)
      ensures var slots := Slots(zones, bodies);
              Slots(zones[z := h'], bodies[z := b']) == if zones[z].nfree == 0 then slots[z := zones[z].index] else slots
    {
      hide Owned, FreeAre, AllOk, RowsAre, SparesAre, ZoneOk, Slots;
      var h, b := zones[z], bodies[z];
      LiveAt(owner, usage, large, zones, bodies, link, zoneSize, z, a);
      assert ChunksListed(blocks, h.chunk, b.live);
      ZoneKnown(z, h, zoneSize, link, b);
      ZoneCounts(z, h, zoneSize, link, b);
      GiveBack(z, h, zoneSize, link, b, a);
      AllSet(owner, usage, large, zones, bodies, link, zoneSize, z, h', b', link[a := h.free]);
      BlocksGive(owner, usage, large, zones, bodies, link, zoneSize, blocks, z, h', b', a);
      SlotsSet(zones, bodies, z, h', b');
      SlotIs(z);
      if h.nfree > 0 { assert Slots(zones, bodies)[z := h.index] == Slots(zones, bodies); }
    }

    lemma ZoneIsThere(z: Page)
      requires ZonesOk() && z in bodies
      ensures z in zones && ZoneOk(z, zones[z], zoneSize, link, bodies[z])
    {
    }

    lemma SlotIs(z: Page)
      requires z in bodies && z in zones
      ensures zones[z].nfree > 0 ==> z in Slots(zones, bodies) && Slots(zones, bodies)[z] == zones[z].index
      ensures zones[z].nfree <= 0 ==> z !in Slots(zones, bodies)
    {
    }

    lemma RowOf(z: Page)
      requires ZonesOk() && RowsOk() && z in bodies && z in zones && zones[z].nfree > 0
      ensures |heads| == |rows| == NZONES && zones[z].index < NZONES && z in znext
      ensures z in rows[zones[z].index]
    {
      var i := zones[z].index;
      SlotIs(z);
      assert RowIs(znext, heads[i], rows[i], Slots(zones, bodies), i);
      var k :| 0 <= k < |rows[i]| && rows[i][k] == z;
      assert Follows(znext, rows[i], k);
    }

    /** Walk the row to the cell that points to z and make it point behind z. */
    method Unlink(z: Page, i: nat)
      requires Inv({}) && z in bodies && z in zones && zones[z].nfree > 0 && zones[z].index == i
      modifies `znext, `heads, `rows
      ensures RowsAre(znext, heads, rows, Slots(zones, bodies) - {z}) && SparesOk({})
    {
      hide Owned, FreeAre, AllOk, RowsAre, SparesAre, BlocksAre, ZoneOk, Slots, Inv;
      Parts({});
      ghost var slots := Slots(zones, bodies);
      RowOf(z);
      RowAt(znext, heads, rows, slots, i);
      ghost var row := rows[i];
      ghost var end: nat :| end < |row| && row[end] == z;
      var prev: Option<Page>, cur := None, heads[i];
      ghost var k: nat := 0;
      while cur != Some(z)
        invariant k <= end && cur == Some(row[k]) && prev == if k == 0 then None else Some(row[k - 1])
        decreases end - k
      {
        assert Follows(znext, row, k);
        prev, cur := cur, znext[cur.value];
        k := k + 1;
      }
      RowsDrop(znext, heads, rows, slots, i, k);
      NotSpare(row, heads[i], i);
      assert k > 0 ==> heads[i := heads[i]] == heads;
      if prev.None? { heads := heads[i := znext[z]]; } else { znext := znext[prev.value := znext[z]]; }
      rows := rows[i := row[..k] + row[k + 1..]];
      SparesFrame(old(znext), znext, spare, spares, zones.Keys - bodies.Keys - {});
    }

    lemma Parts(loose: set<Page>)
      requires Inv(loose)
      ensures Config() && PagesOk() && MapOk() && ZonesOk() && RowsOk() && SparesOk(loose) && BlocksOk()
    {
    }

    lemma NotSpare(row: seq<Page>, head: Option<Page>, i: nat)
      requires RowIs(znext, head, row, Slots(zones, bodies), i)
      ensures forall y :: y in row ==> y in bodies
    {
    }

    /** An empty zone leaves its row for the spare list. */
    method Retire(z: Page)
      requires Inv({}) && z in bodies && z in zones && zones[z].nfree == zones[z].nmax
      modifies `zones, `znext, `heads, `rows, `bodies, `spare, `spares, `spareCnt
      ensures Inv({}) && spareCnt == old(spareCnt) + 1 && blocks == old(blocks)
    {
      hide Owned, FreeAre, AllOk, RowsAre, SparesAre, BlocksAre, ZoneOk, Slots, Inv, PageList.Valid;
      Open({});
      var h := zones[z].(magic := -1);
      Emptied(z);
      Unlink(z, h.index);
      Retired(z, h);
      zones := zones[z := h];
      bodies := bodies - {z};
      znext := znext[z := spare];
      spare := Some(z);
      spareCnt := spareCnt + 1;
      spares := [z] + spares;
      Shut({});
    }

    /** What making empty zone z, taken off its row, the first spare one does. */
    lemma Retired(z: Page, h: Zone)
      requires RowsAre(znext, heads, rows, Slots(zones, bodies) - {z}) && SparesOk({}) && ZonesOk() && BlocksOk()
      requires z in zones && z in bodies && bodies[z].live == {}
      ensures zones[z := h].Keys == zones.Keys
      ensures RowsAre(znext[z := spare], heads, rows, Slots(zones[z := h], bodies - {z}))
      ensures SparesAre(znext[z := spare], Some(z), [z] + spares, zones.Keys - (bodies - {z}).Keys - {})
      ensures AllOk(zones[z := h], bodies - {z}, link, zoneSize)
      ensures BlocksAre(blocks, zones[z := h], bodies - {z}, large)
    {
      hide AllOk, RowsAre, SparesAre, BlocksAre, Slots;
      var s := zones.Keys - bodies.Keys - {};
      assert zones.Keys - (bodies - {z}).Keys - {} == s + {z};
      SlotsRetire(zones, bodies, z, h);
      RowsLink(znext, heads, rows, Slots(zones, bodies) - {z}, z, spare);
      SparesPush(znext, spare, spares, s, z, s + {z});
      AllBut(zones, bodies, link, zoneSize, z, h);
      BlocksRetire(blocks, zones, bodies, large, z, h);
    }

    lemma Emptied(z: Page)
      requires ZonesOk() && z in bodies && z in zones && zones[z].nfree == zones[z].nmax
      ensures bodies[z].live == {} && zones[z].nfree > 0
    {
      ZoneCounts(z, zones[z], zoneSize, link, bodies[z]);
    }

    /** The entries of a zone's pages in the page map are cleared. */
    method ClearUsage(y: Page)
      modifies `usage
      ensures UsageOutside(old(usage), usage, y, zoneSize / PAGE)
      ensures forall q: Page :: y <= q < y + zoneSize / PAGE ==> q in usage && usage[q] == Usage(FreePage, 0)
    {
      var off: nat := 0;
      while off < zoneSize / PAGE
        invariant off <= zoneSize / PAGE && UsageOutside(old(usage), usage, y, off)
        invariant forall q: Page :: y <= q < y + off ==> q in usage && usage[q] == Usage(FreePage, 0)
      {
        usage := usage[y + off := Usage(FreePage, 0)];
        off := off + 1;
      }
    }

    /** The first spare zone gives up its pages. */
    method DropSpare() returns (y: Page)
      requires Inv({}) && spareCnt > 0
      modifies `usage, `zones, `owner, `spare, `spares, `spareCnt
      ensures Inv({}) && AllAre(owner, y, zoneSize / PAGE, Held) && spareCnt == old(spareCnt) - 1
    {
      hide Owned, FreeAre, AllOk, RowsAre, SparesAre, BlocksAre, ZoneOk, Slots, Inv, PageList.Valid, Mark, AllAre;
      Open({});
      SpareThere();
      ghost var s := zones.Keys - bodies.Keys - {};
      SparesPop(znext, spare, spares, s);
      y := spare.value;
      spare := znext[y];
      spareCnt := spareCnt - 1;
      spares := spares[1..];
      ClearUsage(y);
      DisownedZone(owner, old(usage), zones.Keys, large, zoneSize / PAGE, y, usage);
      OffList(owner, pages.runs, y, zoneSize / PAGE, InZone(y), Held);
      HeaderOnly(zones, zones - {y}, bodies, link, zoneSize, blocks, large);
      MarkAll(owner, y, zoneSize / PAGE, InZone(y), Held);
      owner := Mark(owner, y, zoneSize / PAGE, Held);
      zones := zones - {y};
      assert zones.Keys == old(zones).Keys - {y};
      assert zones.Keys - bodies.Keys - {} == s - {y};
      Shut({});
    }

    lemma SpareThere()
      requires SparesOk({}) && spareCnt > 0
      ensures spare.Some?
    {
    }

    lemma GrantedEnough(size: nat, cap: nat)
      requires Granted(size, cap)
      ensures size <= cap
    {
    }

    ghost predicate IsLarge(a: Addr)
      reads `large
    {
      a % PAGE == 0 && a / PAGE in large
    }

    /** A chunk is kept when the new size belongs to its class; a large block never. */
    ghost predicate Stays(a: Addr, size: nat)
      reads `large, `blocks
    {
      !IsLarge(a) && a in blocks && size > 0 && Rounded(size) == blocks[a]
    }

    /** What rt_realloc asks rt_malloc for: zoneindex rounds the size of a chunk first. */
    ghost function Asked(a: Addr, size: nat): nat
      reads `large
    {
      if IsLarge(a) then size else Rounded(size)
    }

    /** rt_realloc; copied is the length of the copy. */
    method Realloc(ptr: Option<Addr>, size: nat) returns (r: Option<Addr>, copied: nat)
      requires Valid() && size < WORD && (ptr.Some? ==> ptr.value in blocks)
      modifies this, pages
      ensures Valid()
      ensures ptr.Some? ==> (r == ptr <==> old(Stays(ptr.value, size)))
      ensures r == None <==> if ptr == None then old(NoRoom(size))
                             else size == 0 || (!old(Stays(ptr.value, size)) && old(NoRoom(Asked(ptr.value, size))))
      ensures r == None ==> blocks == if ptr.Some? && size == 0 then old(blocks) - {ptr.value} else old(blocks)
      ensures r.Some? && r == ptr ==> blocks == old(blocks) && size <= blocks[r.value]
      ensures r.Some? && r != ptr ==>
                && r.value !in old(blocks) && r.value in blocks
                && blocks == old(blocks)[r.value := blocks[r.value]] - (if ptr.Some? then {ptr.value} else {})
                && size <= blocks[r.value] && copied <= blocks[r.value]
      ensures r.Some? && r != ptr && ptr.Some? ==>
                var asked, was := old(Asked(ptr.value, size)), old(blocks)[ptr.value];
                && size <= asked && copied == if asked > was then was else asked
    {
      hide Valid, Granted, NoRoom, Stays, Asked;
      if ptr == None {
        copied := 0;
        r := Malloc(size);
        if r.Some? { GrantedEnough(size, blocks[r.value]); }
        return;
      }
      r, copied := Resize(ptr.value, size);
    }

    method Resize(a: Addr, size: nat) returns (r: Option<Addr>, copied: nat)
      requires Valid() && a in blocks && size < WORD
      modifies this, pages
      ensures Valid()
      ensures r == Some(a) <==> old(Stays(a, size))
      ensures r == None <==> size == 0 || (!old(Stays(a, size)) && old(NoRoom(Asked(a, size))))
      ensures r == None ==> blocks == if size == 0 then old(blocks) - {a} else old(blocks)
      ensures r == Some(a) ==> blocks == old(blocks) && size <= blocks[a]
      ensures r.Some? && r != Some(a) ==>
                && r.value !in old(blocks) && r.value in blocks
                && blocks == old(blocks)[r.value := blocks[r.value]] - {a}
                && size <= blocks[r.value] && copied <= blocks[r.value]
      ensures r.Some? && r != Some(a) ==>
                var asked, was := old(Asked(a, size)), old(blocks)[a];
                && size <= asked && copied == if asked > was then was else asked
    {
      hide Owned, FreeAre, AllOk, RowsAre, SparesAre, BlocksAre, Slots, ZoneOk, Inv, Granted, ChunkSize, NoRoom, ClassOf, IsLarge;
      copied := 0;
      if size == 0 {
        Release(a);
        return None, 0;
      }
      Kind(a);
      var u := usage[a / PAGE];
      var bytes := size;
      var osize;
      if u.kind == Large {
        osize := u.size * PAGE;
      } else {
        var z := zones[a / PAGE - u.size];
        var _, rounded := ZoneIndex(size);
        bytes := rounded;
        osize := z.chunk;
        if osize == bytes { return Some(a), 0; }
      }
      r := Malloc(bytes);
      if r == None { return None, 0; }
      GrantedEnough(bytes, blocks[r.value]);
      copied := if bytes > osize then osize else bytes;
      Release(a);
    }

    /** The size rt_realloc reads back is that of the block. */
    lemma Kind(a: Addr)
      requires Valid() && a in blocks
      ensures a / PAGE in usage && (usage[a / PAGE].kind == Large <==> IsLarge(a))
      ensures var u := usage[a / PAGE];
              && (u.kind == Large ==> blocks[a] == u.size * PAGE)
              && (u.kind != Large ==> a / PAGE >= u.size && a / PAGE - u.size in zones
                                      && blocks[a] == zones[a / PAGE - u.size].chunk)
    {
      hide Owned, FreeAre, AllOk, RowsAre, SparesAre, Slots, ZoneOk, ChunksListed;
      WhichKind(owner, usage, large, zones, bodies, link, zoneSize, blocks, a);
      var u := usage[a / PAGE];
      if u.kind != Large { LiveHome(a / PAGE - u.size, a); }
      if IsLarge(a) { LargeKind(a / PAGE); }
    }

    lemma LargeKind(l: Page)
      requires MapOk() && l in large
      ensures l in usage && usage[l].kind == Large
    {
      assert LargePages(owner, usage, l, large[l]);
    }

    // ---- what holds of every reachable heap -----------------------------------------------

    /** Every block lies in the pages of one zone, behind its header, or fills those of
        one large block. */
    lemma BlockHome(a: Addr) returns (lo: Page, n: nat, o: Owner)
      requires Valid() && a in blocks
      ensures n > 0 && AllAre(owner, lo, n, o) && (o == InZone(lo) || o == InLarge(lo))
      ensures lo * PAGE <= a && a + blocks[a] <= (lo + n) * PAGE
      ensures o == InZone(lo) ==> lo in bodies && a in bodies[lo].live && n == zoneSize / PAGE && lo * PAGE + HEADER <= a
      ensures o == InLarge(lo) ==> a == lo * PAGE && lo in large
    {
      hide AllOk, FreeAre, RowsAre, SparesAre, Slots, ZoneOk, Owned, BlocksAre, AllAre;
      IsPlaced(blocks, zones, bodies, large, a);
      if a % PAGE == 0 && a / PAGE in large {
        lo, n, o := a / PAGE, large[a / PAGE], InLarge(a / PAGE);
        LargeHome(lo);
      } else {
        var z :| z in bodies && a in bodies[z].live;
        LiveAt(owner, usage, large, zones, bodies, link, zoneSize, z, a);
        LiveHome(z, a);
        lo, n, o := z, zoneSize / PAGE, InZone(z);
      }
    }

    lemma LargeHome(l: Page)
      requires MapOk() && BlocksOk() && l in large
      ensures large[l] > 0 && AllAre(owner, l, large[l], InLarge(l)) && l * PAGE in blocks && blocks[l * PAGE] == large[l] * PAGE
    {
      assert LargePages(owner, usage, l, large[l]);
    }

    lemma LiveHome(z: Page, a: Addr)
      requires MapOk() && BlocksOk() && z in bodies && z in zones && a in bodies[z].live
      ensures AllAre(owner, z, zoneSize / PAGE, InZone(z)) && a in blocks && blocks[a] == zones[z].chunk
    {
      assert ChunksListed(blocks, zones[z].chunk, bodies[z].live) && ZonePages(owner, usage, z, zoneSize / PAGE);
    }

    /** Blocks handed out are disjoint, whatever was allocated and freed before. */
    lemma BlocksDisjoint(a: Addr, b: Addr)
      requires Valid() && a in blocks && b in blocks && a < b
      ensures a + blocks[a] <= b
    {
      hide FreeAre, RowsAre, SparesAre, Slots, Inv, Valid;
      var l, n, o := BlockHome(a);
      var m, k, p := BlockHome(b);
      if o == p {
        if o == InZone(l) { SameZoneApart(l, a, b); }
      } else {
        RunsApart(owner, l, n, o, m, k, p);
      }
    }

    lemma SameZoneApart(z: Page, a: Addr, b: Addr)
      requires Valid() && z in bodies && a in bodies[z].live && b in bodies[z].live && a < b
      ensures a in blocks && a + blocks[a] <= b
    {
      hide FreeAre, RowsAre, SparesAre, Slots, Owned, Laid, Chain;
      assert ZoneOk(z, zones[z], zoneSize, link, bodies[z]) && ChunksListed(blocks, zones[z].chunk, bodies[z].live);
      CarvedApart(zones[z].base, zones[z].chunk, zones[z].uindex + 1);
    }

    /** For every zone: the two counts of free chunks agree, and it is on the row of its
        class exactly when it has one. */
    lemma ZoneAccounts(z: Page)
      requires Valid() && z in bodies
      ensures z in zones && |rows| == NZONES && zones[z].index < NZONES
      ensures var h := zones[z]; var b := bodies[z];
              && h.nfree == (h.nmax - 1 - h.uindex) + |b.chain| == h.nmax - |b.live|
              && h.chunk == ChunkSize(h.index)
              && (forall i :: 0 <= i < NZONES ==> (z in rows[i] <==> i == h.index && h.nfree > 0))
    {
      hide FreeAre, SparesAre, Owned, BlocksAre;
      var h := zones[z];
      ZoneCounts(z, h, zoneSize, link, bodies[z]);
      ZoneKnown(z, h, zoneSize, link, bodies[z]);
      SlotIs(z);
      forall i | 0 <= i < NZONES ensures z in rows[i] <==> i == h.index && h.nfree > 0 {
        assert RowIs(znext, heads[i], rows[i], Slots(zones, bodies), i);
      }
    }

    /** A small request fails exactly when every zone of its class is full, no zone is spare
        and no run of free pages holds a zone. */
    lemma SmallRefused(size: nat)
      requires Valid() && 0 < size < zoneLimit
      ensures NoRoom(size) <==>
              && (forall z :: z in bodies ==> z in zones && (zones[z].index == ClassOf(size) ==> zones[z].nfree == 0))
              && spareCnt == 0 && Take(pages.runs, zoneSize / PAGE).1 == None
    {
      hide FreeAre, Owned, BlocksAre, Take;
      var i := ClassOf(size);
      HeadsFit();
      RowAt(znext, heads, rows, Slots(zones, bodies), i);
      forall z | z in bodies
        ensures z in zones && (zones[z].index == i ==> zones[z].nfree >= 0 && (zones[z].nfree > 0 <==> z in rows[i])) {
        ZoneAccounts(z);
      }
    }

    /** Every page the heap was given is on the page list, with a caller, in a zone or in
        a large block, and the page map leads each page of a zone back to its header. */
    lemma PageAccounts(p: Page)
      requires Valid() && p in owner
      ensures Covers(pages.runs, p) <==> owner[p] == OnList
      ensures owner[p].InZone? ==> p in usage && usage[p].kind == Small && p >= usage[p].size
                                   && p - usage[p].size == owner[p].z && owner[p].z in zones
      ensures owner[p].InLarge? ==> owner[p].l in large && owner[p].l * PAGE in blocks
    {
      hide AllOk, RowsAre, SparesAre, Slots;
      if owner[p].InZone? { assert ZonePages(owner, usage, owner[p].z, zoneSize / PAGE); }
    }

    /** Spare zones hold no block, and there are at most two. */
    lemma SparesEmpty()
      requires Valid()
      ensures spareCnt == |spares| <= 2
      ensures forall z, a :: z in spares && a in blocks ==> !(z * PAGE <= a < z * PAGE + zoneSize)
    {
      hide RowsAre, Slots, FreeAre, AllOk, BlocksAre, Owned;
      forall z, a | z in spares && z * PAGE <= a < z * PAGE + zoneSize ensures a !in blocks {
        NotABlock(owner, usage, large, zones, bodies, link, zoneSize, blocks, z, a);
      }
    }
  }
}
