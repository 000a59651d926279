/** slab.c, the lower half: whole pages handed out in runs. */
module Pages {
  // The free runs are kept on an address-sorted list whose links live in the first page of
  // each run.

  import opened Chains

  /** A page, by its number; pointer steps in the source are whole pages. */
  type Page = nat

  datatype Run = Run(start: Page, count: nat)

  ghost predicate In(r: Run, p: Page) {
    r.start <= p < r.start + r.count
  }

  ghost predicate Covers(rs: seq<Run>, p: Page) {
    exists i :: 0 <= i < |rs| && In(rs[i], p)
  }

  /** Sorted, disjoint and coalesced: between two runs lies a page of neither. */
  ghost predicate Canonical(rs: seq<Run>) {
    && (forall i :: 0 <= i < |rs| ==> rs[i].count > 0)
    && (forall i, j :: 0 <= i < j < |rs| ==> rs[i].start + rs[i].count < rs[j].start)
  }

  lemma CoversCons(r: Run, rs: seq<Run>, p: Page)
    ensures Covers([r] + rs, p) <==> In(r, p) || Covers(rs, p)
  {
    var c := [r] + rs;
    if In(r, p) { assert In(c[0], p); }
    if Covers(rs, p) {
      var i :| 0 <= i < |rs| && In(rs[i], p);
      assert In(c[i + 1], p);
    }
    if Covers(c, p) {
      var i :| 0 <= i < |c| && In(c[i], p);
      if i > 0 { assert In(rs[i - 1], p); }
    }
  }

  lemma CoversSplit(rs: seq<Run>, p: Page)
    requires rs != []
    ensures Covers(rs, p) <==> In(rs[0], p) || Covers(rs[1..], p)
  {
    assert rs == [rs[0]] + rs[1..];
    CoversCons(rs[0], rs[1..], p);
  }

  lemma CanonicalTail(rs: seq<Run>)
    requires Canonical(rs) && rs != []
    ensures Canonical(rs[1..])
    ensures forall p: Page :: Covers(rs[1..], p) ==> p > rs[0].start + rs[0].count
  {
    forall p: Page | Covers(rs[1..], p) ensures p > rs[0].start + rs[0].count {
      var i :| 0 <= i < |rs[1..]| && In(rs[1..][i], p);
      assert rs[1..][i] == rs[i + 1];
    }
  }

  lemma CanonicalCons(r: Run, rs: seq<Run>)
    requires Canonical(rs) && r.count > 0
    requires forall p: Page :: Covers(rs, p) ==> p > r.start + r.count
    ensures Canonical([r] + rs)
  {
    forall j | 0 <= j < |rs| ensures r.start + r.count < rs[j].start {
      assert In(rs[j], rs[j].start) && Covers(rs, rs[j].start);
    }
  }

  /** A set of free pages has one canonical list: the list forgets the order in
      which runs were taken and given back. */
  lemma {:induction false} Unique(a: seq<Run>, b: seq<Run>)
    requires Canonical(a) && Canonical(b)
    requires forall p: Page :: Covers(a, p) <==> Covers(b, p)
    ensures a == b
  {
    FirstCovered(a);
    FirstCovered(b);
    if a != [] && b != [] {
      CanonicalTail(a);
      CanonicalTail(b);
      HeadsAgree(a, b);
      HeadsAgree(b, a);
      assert a[0] == b[0];
      forall p: Page ensures Covers(a[1..], p) <==> Covers(b[1..], p) {
        CoversSplit(a, p);
        CoversSplit(b, p);
      }
      Unique(a[1..], b[1..]);
      assert a == [a[0]] + a[1..] && b == [b[0]] + b[1..];
    }
  }

  lemma FirstCovered(rs: seq<Run>)
    requires Canonical(rs)
    ensures rs == [] <==> forall p: Page :: !Covers(rs, p)
  {
    if rs != [] { assert In(rs[0], rs[0].start) && Covers(rs, rs[0].start); }
  }

  lemma BeyondFirst(rs: seq<Run>)
    requires Canonical(rs) && rs != []
    ensures !Covers(rs, rs[0].start + rs[0].count)
  {
    CanonicalTail(rs);
    CoversSplit(rs, rs[0].start + rs[0].count);
  }

  lemma HeadsAgree(a: seq<Run>, b: seq<Run>)
    requires Canonical(a) && Canonical(b) && a != [] && b != []
    requires forall p: Page :: Covers(a, p) <==> Covers(b, p)
    ensures b[0].start <= a[0].start
    ensures a[0].start == b[0].start ==> a[0].count <= b[0].count
  {
    CanonicalTail(b);
    var p := a[0].start;
    assert In(a[0], p) && Covers(a, p);
    CoversSplit(b, p);
    BeyondFirst(b);
    var q := b[0].start + b[0].count;
    assert In(a[0], q) ==> Covers(a, q);
  }

  // ---- the list walked, as functions ------------------------------------------------

  /** rt_page_alloc: the first run long enough gives up its front. */
  ghost function Take(rs: seq<Run>, n: nat): (seq<Run>, Option<Page>) {
    if rs == [] then ([], None)
    else if rs[0].count > n then ([Run(rs[0].start + n, rs[0].count - n)] + rs[1..], Some(rs[0].start))
    else if rs[0].count == n then (rs[1..], Some(rs[0].start))
    else var t := Take(rs[1..], n); ([rs[0]] + t.0, t.1)
  }

  /** rt_page_free: the run joins its neighbours where it touches them. */
  ghost function Put(rs: seq<Run>, p: Page, n: nat): seq<Run> {
    if rs == [] then [Run(p, n)]
    else if rs[0].start + rs[0].count == p then
      if |rs| > 1 && p + n == rs[1].start then [Run(rs[0].start, rs[0].count + n + rs[1].count)] + rs[2..]
      else [Run(rs[0].start, rs[0].count + n)] + rs[1..]
    else if rs[0].start == p + n then [Run(p, rs[0].count + n)] + rs[1..]
    else if rs[0].start > p + n then [Run(p, n)] + rs
    else [rs[0]] + Put(rs[1..], p, n)
  }

  /** Taking removes exactly the pages returned, and fails only when no run fits. */
  lemma {:induction false} TakeTakes(rs: seq<Run>, n: nat)
    requires Canonical(rs) && n > 0
    ensures var (rs', r) := Take(rs, n);
            && Canonical(rs')
            && (r == None ==> rs' == rs && forall i :: 0 <= i < |rs| ==> rs[i].count < n)
            && (r.Some? ==> forall p: Page ::
                  && (In(Run(r.value, n), p) ==> Covers(rs, p))
                  && (Covers(rs', p) <==> Covers(rs, p) && !In(Run(r.value, n), p)))
  {
    if rs != [] {
      CanonicalTail(rs);
      var (rs', r) := Take(rs, n);
      if rs[0].count < n {
        TakeTakes(rs[1..], n);
        var t := Take(rs[1..], n);
        CanonicalCons(rs[0], t.0);
        if r == None { assert rs == [rs[0]] + rs[1..]; }
      } else if rs[0].count > n {
        CanonicalCons(rs'[0], rs[1..]);
      }
      if r.Some? {
        forall p: Page
          ensures In(Run(r.value, n), p) ==> Covers(rs, p)
          ensures Covers(rs', p) <==> Covers(rs, p) && !In(Run(r.value, n), p)
        {
          CoversSplit(rs, p);
          if rs[0].count < n { CoversCons(rs[0], Take(rs[1..], n).0, p); }
          if rs[0].count > n { CoversCons(rs'[0], rs[1..], p); }
        }
      }
    }
  }

  /** First fit on a coalesced list: where n free pages lie in a row, the call
      succeeds, and it returns the lowest such place. */
  lemma {:induction false} TakeLowest(rs: seq<Run>, n: nat, p: Page)
    requires Canonical(rs) && n > 0 && forall q: Page :: p <= q < p + n ==> Covers(rs, q)
    ensures Take(rs, n).1.Some? && Take(rs, n).1.value <= p
    decreases |rs|
  {
    assert Covers(rs, p);
    CanonicalTail(rs);
    CoversSplit(rs, p);
    var end := rs[0].start + rs[0].count;
    if In(rs[0], p) {
      if end < p + n {
        assert Covers(rs, end);
        CoversSplit(rs, end);
      }
    } else {
      forall q: Page | p <= q < p + n ensures Covers(rs[1..], q) {
        CoversSplit(rs, q);
      }
      TakeLowest(rs[1..], n, p);
    }
  }

  ghost predicate Apart(rs: seq<Run>, p: Page, n: nat) {
    forall q: Page :: p <= q < p + n ==> !Covers(rs, q)
  }

  lemma ApartOne(rs: seq<Run>, k: nat, p: Page, n: nat)
    requires Canonical(rs) && Apart(rs, p, n) && n > 0 && k < |rs|
    ensures p + n <= rs[k].start || rs[k].start + rs[k].count <= p
  {
    forall q: Page | p <= q < p + n ensures !In(rs[k], q) { assert In(rs[k], q) ==> Covers(rs, q); }
    assert !In(rs[k], p) && !In(rs[k], p + n - 1);
    if p <= rs[k].start < p + n { assert In(rs[k], rs[k].start); }
  }

  lemma ApartTail(rs: seq<Run>, p: Page, n: nat)
    requires Canonical(rs) && Apart(rs, p, n) && rs != [] && n > 0
    ensures Apart(rs[1..], p, n)
    ensures p + n <= rs[0].start || rs[0].start + rs[0].count <= p
  {
    forall q: Page | p <= q < p + n ensures !Covers(rs[1..], q) {
      CoversSplit(rs, q);
    }
    ApartOne(rs, 0, p, n);
  }

  /** Giving back a run adds exactly its pages. */
  lemma {:induction false} PutPuts(rs: seq<Run>, p: Page, n: nat)
    requires Canonical(rs) && n > 0 && Apart(rs, p, n)
    ensures Canonical(Put(rs, p, n))
    ensures forall q: Page :: Covers(Put(rs, p, n), q) <==> Covers(rs, q) || In(Run(p, n), q)
    decreases |rs|
  {
    var r := Run(p, n);
    if rs == [] {
      forall q: Page ensures Covers([r], q) <==> In(r, q) { CoversCons(r, [], q); assert [r] == [r] + []; }
    } else {
      CanonicalTail(rs);
      ApartTail(rs, p, n);
      var b := rs[0];
      if b.start + b.count == p {
        PutBehind(rs, p, n);
      } else if b.start >= p + n {
        PutInFront(rs, p, n);
      } else {
        PutPuts(rs[1..], p, n);
        CanonicalCons(b, Put(rs[1..], p, n));
        forall q: Page ensures Covers(Put(rs, p, n), q) <==> Covers(rs, q) || In(r, q) {
          CoversSplit(rs, q);
          CoversCons(b, Put(rs[1..], p, n), q);
        }
      }
    }
  }

  lemma PutBehind(rs: seq<Run>, p: Page, n: nat)
    requires Canonical(rs) && n > 0 && Apart(rs, p, n) && rs != [] && rs[0].start + rs[0].count == p
    ensures Canonical(Put(rs, p, n))
    ensures forall q: Page :: Covers(Put(rs, p, n), q) <==> Covers(rs, q) || In(Run(p, n), q)
  {
    CanonicalTail(rs);
    ApartTail(rs, p, n);
    var tail := rs[1..];
    if tail != [] {
      CanonicalTail(tail);
      ApartTail(tail, p, n);
    }
    var joins := tail != [] && p + n == tail[0].start;
    var first, rest := Put(rs, p, n)[0], if joins then rs[2..] else tail;
    assert Put(rs, p, n) == [first] + rest;
    assert joins ==> tail[1..] == rest;
    forall q: Page | Covers(rest, q) ensures q > first.start + first.count {
      if tail != [] { CoversSplit(tail, q); }
    }
    CanonicalCons(first, rest);
    forall q: Page ensures Covers(Put(rs, p, n), q) <==> Covers(rs, q) || In(Run(p, n), q) {
      CoversSplit(rs, q);
      if tail != [] { CoversSplit(tail, q); }
      CoversCons(first, rest, q);
    }
  }

  lemma PutInFront(rs: seq<Run>, p: Page, n: nat)
    requires Canonical(rs) && n > 0 && rs != [] && rs[0].start >= p + n
    ensures Canonical(Put(rs, p, n))
    ensures forall q: Page :: Covers(Put(rs, p, n), q) <==> Covers(rs, q) || In(Run(p, n), q)
  {
    CanonicalTail(rs);
    var first := Put(rs, p, n)[0];
    var rest := if rs[0].start == p + n then rs[1..] else rs;
    assert Put(rs, p, n) == [first] + rest;
    forall q: Page | Covers(rest, q) ensures q > first.start + first.count { CoversSplit(rs, q); }
    CanonicalCons(first, rest);
    forall q: Page ensures Covers(Put(rs, p, n), q) <==> Covers(rs, q) || In(Run(p, n), q) {
      CoversSplit(rs, q);
      CoversCons(first, rest, q);
    }
  }

  lemma StillCanonical(rs: seq<Run>, p: Page, n: nat)
    requires Canonical(rs) && n > 0
    ensures Canonical(Take(rs, n).0)
    ensures Apart(rs, p, n) ==> Canonical(Put(rs, p, n))
  {
    TakeTakes(rs, n);
    if Apart(rs, p, n) { PutPuts(rs, p, n); }
  }

  /** Allocating and freeing the same run restores the list. */
  lemma TakePut(rs: seq<Run>, n: nat)
    requires Canonical(rs) && n > 0 && Take(rs, n).1.Some?
    ensures Put(Take(rs, n).0, Take(rs, n).1.value, n) == rs
  {
    var (rs', r) := Take(rs, n);
    TakeTakes(rs, n);
    PutPuts(rs', r.value, n);
    Unique(Put(rs', r.value, n), rs);
  }

  // ---- every run of the page allocator --------------------------------------------------

  /** managed: the pages it was given; out: the runs handed out and not given back. */
  datatype State = State(managed: set<Page>, free: seq<Run>, out: set<Run>)

  datatype Event = Alloc(n: nat) | Free(r: Run)

  ghost predicate Out(s: State, p: Page) {
    exists r :: r in s.out && In(r, p)
  }

  /** The free list is canonical and covers the managed pages that are not out; no
      page is out twice. */
  ghost predicate Inv(s: State) {
    && Canonical(s.free)
    && (forall p: Page :: p in s.managed <==> Covers(s.free, p) || Out(s, p))
    && (forall p: Page :: Covers(s.free, p) ==> !Out(s, p))
    && (forall r :: r in s.out ==> r.count > 0)
    && (forall r, q, p: Page :: r in s.out && q in s.out && In(r, p) && In(q, p) ==> r == q)
  }

  ghost function Apply(s: State, e: Event): State {
    match e
    case Alloc(n) =>
      if n == 0 || Take(s.free, n).1 == None then s
      else s.(free := Take(s.free, n).0, out := s.out + {Run(Take(s.free, n).1.value, n)})
    case Free(r) => s.(free := Put(s.free, r.start, r.count), out := s.out - {r})
  }

  ghost predicate Allowed(s: State, e: Event) {
    e.Free? ==> e.r in s.out
  }

  lemma AllocKeeps(s: State, n: nat)
    requires Inv(s)
    ensures Inv(Apply(s, Alloc(n)))
  {
    if n > 0 && Take(s.free, n).1.Some? {
      TakeTakes(s.free, n);
      var s', r := Apply(s, Alloc(n)), Run(Take(s.free, n).1.value, n);
      forall p: Page ensures Out(s', p) <==> Out(s, p) || In(r, p) {
        if In(r, p) { assert r in s'.out; }
        if Out(s, p) { var q :| q in s.out && In(q, p); assert q in s'.out; }
      }
      forall q, p: Page | q in s.out && In(q, p) ensures !In(r, p) {
        assert Out(s, p);
      }
    }
  }

  lemma FreeKeeps(s: State, r: Run)
    requires Inv(s) && r in s.out
    ensures Inv(Apply(s, Free(r)))
  {
    var s' := Apply(s, Free(r));
    assert Apart(s.free, r.start, r.count) by {
      forall q | r.start <= q < r.start + r.count ensures !Covers(s.free, q) {
        assert In(r, q) && Out(s, q);
      }
    }
    PutPuts(s.free, r.start, r.count);
    forall p: Page ensures Out(s', p) <==> Out(s, p) && !In(r, p) {
      if Out(s, p) && !In(r, p) { var q :| q in s.out && In(q, p); assert q in s'.out; }
      if Out(s', p) { var q :| q in s'.out && In(q, p); assert q in s.out; }
    }
    forall p: Page | In(r, p) ensures p in s.managed {
      assert Out(s, p);
    }
  }

  ghost predicate Runs(s: State, es: seq<Event>, s': State)
    decreases |es|
  {
    if es == [] then s' == s else Allowed(s, es[0]) && Runs(Apply(s, es[0]), es[1..], s')
  }

  lemma {:induction false} RunsKeep(s: State, es: seq<Event>, s': State)
    requires Inv(s) && Runs(s, es, s')
    ensures Inv(s') && s'.managed == s.managed
    decreases |es|
  {
    if es != [] {
      match es[0] {
        case Alloc(n) => AllocKeeps(s, n);
        case Free(r) => FreeKeeps(s, r);
      }
      RunsKeep(Apply(s, es[0]), es[1..], s');
    }
  }

  /** Whatever was allocated and freed in whatever order, the free list depends only
      on what is still out. */
  lemma OnlyOutMatters(s: State, es: seq<Event>, fs: seq<Event>, a: State, b: State)
    requires Inv(s) && Runs(s, es, a) && Runs(s, fs, b) && a.out == b.out
    ensures a.free == b.free
  {
    RunsKeep(s, es, a);
    RunsKeep(s, fs, b);
    forall p: Page ensures Covers(a.free, p) <==> Covers(b.free, p) {
      assert Out(a, p) <==> Out(b, p);
    }
    Unique(a.free, b.free);
  }

  // ---- the C functions --------------------------------------------------------------------

  /** The head of run i holds its length and the way to the next run. */
  ghost predicate Head(next: map<Page, Option<Page>>, count: map<Page, nat>, rs: seq<Run>, i: nat)
    requires i < |rs|
  {
    && rs[i].start in next && next[rs[i].start] == At(rs, i + 1)
    && rs[i].start in count && count[rs[i].start] == rs[i].count
  }

  ghost function At(rs: seq<Run>, i: nat): Option<Page> {
    if i < |rs| then Some(rs[i].start) else None
  }

  ghost predicate Listed(next: map<Page, Option<Page>>, count: map<Page, nat>, head: Option<Page>, rs: seq<Run>) {
    head == At(rs, 0) && forall i :: 0 <= i < |rs| ==> Head(next, count, rs, i)
  }

  /** The cell that points to run k: the list head, or the link of the run before. */
  ghost function Before(rs: seq<Run>, k: nat): Option<Page>
    requires k <= |rs|
  {
    if k == 0 then None else Some(rs[k - 1].start)
  }

  ghost function Pointed(next: map<Page, Option<Page>>, head: Option<Page>, cell: Option<Page>): Option<Page> {
    if cell == None then head else if cell.value in next then next[cell.value] else None
  }

  /** Nothing was written but the cell in front of run k and the head of page p. */
  ghost predicate OnlyWrote(next: map<Page, Option<Page>>, next': map<Page, Option<Page>>,
                            count: map<Page, nat>, count': map<Page, nat>, cell: Option<Page>, p: Page) {
    && (forall q :: q in next && q != p && Some(q) != cell ==> q in next' && next'[q] == next[q])
    && (forall q :: q in count && q != p ==> q in count' && count'[q] == count[q])
  }

  /** Runs k to m made way for those of mid. */
  ghost function Splice(was: seq<Run>, k: nat, mid: seq<Run>, m: nat): seq<Run>
    requires k <= m <= |was|
  {
    was[..k] + mid + was[m..]
  }

  lemma SpliceAt(was: seq<Run>, k: nat, mid: seq<Run>, m: nat)
    requires k <= m <= |was| && |mid| <= 1
    ensures var now := Splice(was, k, mid, m);
            && |now| == k + |mid| + (|was| - m)
            && (forall i :: 0 <= i < k ==> now[i] == was[i])
            && (mid != [] ==> now[k] == mid[0])
            && (forall i {:trigger now[i]} :: k + |mid| <= i < |now| ==> now[i] == was[i - k - |mid| + m])
            && (forall i {:trigger was[i]} :: m <= i < |was| ==> was[i] == now[i - m + k + |mid|])
  {
  }

  lemma SplicedFresh(was: seq<Run>, k: nat, mid: seq<Run>, m: nat, p: Page, i: nat)
    requires k <= m <= |was| && |mid| <= 1 && i < |was| && (i < k || m <= i)
    requires if mid != [] then mid[0].start == p else k < m && was[k].start == p
    requires Canonical(was) && Canonical(Splice(was, k, mid, m))
    ensures was[i].start != p
    ensures k > 0 ==> p != was[k - 1].start && (i != k - 1 ==> was[i].start != was[k - 1].start)
  {
    hide Splice;
    SpliceAt(was, k, mid, m);
    if mid != [] && m <= i {
      assert Splice(was, k, mid, m)[i - m + k + 1] == was[i];
    }
  }

  lemma Spliced(next: map<Page, Option<Page>>, count: map<Page, nat>, head: Option<Page>, was: seq<Run>,
                next': map<Page, Option<Page>>, count': map<Page, nat>, head': Option<Page>,
                k: nat, mid: seq<Run>, m: nat, p: Page)
    requires k <= m <= |was| && |mid| <= 1
    requires if mid != [] then mid[0].start == p else k < m && was[k].start == p
    requires Canonical(was) && Listed(next, count, head, was) && Canonical(Splice(was, k, mid, m))
    requires OnlyWrote(next, next', count, count', Before(was, k), p)
    requires k > 0 ==> head' == head && was[k - 1].start in next'
    requires Pointed(next', head', Before(was, k)) == if mid != [] then Some(p) else At(was, m)
    requires mid != [] ==> p in next' && next'[p] == At(was, m) && p in count' && count'[p] == mid[0].count
    ensures Listed(next', count', head', Splice(was, k, mid, m))
  {
    hide Splice, Canonical;
    var now := Splice(was, k, mid, m);
    SpliceAt(was, k, mid, m);
    forall i | 0 <= i < |now| ensures Head(next', count', now, i) {
      if i < k {
        SplicedFresh(was, k, mid, m, p, i);
        assert Head(next, count, was, i);
      } else if i >= k + |mid| {
        var j := i - k - |mid| + m;
        SplicedFresh(was, k, mid, m, p, j);
        assert Head(next, count, was, j);
      }
    }
  }

  ghost function Cutting(rs: seq<Run>, k: nat, n: nat): seq<Run>
    requires k < |rs| && n <= rs[k].count
  {
    Splice(rs, k, if rs[k].count > n then [Run(rs[k].start + n, rs[k].count - n)] else [], k + 1)
  }

  lemma Assoc(rs: seq<Run>, k: nat, x: seq<Run>, rest: seq<Run>)
    requires k < |rs|
    ensures rs[..k] + ([rs[k]] + rest) == rs[..k + 1] + rest
    ensures rs[..k] + (x + rest) == rs[..k] + x + rest
    ensures rs[k..] != [] && rs[k..][0] == rs[k] && rs[k..][1..] == rs[k + 1..]
    ensures k + 1 < |rs| ==> rs[k..][1] == rs[k + 1] && rs[k..][2..] == rs[k + 2..]
  {
  }

  /** What is left to do once the walk has passed k runs. */
  ghost predicate TakeAt(rs: seq<Run>, k: nat, n: nat) {
    k <= |rs| && Take(rs, n) == (rs[..k] + Take(rs[k..], n).0, Take(rs[k..], n).1)
  }

  ghost predicate PutAt(rs: seq<Run>, k: nat, p: Page, n: nat) {
    k <= |rs| && Put(rs, p, n) == rs[..k] + Put(rs[k..], p, n)
  }

  lemma TakeWalk(rs: seq<Run>, k: nat, n: nat)
    requires k < |rs| && TakeAt(rs, k, n)
    ensures rs[k].count < n ==> TakeAt(rs, k + 1, n)
    ensures rs[k].count >= n ==> Take(rs, n) == (Cutting(rs, k, n), Some(rs[k].start))
  {
    var t := Take(rs[k..], n);
    var first := [Run(rs[k].start + n, if rs[k].count > n then rs[k].count - n else 0)];
    Assoc(rs, k, first, rs[k + 1..]);
    if rs[k].count < n {
      Assoc(rs, k, [], Take(rs[k + 1..], n).0);
    } else if rs[k].count == n {
      assert rs[..k] + [] == rs[..k];
    }
  }

  lemma TakeEnd(rs: seq<Run>, n: nat)
    requires TakeAt(rs, |rs|, n)
    ensures Take(rs, n) == (rs, None)
  {
    assert rs[..|rs|] == rs && rs[|rs|..] == [] && rs + [] == rs;
  }

  lemma PutWalk(rs: seq<Run>, k: nat, p: Page, n: nat)
    requires Canonical(rs) && Apart(rs, p, n) && n > 0
    requires k < |rs| && PutAt(rs, k, p, n)
    ensures p + n <= rs[k].start || rs[k].start + rs[k].count <= p
    ensures rs[k].start + rs[k].count < p ==> PutAt(rs, k + 1, p, n)
    ensures rs[k].start == p + n ==> Put(rs, p, n) == Splice(rs, k, [Run(p, rs[k].count + n)], k + 1)
    ensures rs[k].start > p + n ==> Put(rs, p, n) == Splice(rs, k, [Run(p, n)], k)
  {
    ApartOne(rs, k, p, n);
    var b, t := rs[k], rs[k..];
    if b.start + b.count < p {
      Assoc(rs, k, [], Put(rs[k + 1..], p, n));
    } else if b.start == p + n {
      Assoc(rs, k, [Run(p, b.count + n)], rs[k + 1..]);
    } else if b.start > p + n {
      Assoc(rs, k, [Run(p, n)], rs[k..]);
    }
  }

  lemma PutExtends(rs: seq<Run>, k: nat, p: Page, n: nat)
    requires k < |rs| && PutAt(rs, k, p, n) && rs[k].start + rs[k].count == p
    ensures Put(rs, p, n) == Extending(rs, k, n)
  {
    var b := rs[k];
    if k + 1 < |rs| {
      Assoc(rs, k, [Run(b.start, b.count + n + rs[k + 1].count)], rs[k + 2..]);
    }
    Assoc(rs, k, [Run(b.start, b.count + n)], rs[k + 1..]);
  }

  lemma PutEnd(rs: seq<Run>, p: Page, n: nat)
    requires PutAt(rs, |rs|, p, n)
    ensures Put(rs, p, n) == Splice(rs, |rs|, [Run(p, n)], |rs|)
  {
    assert rs[|rs|..] == [];
  }

  lemma WalkStart(rs: seq<Run>, p: Page, n: nat)
    ensures TakeAt(rs, 0, n) && PutAt(rs, 0, p, n)
  {
    assert rs[..0] == [] && rs[0..] == rs;
    assert [] + Take(rs, n).0 == Take(rs, n).0 && [] + Put(rs, p, n) == Put(rs, p, n);
  }

  ghost function Extending(rs: seq<Run>, k: nat, n: nat): seq<Run>
    requires k < |rs|
  {
    var r := rs[k];
    if k + 1 < |rs| && rs[k + 1].start == r.start + r.count + n then
      Splice(rs, k, [Run(r.start, r.count + n + rs[k + 1].count)], k + 2)
    else Splice(rs, k, [Run(r.start, r.count + n)], k + 1)
  }

  class PageList {
    var head: Option<Page>
    var next: map<Page, Option<Page>>
    var count: map<Page, nat>
    ghost var runs: seq<Run>

    ghost predicate Valid()
      reads this
    {
      Listed(next, count, head, runs) && Canonical(runs)
    }

    /** rt_page_init */
    constructor (p: Page, n: nat)
      requires n > 0
      ensures Valid() && runs == [Run(p, n)]
    {
      head, next, count, runs := None, map[], map[], [];
      new;
      Free(p, n);
    }

    /** *prev = v */
    method Store(prev: Option<Page>, v: Option<Page>)
      modifies `head, `next
      ensures prev == None ==> head == v && next == old(next)
      ensures prev.Some? ==> head == old(head) && next == old(next)[prev.value := v]
    {
      if prev.None? { head := v; } else { next := next[prev.value := v]; }
    }

    /** rt_page_alloc */
    method Alloc(n: nat) returns (r: Option<Page>)
      requires Valid()
      modifies this
      ensures Valid()
      ensures n == 0 ==> r == None && runs == old(runs)
      ensures n > 0 ==> (runs, r) == Take(old(runs), n)
    {
      hide Canonical, Listed, Cutting, Take, TakeAt, PutAt, Splice;
      if n == 0 { return None; }
      StillCanonical(runs, 0, n);
      WalkStart(runs, 0, n);
      HeadAt(0);
      var prev: Option<Page>, b := None, head;
      ghost var k: nat := 0;
      while b.Some?
        invariant unchanged(this) && k <= |runs| && prev == Before(runs, k) && b == At(runs, k)
        invariant TakeAt(runs, k, n)
        decreases |runs| - k
      {
        HeadAt(k);
        TakeWalk(runs, k, n);
        if count[b.value] >= n {
          Cut(prev, b.value, n, k);
          return b;
        }
        prev, b := b, next[b.value];
        k := k + 1;
      }
      TakeEnd(runs, n);
      r := None;
    }

    lemma HeadAt(k: nat)
      requires Valid() && k <= |runs|
      ensures k == 0 ==> head == At(runs, 0)
      ensures k > 0 ==> runs[k - 1].start in next && next[runs[k - 1].start] == At(runs, k)
      ensures k < |runs| ==> runs[k].start in next && runs[k].start in count && count[runs[k].start] == runs[k].count
      ensures k < |runs| ==> next[runs[k].start] == At(runs, k + 1)
    {
      if k > 0 { assert Head(next, count, runs, k - 1); }
      if k < |runs| { assert Head(next, count, runs, k); }
    }

    /** Run k gives up its first n pages. */
    method Cut(prev: Option<Page>, b: Page, n: nat, ghost k: nat)
      requires Valid() && k < |runs| && prev == Before(runs, k) && b == runs[k].start && 0 < n <= runs[k].count
      requires Canonical(Cutting(runs, k, n))
      modifies this
      ensures Valid() && runs == Cutting(old(runs), k, n)
    {
      hide Canonical, Listed, Splice;
      HeadAt(k);
      if count[b] > n {
        ghost var mid := [Run(b + n, runs[k].count - n)];
        if k > 0 { SplicedFresh(runs, k, mid, k + 1, b + n, k - 1); }
        var rest := b + n;
        next := next[rest := next[b]];
        count := count[rest := count[b] - n];
        Store(prev, Some(rest));
        Spliced(old(next), old(count), old(head), runs, next, count, head, k, mid, k + 1, rest);
      } else {
        Store(prev, next[b]);
        Spliced(old(next), old(count), old(head), runs, next, count, head, k, [], k + 1, b);
      }
      runs := Cutting(runs, k, n);
    }

    /** rt_page_free */
    method Free(p: Page, n: nat)
      requires Valid() && n > 0 && Apart(runs, p, n)
      modifies this
      ensures Valid() && runs == Put(old(runs), p, n)
    {
      hide Canonical, Listed, Apart, Put, PutAt, TakeAt, Splice, Extending;
      StillCanonical(runs, p, n);
      WalkStart(runs, p, n);
      HeadAt(0);
      var prev: Option<Page>, b := None, head;
      ghost var k: nat := 0;
      while b.Some?
        invariant unchanged(this) && k <= |runs| && prev == Before(runs, k) && b == At(runs, k)
        invariant PutAt(runs, k, p, n)
        decreases |runs| - k
      {
        HeadAt(k);
        PutWalk(runs, k, p, n);
        if b.value + count[b.value] == p {
          PutExtends(runs, k, p, n);
          Extend(b.value, n, k);
          return;
        }
        if b.value == p + n {
          JoinNext(prev, b.value, p, n, k);
          return;
        }
        if b.value > p + n { break; }
        prev, b := b, next[b.value];
        k := k + 1;
      }
      if k == |runs| { PutEnd(runs, p, n); }
      Insert(prev, b, p, n, k);
    }

    /** The run given back starts where run k ends, and may end where the next starts. */
    method Extend(b: Page, n: nat, ghost k: nat)
      requires Valid() && k < |runs| && b == runs[k].start && Canonical(Extending(runs, k, n))
      modifies this
      ensures Valid() && runs == Extending(old(runs), k, n)
    {
      hide Canonical, Listed, Splice;
      HeadAt(k);
      if k + 1 < |runs| { HeadAt(k + 1); }
      count := count[b := count[b] + n];
      var after := next[b];
      ghost var m := k + 1;
      if after == Some(b + count[b]) {
        Later(k);
        count := count[b := count[b] + count[after.value]];
        next := next[b := next[after.value]];
        m := k + 2;
      }
      ghost var mid := [Run(b, count[b])];
      if k > 0 { SplicedFresh(runs, k, mid, m, b, k - 1); }
      Spliced(old(next), old(count), old(head), runs, next, count, head, k, mid, m, b);
      runs := Extending(runs, k, n);
    }

    lemma Later(k: nat)
      requires Canonical(runs) && k + 1 < |runs|
      ensures runs[k].start != runs[k + 1].start
    {
    }

    /** The run given back ends where run k starts. */
    method JoinNext(prev: Option<Page>, b: Page, p: Page, n: nat, ghost k: nat)
      requires Valid() && k < |runs| && prev == Before(runs, k) && b == runs[k].start == p + n && n > 0
      requires Canonical(Splice(runs, k, [Run(p, runs[k].count + n)], k + 1))
      modifies this
      ensures Valid() && runs == Splice(old(runs), k, [Run(p, old(runs)[k].count + n)], k + 1)
    {
      hide Canonical, Listed, Splice;
      HeadAt(k);
      ghost var mid := [Run(p, runs[k].count + n)];
      if k > 0 { SplicedFresh(runs, k, mid, k + 1, p, k - 1); }
      count := count[p := count[b] + n];
      next := next[p := next[b]];
      Store(prev, Some(p));
      Spliced(old(next), old(count), old(head), runs, next, count, head, k, mid, k + 1, p);
      runs := Splice(runs, k, mid, k + 1);
    }

    /** The run given back touches none. */
    method Insert(prev: Option<Page>, b: Option<Page>, p: Page, n: nat, ghost k: nat)
      requires Valid() && k <= |runs| && prev == Before(runs, k) && b == At(runs, k)
      requires Canonical(Splice(runs, k, [Run(p, n)], k))
      modifies this
      ensures Valid() && runs == Splice(old(runs), k, [Run(p, n)], k)
    {
      hide Canonical, Listed, Splice;
      HeadAt(k);
      ghost var mid := [Run(p, n)];
      if k > 0 { SplicedFresh(runs, k, mid, k, p, k - 1); }
      count := count[p := n];
      next := next[p := b];
      Store(prev, Some(p));
      Spliced(old(next), old(count), old(head), runs, next, count, head, k, mid, k, p);
      runs := Splice(runs, k, mid, k);
    }
  }
}
