/** The event set of ipc.c. */
module Events {
  // Threads wait for all or any of some bits.

  import opened Kernel
  import opened Lists
  import opened Rings
  import opened Waiting

  type Bits = bv32

  /** thread->event_set and thread->event_info: the bits waited for, whether all of
      them (RT_EVENT_FLAG_AND) or any (RT_EVENT_FLAG_OR) are needed, and whether
      they are cleared on receipt (RT_EVENT_FLAG_CLEAR). After the wake-up `bits`
      is what was received. */
  datatype Wish = Wish(bits: Bits, all: bool, any: bool, clear: bool)

  datatype Outcome = Received(bits: Bits) | TimedOut | Invalid | Blocked

  // ---- bits --------------------------------------------------------------------

  function And(a: Bits, b: Bits): Bits {
    a & b
  }

  function Or(a: Bits, b: Bits): Bits {
    a | b
  }

  function Minus(a: Bits, b: Bits): Bits {
    a & !b
  }

  /** Every bit of a is in b. */
  predicate Below(a: Bits, b: Bits) {
    a & b == a
  }

  /** AND has precedence when both flags are given. */
  predicate Met(events: Bits, w: Wish) {
    if w.all then And(w.bits, events) == w.bits else w.any && And(w.bits, events) != 0
  }

  /** What a satisfied waiter receives. */
  function Share(events: Bits, w: Wish): Bits {
    if w.all then w.bits else And(w.bits, events)
  }

  function Rest(events: Bits, w: Wish): Bits {
    if w.clear then Minus(events, Share(events, w)) else events
  }

  // Bit by bit; m is a word with a single bit.

  predicate Single(m: Bits) {
    m != 0 && m & (m - 1) == 0
  }

  predicate Has(a: Bits, m: Bits) {
    a & m != 0
  }

  lemma BitLaws(a: Bits, b: Bits, m: Bits)
    requires Single(m)
    ensures Has(And(a, b), m) <==> Has(a, m) && Has(b, m)
    ensures Has(Or(a, b), m) <==> Has(a, m) || Has(b, m)
    ensures Has(Minus(a, b), m) <==> Has(a, m) && !Has(b, m)
    ensures Has(a, m) ==> a != 0
  {
    hide Single, Has, And, Or, Minus;
    if Has(And(a, b), m) { AndParts(a, b, m); }
    if Has(a, m) && Has(b, m) { AndBoth(a, b, m); }
    if Has(a, m) { OrFirst(a, b, m); } else if Has(b, m) { OrSecond(a, b, m); } else { OrNone(a, b, m); }
    if Has(Minus(a, b), m) {
      MinusFirst(a, b, m);
      if Has(b, m) { MinusTaken(a, b, m); }
    }
    if Has(a, m) && !Has(b, m) { MinusLeft(a, b, m); }
    ZeroBit(m);
  }

  lemma WholeBit(a: Bits, m: Bits)
    requires Single(m) && Has(a, m)
    ensures a & m == m && m != 0
  {
  }

  lemma ZeroBit(m: Bits)
    ensures !Has(0, m)
  {
  }

  lemma AndParts(a: Bits, b: Bits, m: Bits)
    requires Has(And(a, b), m)
    ensures Has(a, m) && Has(b, m)
  {
  }

  lemma AndBoth(a: Bits, b: Bits, m: Bits)
    requires Single(m) && Has(a, m) && Has(b, m)
    ensures Has(And(a, b), m)
  {
    hide Single, Has;
    WholeBit(a, m);
    WholeBit(b, m);
    AndWhole(a, b, m);
  }

  lemma AndWhole(a: Bits, b: Bits, m: Bits)
    requires a & m == m && b & m == m && m != 0
    ensures Has(a & b, m)
  {
  }

  lemma OrFirst(a: Bits, b: Bits, m: Bits)
    requires Has(a, m)
    ensures Has(Or(a, b), m)
  {
  }

  lemma OrSecond(a: Bits, b: Bits, m: Bits)
    requires Has(b, m)
    ensures Has(Or(a, b), m)
  {
  }

  lemma OrNone(a: Bits, b: Bits, m: Bits)
    requires !Has(a, m) && !Has(b, m)
    ensures !Has(Or(a, b), m)
  {
  }

  lemma MinusFirst(a: Bits, b: Bits, m: Bits)
    requires Has(Minus(a, b), m)
    ensures Has(a, m)
  {
  }

  lemma MinusTaken(a: Bits, b: Bits, m: Bits)
    requires Single(m) && Has(b, m)
    ensures !Has(Minus(a, b), m)
  {
    hide Single, Has;
    WholeBit(b, m);
    MinusNone(a, b, m);
  }

  lemma MinusNone(a: Bits, b: Bits, m: Bits)
    requires b & m == m
    ensures !Has(a & !b, m)
  {
  }

  lemma MinusLeft(a: Bits, b: Bits, m: Bits)
    requires Single(m) && Has(a, m) && !Has(b, m)
    ensures Has(Minus(a, b), m)
  {
    hide Single;
    WholeBit(a, m);
    MinusWhole(a, b, m);
  }

  lemma MinusWhole(a: Bits, b: Bits, m: Bits)
    requires a & m == m && b & m == 0 && m != 0
    ensures Has(a & !b, m)
  {
  }

  lemma SomeBit(a: Bits) returns (m: Bits)
    ensures a != 0 ==> Single(m) && Has(a, m)
  {
    m := a & (!a + 1);
  }

  lemma MissingBit(a: Bits, b: Bits, m: Bits)
    requires And(a, b) == a && Single(m) && Has(a, m)
    ensures Has(b, m)
  {
  }

  lemma NotBelow(a: Bits, b: Bits)
    ensures And(a, b) != a ==> Minus(a, b) != 0
  {
  }

  /** RT_EVENT_FLAG_AND waits for all of the bits, RT_EVENT_FLAG_OR for one of them. */
  lemma MetMeans(events: Bits, w: Wish)
    ensures w.all ==> (Met(events, w) <==> forall m :: Single(m) && Has(w.bits, m) ==> Has(events, m))
    ensures !w.all ==> (Met(events, w) <==> w.any && exists m :: Single(m) && Has(w.bits, m) && Has(events, m))
  {
    hide And, Minus, Has, Single;
    if w.all {
      if Met(events, w) {
        forall m | Single(m) && Has(w.bits, m) ensures Has(events, m) { MissingBit(w.bits, events, m); }
      } else {
        NotBelow(w.bits, events);
        var m := SomeBit(Minus(w.bits, events));
        BitLaws(w.bits, events, m);
        assert Has(w.bits, m) && !Has(events, m);
      }
    } else {
      var m := SomeBit(And(w.bits, events));
      if And(w.bits, events) != 0 { BitLaws(w.bits, events, m); }
      forall k | Single(k) && Has(w.bits, k) && Has(events, k) ensures And(w.bits, events) != 0 {
        BitLaws(w.bits, events, k);
        BitLaws(And(w.bits, events), 0, k);
      }
    }
  }

  lemma BelowItself(a: Bits)
    ensures Below(a, a)
  {
  }

  lemma BelowAnd(a: Bits, b: Bits)
    ensures Below(And(a, b), a) && Below(And(a, b), b)
  {
  }

  lemma BelowMinus(a: Bits, b: Bits)
    ensures Below(Minus(a, b), a)
  {
  }

  lemma BelowTrans(a: Bits, b: Bits, c: Bits)
    requires Below(a, b) && Below(b, c)
    ensures Below(a, c)
  {
  }

  lemma MetMonotone(a: Bits, b: Bits, w: Wish)
    requires Below(a, b) && Met(a, w)
    ensures Met(b, w)
  {
  }

  lemma AndMinus(a: Bits, b: Bits)
    ensures And(b, Minus(a, b)) == 0
  {
  }

  lemma ShareLaws(events: Bits, w: Wish)
    requires Met(events, w)
    ensures Share(events, w) == And(w.bits, events)
    ensures Below(Share(events, w), events) && Below(Share(events, w), w.bits)
    ensures Below(Rest(events, w), events)
    ensures w.clear ==> And(Share(events, w), Rest(events, w)) == 0
    ensures if w.all then Share(events, w) == w.bits else w.any && Share(events, w) != 0
  {
    hide And, Minus, Below;
    BelowAnd(w.bits, events);
    BelowItself(events);
    BelowMinus(events, Share(events, w));
    AndMinus(events, Share(events, w));
  }

  lemma NothingShared(a: Bits, b: Bits, c: Bits)
    requires And(a, b) == 0 && Below(c, b)
    ensures And(a, c) == 0
  {
  }

  // ---- one rt_event_send ------------------------------------------------------------

  datatype Grant = Grant(t: Thread, bits: Bits, clear: bool)

  /** What the waiter loop makes of the event set and the list: the set that is
      left, the threads that go on waiting, and what the others receive. */
  datatype Sweep = Sweep(events: Bits, waiting: seq<Thread>, grants: seq<Grant>)

  ghost function SweepOf(events: Bits, s: seq<Thread>, wish: map<Thread, Wish>): Sweep
    requires forall t :: t in s ==> t in wish
    decreases |s|
  {
    if s == [] then Sweep(events, [], [])
    else
      assert s[0] in s;
      var w := wish[s[0]];
      if Met(events, w) then
        var r := SweepOf(Rest(events, w), s[1..], wish);
        r.(grants := [Grant(s[0], Share(events, w), w.clear)] + r.grants)
      else
        var r := SweepOf(events, s[1..], wish);
        r.(waiting := [s[0]] + r.waiting)
  }

  ghost predicate NoneMet(events: Bits, s: seq<Thread>, wish: map<Thread, Wish>) {
    forall t :: t in s ==> t in wish && !Met(events, wish[t])
  }

  /** The loop only shrinks the set, and leaves nobody waiting whose condition the
      remaining set meets. */
  lemma {:induction false} SweepSettles(events: Bits, s: seq<Thread>, wish: map<Thread, Wish>)
    requires forall t :: t in s ==> t in wish
    ensures var r := SweepOf(events, s, wish);
            Below(r.events, events) && NoneMet(r.events, r.waiting, wish)
    ensures forall t :: t in SweepOf(events, s, wish).waiting ==> t in s
    decreases |s|
  {
    hide Met, Share, Rest, Below;
    BelowItself(events);
    if s != [] {
      var w, r := wish[s[0]], SweepOf(events, s, wish);
      if Met(events, w) {
        ShareLaws(events, w);
        SweepSettles(Rest(events, w), s[1..], wish);
        BelowTrans(r.events, Rest(events, w), events);
      } else {
        SweepSettles(events, s[1..], wish);
        if Met(r.events, w) { MetMonotone(r.events, events, w); }
      }
    }
  }

  /** The set after these grants: the bits of those with the clear flag are gone. */
  ghost function Left(events: Bits, g: seq<Grant>): Bits {
    if g == [] then events
    else Left(if g[0].clear then Minus(events, g[0].bits) else events, g[1..])
  }

  /** Grant i is exactly what that waiter wished of the bits its turn found set, which
      satisfied it. */
  ghost predicate Fair(events: Bits, g: seq<Grant>, i: nat, wish: map<Thread, Wish>)
    requires i < |g|
  {
    && g[i].t in wish && g[i].clear == wish[g[i].t].clear
    && g[i].bits == And(wish[g[i].t].bits, Left(events, g[..i]))
    && (if wish[g[i].t].all then g[i].bits == wish[g[i].t].bits else wish[g[i].t].any && g[i].bits != 0)
  }

  /** Two grants of one send: bits that the earlier one cleared are not in the
      later one. */
  ghost predicate Exclusive(a: Grant, b: Grant) {
    a.clear ==> And(a.bits, b.bits) == 0
  }

  ghost predicate AllFair(events: Bits, g: seq<Grant>, wish: map<Thread, Wish>) {
    forall i :: 0 <= i < |g| ==> Fair(events, g, i, wish)
  }

  ghost predicate AllBelow(events: Bits, g: seq<Grant>) {
    forall i :: 0 <= i < |g| ==> Below(g[i].bits, events)
  }

  ghost predicate AllExclusive(g: seq<Grant>) {
    forall i, j :: 0 <= i < j < |g| ==> Exclusive(g[i], g[j])
  }

  /** Every waiter resumed by the loop receives exactly the set bits that satisfied it,
      no bit cleared for one reaches a later one, and the grants account for the set
      that is left. */
  lemma {:induction false} SweepGrants(events: Bits, s: seq<Thread>, wish: map<Thread, Wish>)
    requires forall t :: t in s ==> t in wish
    ensures var r := SweepOf(events, s, wish);
            && AllFair(events, r.grants, wish) && AllExclusive(r.grants) && AllBelow(events, r.grants)
            && r.events == Left(events, r.grants)
    decreases |s|
  {
    hide Met, Share, Rest, Below, And, AllFair, AllExclusive, AllBelow, Left;
    if s == [] {
      NoGrants(events, wish);
    } else if Met(events, wish[s[0]]) {
      var w := wish[s[0]];
      SweepGrants(Rest(events, w), s[1..], wish);
      FirstGrant(events, s[0], wish, SweepOf(Rest(events, w), s[1..], wish).grants);
    } else {
      SweepGrants(events, s[1..], wish);
    }
  }

  lemma NoGrants(events: Bits, wish: map<Thread, Wish>)
    ensures AllFair(events, [], wish) && AllExclusive([]) && AllBelow(events, []) && Left(events, []) == events
  {
  }

  lemma FirstGrant(events: Bits, t: Thread, wish: map<Thread, Wish>, g: seq<Grant>)
    requires t in wish && Met(events, wish[t])
    requires AllFair(Rest(events, wish[t]), g, wish) && AllExclusive(g) && AllBelow(Rest(events, wish[t]), g)
    ensures var w := wish[t]; var h := [Grant(t, Share(events, w), w.clear)] + g;
            && AllFair(events, h, wish) && AllExclusive(h) && AllBelow(events, h)
            && Left(events, h) == Left(Rest(events, w), g)
  {
    hide Share, Rest, Below, And, Met;
    var w := wish[t];
    var h := [Grant(t, Share(events, w), w.clear)] + g;
    ShareLaws(events, w);
    RestIs(events, w);
    assert h[1..] == g;
    forall i | 0 <= i < |h| ensures Fair(events, h, i, wish) && Below(h[i].bits, events) {
      if i > 0 {
        assert Fair(Rest(events, w), g, i - 1, wish) && Below(g[i - 1].bits, Rest(events, w));
        assert h[..i][1..] == g[..i - 1] && h[..i][0] == h[0];
        BelowTrans(g[i - 1].bits, Rest(events, w), events);
      } else {
        assert h[..0] == [];
      }
    }
    forall i, j | 0 <= i < j < |h| ensures Exclusive(h[i], h[j]) {
      assert h[j] == g[j - 1] && Below(g[j - 1].bits, Rest(events, w));
      if i > 0 {
        assert Exclusive(g[i - 1], g[j - 1]);
      } else if w.clear {
        NothingShared(Share(events, w), Rest(events, w), g[j - 1].bits);
      }
    }
  }

  lemma RestIs(events: Bits, w: Wish)
    ensures Rest(events, w) == if w.clear then Minus(events, Share(events, w)) else events
  {
  }

  lemma SweepNext(events: Bits, left: seq<Thread>, wish: map<Thread, Wish>)
    requires left != [] && (forall t :: t in left ==> t in wish) && forall t :: t in left[1..] ==> t in wish
    ensures var w := wish[left[0]];
            var a, b := SweepOf(Rest(events, w), left[1..], wish), SweepOf(events, left[1..], wish);
            SweepOf(events, left, wish) ==
            if Met(events, w) then a.(grants := [Grant(left[0], Share(events, w), w.clear)] + a.grants)
            else b.(waiting := [left[0]] + b.waiting)
  {
    hide Met, Share, Rest;
  }

  /** The loop over a list is the loop over its front, then over the rest with what the
      front left of the set. */
  lemma {:induction false} SweepAppend(events: Bits, a: seq<Thread>, b: seq<Thread>, wish: map<Thread, Wish>)
    requires (forall t :: t in a ==> t in wish) && forall t :: t in b ==> t in wish
    ensures forall t :: t in a + b ==> t in wish
    ensures var p := SweepOf(events, a, wish); var q := SweepOf(p.events, b, wish);
            SweepOf(events, a + b, wish) == Sweep(q.events, p.waiting + q.waiting, p.grants + q.grants)
    decreases |a|
  {
    hide Met, Share, Rest, SweepOf;
    if a == [] {
      assert a + b == b && SweepOf(events, [], wish) == Sweep(events, [], []) by { SweepNone(events, wish); }
      var q := SweepOf(events, b, wish);
      assert [] + q.waiting == q.waiting && [] + q.grants == q.grants;
    } else {
      assert (a + b)[1..] == a[1..] + b && a[0] in a;
      var w := wish[a[0]];
      var now := if Met(events, w) then Rest(events, w) else events;
      SweepAppend(now, a[1..], b, wish);
      SweepNext(events, a, wish);
      SweepNext(events, a + b, wish);
      var p := SweepOf(now, a[1..], wish);
      var q := SweepOf(p.events, b, wish);
      Ahead([a[0]], p.waiting, q.waiting);
      Ahead([Grant(a[0], Share(events, w), w.clear)], p.grants, q.grants);
    }
  }

  lemma SweepNone(events: Bits, wish: map<Thread, Wish>)
    ensures SweepOf(events, [], wish) == Sweep(events, [], [])
  {
  }

  lemma Ahead<T>(x: seq<T>, p: seq<T>, q: seq<T>)
    ensures (x + p) + q == x + (p + q)
  {
  }

  /** A waiter goes on waiting exactly when the set its turn found does not meet its
      condition. */
  lemma SweepTurn(events: Bits, s: seq<Thread>, wish: map<Thread, Wish>, k: nat)
    requires k < |s| && Distinct(s) && forall t :: t in s ==> t in wish
    ensures forall t :: t in s[..k] ==> t in wish
    ensures s[k] in wish
    ensures s[k] in SweepOf(events, s, wish).waiting <==> !Met(SweepOf(events, s[..k], wish).events, wish[s[k]])
  {
    hide Met, Share, Rest;
    var a, b := s[..k], s[k..];
    assert s == a + b && s[k] in s;
    assert (forall t :: t in a ==> t in s) && forall t :: t in b ==> t in s;
    var p := SweepOf(events, a, wish);
    SweepAppend(events, a, b, wish);
    SweepSettles(events, a, wish);
    forall i | 0 <= i < |b[1..]| ensures b[1..][i] != s[k] { assert b[1..][i] == s[k + 1 + i]; }
    var w := wish[s[k]];
    assert forall t :: t in b[1..] ==> t in b;
    SweepSettles(if Met(p.events, w) then Rest(p.events, w) else p.events, b[1..], wish);
  }

  /** Everybody who waited either goes on waiting or was granted something. */
  ghost predicate Shared(s: seq<Thread>, r: Sweep) {
    && Distinct(r.waiting) && |r.waiting| + |r.grants| == |s|
    && (forall i :: 0 <= i < |r.grants| ==> r.grants[i].t in s && r.grants[i].t !in r.waiting)
    && (forall i, j :: 0 <= i < j < |r.grants| ==> r.grants[i].t != r.grants[j].t)
    && (forall t :: t in r.waiting ==> t in s)
  }

  lemma {:induction false} SweepThreads(events: Bits, s: seq<Thread>, wish: map<Thread, Wish>)
    requires Distinct(s) && forall t :: t in s ==> t in wish
    ensures Shared(s, SweepOf(events, s, wish))
    decreases |s|
  {
    hide Met, Share, Rest, Shared;
    if s == [] {
      NobodyShared();
    } else {
      var w := wish[s[0]];
      SweepThreads(Rest(events, w), s[1..], wish);
      SweepThreads(events, s[1..], wish);
      OneMore(s, SweepOf(Rest(events, w), s[1..], wish), Grant(s[0], Share(events, w), w.clear));
      OneMore(s, SweepOf(events, s[1..], wish), Grant(s[0], Share(events, w), w.clear));
    }
  }

  lemma NobodyShared()
    ensures forall events :: Shared([], Sweep(events, [], []))
  {
  }

  lemma OneMore(s: seq<Thread>, r: Sweep, g: Grant)
    requires s != [] && Distinct(s) && Shared(s[1..], r) && g.t == s[0]
    ensures Shared(s, r.(grants := [g] + r.grants)) && Shared(s, r.(waiting := [s[0]] + r.waiting))
  {
    assert s == [s[0]] + s[1..];
    assert s[0] !in s[1..];
    var r' := r.(waiting := [s[0]] + r.waiting);
    forall i | 0 <= i < |r'.grants| ensures r'.grants[i].t !in r'.waiting { assert r.grants[i].t in s[1..]; }
    var q := r.(grants := [g] + r.grants);
    forall i, j | 0 <= i < j < |q.grants| ensures q.grants[i].t != q.grants[j].t {
      assert q.grants[j] == r.grants[j - 1] && r.grants[j - 1].t in s[1..];
      if i > 0 { assert q.grants[i] == r.grants[i - 1]; }
    }
  }

  // ---- the transitions ----------------------------------------------------------------

  datatype State = State(events: Bits, waiters: seq<Thread>, wish: map<Thread, Wish>)

  /** thread->event_set of the granted threads tells what they received. */
  ghost function Reported(wish: map<Thread, Wish>, grants: seq<Grant>): (r: map<Thread, Wish>)
    requires forall i :: 0 <= i < |grants| ==> grants[i].t in wish
    ensures r.Keys == wish.Keys
  {
    if grants == [] then wish
    else
      var g := grants[|grants| - 1];
      var r := Reported(wish, grants[..|grants| - 1]);
      r[g.t := r[g.t].(bits := g.bits)]
  }

  ghost function SendStep(s: State, bits: Bits): State
    requires forall t :: t in s.waiters ==> t in s.wish
    requires Distinct(s.waiters)
  {
    if bits == 0 then s
    else
      var r := SweepOf(Or(s.events, bits), s.waiters, s.wish);
      SweepThreads(Or(s.events, bits), s.waiters, s.wish);
      State(r.events, r.waiting, Reported(s.wish, r.grants))
  }

  /** rt_event_recv by thread t up to the point where it may wait, at place j. */
  ghost function RecvStep(s: State, t: Thread, w: Wish, wait: bool, j: nat): (State, Outcome)
    requires j <= |s.waiters|
  {
    if w.bits == 0 then (s, Invalid)
    else if Met(s.events, w) then
      (if w.clear then s.(events := Minus(s.events, w.bits)) else s, Received(And(s.events, w.bits)))
    else if !wait then (s, TimedOut)
    else (s.(waiters := InsertAt(s.waiters, j, t), wish := s.wish[t := w]), Blocked)
  }

  ghost function ExpireStep(s: State, t: Thread): State {
    s.(waiters := Without(s.waiters, t))
  }

  ghost function ResetStep(s: State): State {
    s.(events := 0, waiters := [])
  }

  /** No suspended thread's condition is met by the current set. */
  ghost predicate Inv(s: State) {
    Distinct(s.waiters) && NoneMet(s.events, s.waiters, s.wish)
  }

  lemma ReportedOthers(wish: map<Thread, Wish>, grants: seq<Grant>, t: Thread)
    requires forall i :: 0 <= i < |grants| ==> grants[i].t in wish && grants[i].t != t
    requires t in wish
    ensures Reported(wish, grants)[t] == wish[t]
  {
    if grants != [] { ReportedOthers(wish, grants[..|grants| - 1], t); }
  }

  /** A granted thread's wish tells its grant. */
  lemma {:induction false} ReportedGrant(wish: map<Thread, Wish>, grants: seq<Grant>, i: nat)
    requires forall k :: 0 <= k < |grants| ==> grants[k].t in wish
    requires forall k, j :: 0 <= k < j < |grants| ==> grants[k].t != grants[j].t
    requires i < |grants|
    ensures Reported(wish, grants)[grants[i].t] == wish[grants[i].t].(bits := grants[i].bits)
    decreases |grants|
  {
    var front := grants[..|grants| - 1];
    if i < |front| {
      assert front[i] == grants[i];
      ReportedGrant(wish, front, i);
    } else {
      ReportedOthers(wish, front, grants[i].t);
    }
  }

  /** After a send: each resumed waiter's event set is exactly what it wished of the bits
      that were set and not cleared for those before it; the other threads' wishes are
      untouched. */
  lemma SendReports(s: State, bits: Bits)
    requires bits != 0 && Distinct(s.waiters) && forall t :: t in s.waiters ==> t in s.wish
    ensures var all, r := Or(s.events, bits), SweepOf(Or(s.events, bits), s.waiters, s.wish);
            var s' := SendStep(s, bits);
            && (forall i :: 0 <= i < |r.grants| ==>
                  && r.grants[i].t in s.wish && r.grants[i].t in s.waiters
                  && s'.wish[r.grants[i].t].bits == And(s.wish[r.grants[i].t].bits, Left(all, r.grants[..i])))
            && (forall t :: t in s.wish && (forall i :: 0 <= i < |r.grants| ==> r.grants[i].t != t) ==>
                  s'.wish[t] == s.wish[t])
            && s'.events == Left(all, r.grants) && |s'.waiters| + |r.grants| == |s.waiters|
  {
    hide Met, Share, Rest, Or, And, Left, SweepOf, Reported;
    var all := Or(s.events, bits);
    var r := SweepOf(all, s.waiters, s.wish);
    SweepThreads(all, s.waiters, s.wish);
    SweepGrants(all, s.waiters, s.wish);
    forall i | 0 <= i < |r.grants|
      ensures SendStep(s, bits).wish[r.grants[i].t].bits == And(s.wish[r.grants[i].t].bits, Left(all, r.grants[..i]))
    {
      assert Fair(all, r.grants, i, s.wish);
      ReportedGrant(s.wish, r.grants, i);
    }
    forall t | t in s.wish && (forall i :: 0 <= i < |r.grants| ==> r.grants[i].t != t) ensures SendStep(s, bits).wish[t] == s.wish[t] {
      ReportedOthers(s.wish, r.grants, t);
    }
  }

  lemma SendKeeps(s: State, bits: Bits)
    requires Inv(s)
    ensures Inv(SendStep(s, bits))
  {
    hide Met, Or;
    if bits != 0 {
      var events := Or(s.events, bits);
      SweepSettles(events, s.waiters, s.wish);
      SweepThreads(events, s.waiters, s.wish);
      var r := SweepOf(events, s.waiters, s.wish);
      forall t | t in r.waiting ensures Reported(s.wish, r.grants)[t] == s.wish[t] {
        ReportedOthers(s.wish, r.grants, t);
      }
    }
  }

  lemma NoneMetBelow(a: Bits, b: Bits, s: seq<Thread>, wish: map<Thread, Wish>)
    requires NoneMet(b, s, wish) && Below(a, b)
    ensures NoneMet(a, s, wish)
  {
    hide Met, Below;
    forall t | t in s ensures !Met(a, wish[t]) {
      if Met(a, wish[t]) { MetMonotone(a, b, wish[t]); }
    }
  }

  lemma RecvKeeps(s: State, t: Thread, w: Wish, wait: bool, j: nat)
    requires Inv(s) && j <= |s.waiters| && t !in s.waiters
    ensures Inv(RecvStep(s, t, w, wait, j).0)
  {
    hide Met, Minus, And, Below, Distinct;
    if w.bits != 0 && Met(s.events, w) {
      BelowMinus(s.events, w.bits);
      NoneMetBelow(Minus(s.events, w.bits), s.events, s.waiters, s.wish);
    } else {
      DistinctInsert(s.waiters, j, t);
      InsertMembers(s.waiters, j, t);
    }
  }

  /** What rt_event_recv is answered, and what it takes from the set: it succeeds at once
      exactly when its condition is met, with the wished bits that are set; with the clear
      flag exactly the wished bits leave the set, and in every other case none does. */
  lemma RecvTakes(s: State, t: Thread, w: Wish, wait: bool, j: nat, m: Bits)
    requires j <= |s.waiters| && Distinct(s.waiters) && t !in s.waiters && Single(m)
    ensures var s', r := RecvStep(s, t, w, wait, j).0, RecvStep(s, t, w, wait, j).1;
            && (r == Invalid <==> w.bits == 0)
            && (r.Received? <==> w.bits != 0 && Met(s.events, w))
            && (r == TimedOut <==> w.bits != 0 && !Met(s.events, w) && !wait)
            && (r == Blocked <==> w.bits != 0 && !Met(s.events, w) && wait)
            && (r.Received? ==> (Has(r.bits, m) <==> Has(w.bits, m) && Has(s.events, m)))
            && (Has(s'.events, m) <==> Has(s.events, m) && !(r.Received? && w.clear && Has(w.bits, m)))
            && Without(s'.waiters, t) == s.waiters && (t in s'.waiters <==> r == Blocked)
            && s'.wish == if r == Blocked then s.wish[t := w] else s.wish
  {
    hide And, Minus, Has, Single, Met, InsertAt;
    BitLaws(s.events, w.bits, m);
    WithoutInsert(s.waiters, j, t);
    InsertMembers(s.waiters, j, t);
  }

  lemma ExpireKeeps(s: State, t: Thread)
    requires Inv(s)
    ensures Inv(ExpireStep(s, t))
  {
    hide Met;
    WithoutMembers(s.waiters, t);
  }

  // ---- whole runs ------------------------------------------------------------------------

  datatype Event =
    | Send(bits: Bits)
    | Recv(t: Thread, w: Wish, wait: bool, j: nat)
    | Expire(t: Thread)
    | Reset

  ghost predicate Allowed(s: State, e: Event) {
    match e
    case Send(_) => (forall t :: t in s.waiters ==> t in s.wish) && Distinct(s.waiters)
    case Recv(t, _, _, j) => t !in s.waiters && j <= |s.waiters|
    case _ => true
  }

  ghost function Apply(s: State, e: Event): State
    requires Allowed(s, e)
  {
    match e
    case Send(bits) => SendStep(s, bits)
    case Recv(t, w, wait, j) => RecvStep(s, t, w, wait, j).0
    case Expire(t) => ExpireStep(s, t)
    case Reset => ResetStep(s)
  }

  ghost predicate Run(s: State, es: seq<Event>, s': State)
    decreases |es|
  {
    if es == [] then s' == s else Allowed(s, es[0]) && Run(Apply(s, es[0]), es[1..], s')
  }

  /** In every reachable state no suspended thread's condition holds. */
  lemma {:induction false} RunKeeps(s: State, es: seq<Event>, s': State)
    requires Inv(s) && Run(s, es, s')
    ensures Inv(s')
    decreases |es|
  {
    hide Met;
    if es != [] {
      match es[0] {
        case Send(bits) => SendKeeps(s, bits);
        case Recv(t, w, wait, j) => RecvKeeps(s, t, w, wait, j);
        case Expire(t) => ExpireKeeps(s, t);
        case Reset =>
      }
      RunKeeps(Apply(s, es[0]), es[1..], s');
    }
  }

  /** A loop that has passed over `done` and made some grants, and what remains. */
  ghost function Joint(done: seq<Thread>, grants: seq<Grant>, r: Sweep): Sweep {
    Sweep(r.events, done + r.waiting, grants + r.grants)
  }

  lemma JointNext(done: seq<Thread>, grants: seq<Grant>, events: Bits, left: seq<Thread>, wish: map<Thread, Wish>)
    requires left != [] && forall t :: t in left ==> t in wish
    ensures left[0] in wish && forall t :: t in left[1..] ==> t in wish
    ensures var w, now := wish[left[0]], Joint(done, grants, SweepOf(events, left, wish));
            if Met(events, w) then
              now == Joint(done, grants + [Grant(left[0], Share(events, w), w.clear)], SweepOf(Rest(events, w), left[1..], wish))
            else now == Joint(done + [left[0]], grants, SweepOf(events, left[1..], wish))
  {
    hide Met, Share, Rest, SweepOf, Joint;
    assert forall t :: t in left[1..] ==> t in left;
    var w := wish[left[0]];
    SweepNext(events, left, wish);
    if Met(events, w) {
      JointTake(done, grants, Grant(left[0], Share(events, w), w.clear), SweepOf(Rest(events, w), left[1..], wish));
    } else {
      JointSkip(done, grants, left[0], SweepOf(events, left[1..], wish));
    }
  }

  lemma JointTake(done: seq<Thread>, grants: seq<Grant>, g: Grant, a: Sweep)
    ensures Joint(done, grants, a.(grants := [g] + a.grants)) == Joint(done, grants + [g], a)
  {
    assert grants + ([g] + a.grants) == (grants + [g]) + a.grants;
  }

  lemma JointSkip(done: seq<Thread>, grants: seq<Grant>, t: Thread, b: Sweep)
    ensures Joint(done, grants, b.(waiting := [t] + b.waiting)) == Joint(done + [t], grants, b)
  {
    assert done + ([t] + b.waiting) == (done + [t]) + b.waiting;
  }

  lemma JointEnd(done: seq<Thread>, grants: seq<Grant>, events: Bits, wish: map<Thread, Wish>)
    ensures Joint(done, grants, SweepOf(events, [], wish)) == Sweep(events, done, grants)
  {
  }

  lemma ReportNext(wish: map<Thread, Wish>, grants: seq<Grant>, g: Grant)
    requires (forall i :: 0 <= i < |grants| ==> grants[i].t in wish) && g.t in wish
    ensures forall i :: 0 <= i < |grants + [g]| ==> (grants + [g])[i].t in wish
    ensures var r := Reported(wish, grants);
            Reported(wish, grants + [g]) == r[g.t := r[g.t].(bits := g.bits)]
  {
    assert (grants + [g])[..|grants|] == grants;
  }

  /** Taking the thread behind `done` off the list. */
  lemma Unlinked(done: seq<Thread>, left: seq<Thread>)
    requires left != [] && Distinct(done + left)
    ensures Without(done + left, left[0]) == done + left[1..] && left[0] !in left[1..]
    ensures done + left == done + [left[0]] + left[1..]
  {
    assert (done + left)[|done|] == left[0];
    WithoutAt(done + left, |done|);
    assert RemoveAt(done + left, |done|) == done + left[1..];
    forall i | 0 <= i < |left[1..]| ensures left[1..][i] != left[0] {
      assert (done + left)[|done| + 1 + i] == left[1..][i];
    }
  }

  // ---- the C functions ---------------------------------------------------------------------

  class EventSet {
    const queue: WaitList
    var events: Bits                // event->set
    var wish: map<Thread, Wish>     // event_set and event_info of the threads

    ghost predicate Valid()
      reads this, queue, queue.kernel, queue.kernel.lists
    {
      queue.Valid() && wish.Keys == queue.kernel.threads
    }

    ghost function Abs(): State
      requires Wait(queue.list) in queue.kernel.lists.contents
      reads this, queue, queue.kernel, queue.kernel.lists
    {
      State(events, queue.Waiters(), wish)
    }

    /** rt_event_init on an empty suspend list. */
    constructor (list: WaitList)
      requires list.Valid() && list.Waiters() == []
      ensures Valid() && queue == list && events == 0 && Inv(Abs())
    {
      hide Kernel.Valid;
      queue := list;
      events := 0;
      wish := map t | t in list.kernel.threads :: Wish(0, false, false, false);
    }

    /** The locked section of rt_event_send: the loop over the waiters. */
    method Send(bits: Bits) returns (ok: bool)
      requires Valid()
      modifies this, queue.kernel, queue.kernel.lists
      ensures Valid() && Wait(queue.list) in old(queue.kernel.lists.contents)
      ensures Distinct(old(queue.Waiters())) && forall t :: t in old(queue.Waiters()) ==> t in old(wish)
      ensures Abs() == SendStep(old(Abs()), bits) && (ok <==> bits != 0)
      ensures queue.kernel.error == old(queue.kernel.error)
    {
      hide Kernel.Valid, Met, Share, Rest, SweepOf;
      queue.Facts();
      if bits == 0 { return false; }
      events := Or(events, bits);
      Loop();
      ok := true;
    }

    /** The loop over the waiters: `done` have been passed over, `left` are still to
        be seen. */
    method Loop()
      requires Valid()
      modifies this, queue.kernel, queue.kernel.lists
      ensures Valid() && Wait(queue.list) in old(queue.kernel.lists.contents)
      ensures Distinct(old(queue.Waiters())) && forall t :: t in old(queue.Waiters()) ==> t in old(wish)
      ensures queue.kernel.error == old(queue.kernel.error)
      ensures var r := SweepOf(old(events), old(queue.Waiters()), old(wish));
              && (forall i :: 0 <= i < |r.grants| ==> r.grants[i].t in old(wish))
              && Abs() == State(r.events, r.waiting, Reported(old(wish), r.grants))
    {
      hide Kernel.Valid, Met, Share, Rest, Distinct, Reported, SweepOf, Joint;
      queue.Facts();
      ghost var s, wish0, left := queue.Waiters(), wish, queue.Waiters();
      ghost var done: seq<Thread>, grants: seq<Grant> := [], [];
      ghost var r := SweepOf(events, s, wish);
      assert s == [] + s && r == Joint([], [], r) && Reported(wish0, []) == wish0 by { Start(r, wish0); }
      var n := First();
      while n != Head(Wait(queue.list))
        invariant Valid() && queue.Waiters() == done + left
        invariant n == if left == [] then Head(Wait(queue.list)) else Elem(left[0])
        invariant forall t :: t in left ==> t in wish && t in wish0 && wish[t] == wish0[t]
        invariant forall i :: 0 <= i < |grants| ==> grants[i].t in wish0
        invariant wish == Reported(wish0, grants) && queue.kernel.error == old(queue.kernel.error)
        invariant r == Joint(done, grants, SweepOf(events, left, wish0))
        decreases |left|
      {
        queue.Facts();
        var t := n.e;
        assert t == left[0] && t in left;
        JointNext(done, grants, events, left, wish0);
        Unlinked(done, left);
        n := After(n, done, left);
        if Met(events, wish[t]) {
          ghost var g := Grant(t, Share(events, wish[t]), wish[t].clear);
          ReportNext(wish0, grants, g);
          Give(t);
          grants := grants + [g];
        } else {
          done := done + [t];
        }
        left := left[1..];
      }
      JointEnd(done, grants, events, wish0);
    }

    static lemma Start(r: Sweep, wish: map<Thread, Wish>)
      ensures r == Joint([], [], r) && Reported(wish, []) == wish
    {
    }

    method First() returns (n: Node<Queue, Thread>)
      requires queue.Valid()
      ensures n == if queue.Waiters() == [] then Head(Wait(queue.list)) else Elem(queue.Waiters()[0])
    {
      hide Kernel.Valid;
      queue.kernel.Known();
      n := queue.kernel.lists.Next(Head(Wait(queue.list)), Wait(queue.list), 0);
    }

    method After(l: Node<Queue, Thread>, ghost done: seq<Thread>, ghost left: seq<Thread>) returns (n: Node<Queue, Thread>)
      requires queue.Valid() && queue.Waiters() == done + left && left != [] && l == Elem(left[0])
      ensures n == if left[1..] == [] then Head(Wait(queue.list)) else Elem(left[1..][0])
    {
      hide Kernel.Valid;
      queue.kernel.Known();
      n := queue.kernel.lists.Next(l, Wait(queue.list), |done| + 1);
    }

    /** The satisfied waiter t gets its share and is resumed. */
    method Give(t: Thread)
      requires Valid() && t in queue.Waiters() && t in wish && Met(events, wish[t])
      modifies this, queue.kernel, queue.kernel.lists
      ensures Valid() && Wait(queue.list) in old(queue.kernel.lists.contents)
      ensures t in old(wish) && wish == old(wish)[t := old(wish)[t].(bits := Share(old(events), old(wish)[t]))]
      ensures events == Rest(old(events), old(wish)[t]) && queue.Waiters() == Without(old(queue.Waiters()), t)
      ensures queue.kernel.error == old(queue.kernel.error)
    {
      hide Kernel.Valid, Met, And, Minus, OnlyWait;
      if !wish[t].all {
        wish := wish[t := wish[t].(bits := And(wish[t].bits, events))];
      }
      assert wish == old(wish)[t := old(wish)[t].(bits := Share(old(events), old(wish)[t]))];
      if wish[t].clear {
        events := Minus(events, wish[t].bits);
      }
      queue.Wake(t);
    }

    /** rt_event_recv by the running thread up to the point where it may wait. */
    method Recv(w: Wish, timeout: int) returns (r: Outcome, ghost j: nat)
      requires Valid() && (w.all || w.any)
      requires queue.kernel.current in queue.kernel.stat && queue.kernel.stat[queue.kernel.current].Running?
      modifies this, queue.kernel, queue.kernel.lists
      ensures Valid() && queue.kernel.current == old(queue.kernel.current)
      ensures Wait(queue.list) in old(queue.kernel.lists.contents) && j <= |old(queue.Waiters())|
      ensures (Abs(), r) == RecvStep(old(Abs()), queue.kernel.current, w, timeout != 0, j)
      ensures r == Blocked ==> queue.kernel.current in queue.kernel.prio
      ensures r == Blocked ==>
                j == Place(old(queue.Waiters()), queue.kernel.prio, queue.kernel.prio[queue.kernel.current], queue.order)
      ensures r == Blocked ==> (queue.kernel.current in queue.kernel.armed <==> timeout > 0)
      ensures var e, t := old(queue.kernel.error), queue.kernel.current;
              queue.kernel.error == if r == Invalid then e else e[t := if r == TimedOut then Timeout else Ok]
    {
      hide Kernel.Valid, Place, OnlyWait, Met, And, Minus;
      queue.Facts();
      j := 0;
      if w.bits == 0 { r := Invalid; return; }
      var t := queue.kernel.current;
      queue.kernel.SetError(t, Ok);
      if Met(events, w) {
        r := Received(And(events, w.bits));
        if w.clear {
          events := Minus(events, w.bits);
        }
        return;
      }
      if timeout == 0 {
        queue.kernel.SetError(t, Timeout);
        r := TimedOut;
        return;
      }
      wish := wish[t := w];
      j := Place(queue.Waiters(), queue.kernel.prio, queue.kernel.prio[t], queue.order);
      queue.Block(timeout);
      r := Blocked;
    }

    method Expire(t: Thread)
      requires Valid() && t in queue.kernel.armed
      modifies queue.kernel, queue.kernel.lists
      ensures Valid() && Wait(queue.list) in old(queue.kernel.lists.contents)
      ensures Abs() == ExpireStep(old(Abs()), t) && queue.kernel.error == old(queue.kernel.error)[t := Timeout]
    {
      hide Kernel.Valid, WaitsLose;
      queue.Expire(t);
    }

    /** rt_event_control, RT_IPC_CMD_RESET, up to its rt_schedule. */
    method Reset()
      requires Valid()
      modifies this, queue.kernel, queue.kernel.lists
      ensures Valid() && Wait(queue.list) in old(queue.kernel.lists.contents)
      ensures Abs() == ResetStep(old(Abs())) && queue.kernel.error.Keys == old(queue.kernel.error).Keys
      ensures forall t :: t in queue.kernel.error ==>
                queue.kernel.error[t] == (if t in old(queue.Waiters()) then Error else old(queue.kernel.error)[t])
    {
      hide Kernel.Valid, OnlyWait;
      queue.WakeAll();
      events := 0;
    }
  }
}
