/** timer.c: the skip list of active timers. */
module Timers {
  // It is ordered by 32-bit ticks that wrap.

  import opened Lists
  import opened Ordered
  import opened Rings

  const WORD: nat := 0x1_0000_0000
  const HALF: nat := 0x7FFF_FFFF     // RT_TICK_MAX / 2

  type Timer = nat

  /** One of the list nodes embedded in a timer: timer->row[row]. */
  datatype RowNode = RowNode(t: Timer, row: nat)

  // ---- ticks --------------------------------------------------------------------

  /** a - b in rt_tick_t. */
  function Sub(a: nat, b: nat): (r: nat)
    requires a < WORD && b < WORD
    ensures r < WORD && (r + b == a || r + b == a + WORD)
  {
    if a >= b then a - b else a + WORD - b
  }

  function Add(a: nat, b: nat): nat {
    (a + b) % WORD
  }

  /** Tick x lies less than half the range after base. */
  predicate InWindow(base: nat, x: nat)
    requires base < WORD
  {
    x < WORD && Sub(x, base) < HALF
  }

  /** Within a window the wrapping comparison of the source is the order of the
      distances from the start of the window. */
  lemma WindowOrder(base: nat, a: nat, b: nat)
    requires base < WORD && InWindow(base, a) && InWindow(base, b)
    ensures Sub(a, b) == 0 <==> a == b
    ensures Sub(a, b) < HALF <==> Sub(b, base) <= Sub(a, base)
    ensures a == b <==> Sub(a, base) == Sub(b, base)
  {
  }

  /** In general, for two ticks seen from any base: where a is not the earlier, the
      comparison says so exactly while it is less than half the range ahead; where it is,
      the comparison says the contrary exactly when b is more than the other half ahead. */
  lemma WindowExact(base: nat, a: nat, b: nat)
    requires base < WORD && a < WORD && b < WORD
    ensures Sub(b, base) <= Sub(a, base) ==> (Sub(a, b) < HALF <==> Sub(a, base) - Sub(b, base) < HALF)
    ensures Sub(a, base) < Sub(b, base) ==> (Sub(a, b) < HALF <==> Sub(b, base) - Sub(a, base) > WORD - HALF)
  {
  }

  /** The first distance at which it is wrong. */
  lemma WindowNeeded()
    ensures exists base: nat, a: nat, b: nat :: base < WORD && a < WORD && b < WORD
              && Sub(b, base) <= Sub(a, base) && !(Sub(a, b) < HALF)
  {
    assert Sub(0, 0) <= Sub(HALF, 0) && !(Sub(HALF, 0) < HALF);
  }

  /** The keys deadlines are sorted by, seen from the start of the window. */
  ghost function Keys(timeout: map<Timer, nat>, base: nat): (k: map<Timer, nat>)
    requires base < WORD
    ensures k.Keys == timeout.Keys
  {
    map t | t in timeout :: if timeout[t] < WORD then Sub(timeout[t], base) else 0
  }

  // ---- rows as filters of the bottom row -------------------------------------------

  /** The timers of s that take part in k rows or more, in order. */
  ghost function Above(s: seq<Timer>, h: map<Timer, nat>, k: nat): (r: seq<Timer>) {
    if s == [] then []
    else Above(s[..|s| - 1], h, k) + Tall(s[|s| - 1], h, k)
  }

  ghost function Tall(t: Timer, h: map<Timer, nat>, k: nat): seq<Timer> {
    if t in h && h[t] >= k then [t] else []
  }

  lemma {:induction false} AboveMembers(s: seq<Timer>, h: map<Timer, nat>, k: nat)
    ensures forall t :: t in Above(s, h, k) <==> t in s && t in h && h[t] >= k
  {
    if s != [] {
      AboveMembers(s[..|s| - 1], h, k);
      assert s == s[..|s| - 1] + [s[|s| - 1]];
    }
  }

  lemma AboveOne(t: Timer, h: map<Timer, nat>, k: nat)
    ensures Above([t], h, k) == Tall(t, h, k)
  {
    assert [t][..0] == [];
  }

  lemma JoinLast(a: seq<Timer>, b: seq<Timer>)
    requires b != []
    ensures (a + b)[..|a + b| - 1] == a + b[..|b| - 1] && (a + b)[|a + b| - 1] == b[|b| - 1]
  {
  }

  lemma {:induction false} AboveJoin(a: seq<Timer>, b: seq<Timer>, h: map<Timer, nat>, k: nat)
    ensures Above(a + b, h, k) == Above(a, h, k) + Above(b, h, k)
  {
    if b == [] {
      assert a + b == a;
    } else {
      var c, b' := a + b, b[..|b| - 1];
      AboveJoin(a, b', h, k);
      JoinLast(a, b);
      assert Above(a, h, k) + Above(b', h, k) + Tall(b[|b| - 1], h, k)
          == Above(a, h, k) + (Above(b', h, k) + Tall(b[|b| - 1], h, k));
    }
  }

  lemma {:induction false} AboveFrame(s: seq<Timer>, h: map<Timer, nat>, h': map<Timer, nat>, k: nat)
    requires forall t :: t in s ==> t in h && t in h' && h[t] == h'[t]
    ensures Above(s, h, k) == Above(s, h', k)
  {
    if s != [] {
      assert s[|s| - 1] in s;
      AboveFrame(s[..|s| - 1], h, h', k);
    }
  }

  lemma {:induction false} AboveAll(s: seq<Timer>, h: map<Timer, nat>, k: nat)
    requires forall t :: t in s ==> t in h && h[t] >= k
    ensures Above(s, h, k) == s
  {
    if s != [] {
      var p, t := s[..|s| - 1], s[|s| - 1];
      assert s == p + [t] && t in s && forall x :: x in p ==> x in s;
      AboveAll(p, h, k);
    }
  }

  /** The row of a bottom row cut at place j. */
  lemma AboveCut(s: seq<Timer>, h: map<Timer, nat>, k: nat, j: nat)
    requires j <= |s|
    ensures Above(s, h, k) == Above(s[..j], h, k) + Above(s[j..], h, k)
  {
    assert s == s[..j] + s[j..];
    AboveJoin(s[..j], s[j..], h, k);
  }

  lemma AboveWith(a: seq<Timer>, t: Timer, b: seq<Timer>, h: map<Timer, nat>, k: nat)
    ensures Above(a + [t] + b, h, k) == Above(a, h, k) + Tall(t, h, k) + Above(b, h, k)
  {
    hide Above, Tall;
    AboveJoin(a + [t], b, h, k);
    AboveJoin(a, [t], h, k);
    AboveOne(t, h, k);
  }

  /** Inserting into the bottom row inserts into exactly the rows the timer's height
      reaches, behind the timers that stay in front of it. */
  lemma AboveInsert(s: seq<Timer>, h: map<Timer, nat>, k: nat, j: nat, t: Timer, n: nat)
    requires j <= |s| && t !in s && (forall x :: x in s ==> x in h)
    ensures |Above(s[..j], h, k)| <= |Above(s, h, k)|
    ensures Above(InsertAt(s, j, t), h[t := n], k)
            == if n >= k then InsertAt(Above(s, h, k), |Above(s[..j], h, k)|, t) else Above(s, h, k)
  {
    hide Above;
    var h', a, b := h[t := n], Above(s[..j], h, k), Above(s[j..], h, k);
    AboveCut(s, h, k, j);
    AboveFrame(s[..j], h, h', k);
    AboveFrame(s[j..], h, h', k);
    AboveWith(s[..j], t, s[j..], h', k);
    assert InsertAt(a + b, |a|, t) == a + [t] + b;
  }

  lemma AboveRemove(s: seq<Timer>, h: map<Timer, nat>, k: nat, j: nat)
    requires j < |s| && Distinct(s)
    ensures Above(RemoveAt(s, j), h, k) == Without(Above(s, h, k), s[j])
    ensures Distinct(Above(s, h, k))
  {
    hide Above;
    var t, a, b := s[j], Above(s[..j], h, k), Above(s[j + 1..], h, k);
    assert s == s[..j] + [t] + s[j + 1..];
    AboveWith(s[..j], t, s[j + 1..], h, k);
    AboveJoin(s[..j], s[j + 1..], h, k);
    AboveDistinct(s, h, k);
    if t in h && h[t] >= k {
      assert (a + [t] + b)[|a|] == t;
      WithoutAt(a + [t] + b, |a|);
      assert RemoveAt(a + [t] + b, |a|) == a + b;
    } else {
      AboveMembers(s, h, k);
    }
  }

  lemma {:induction false} AboveDistinct(s: seq<Timer>, h: map<Timer, nat>, k: nat)
    requires Distinct(s)
    ensures Distinct(Above(s, h, k))
  {
    if s != [] {
      AboveDistinct(s[..|s| - 1], h, k);
      AboveMembers(s[..|s| - 1], h, k);
      assert s[|s| - 1] !in s[..|s| - 1];
    }
  }

  /** A sparser row is the same filter of a denser one. */
  lemma {:induction false} AboveAbove(s: seq<Timer>, h: map<Timer, nat>, k: nat, m: nat)
    requires k <= m
    ensures Above(Above(s, h, k), h, m) == Above(s, h, m)
  {
    if s != [] {
      var p, t := s[..|s| - 1], s[|s| - 1];
      AboveAbove(p, h, k, m);
      AboveTall(p, t, h, k, m);
    }
  }

  lemma AboveTall(p: seq<Timer>, t: Timer, h: map<Timer, nat>, k: nat, m: nat)
    requires k <= m
    ensures Above(Above(p, h, k) + Tall(t, h, k), h, m) == Above(Above(p, h, k), h, m) + Tall(t, h, m)
  {
    hide Above;
    AboveJoin(Above(p, h, k), Tall(t, h, k), h, m);
    AboveOne(t, h, m);
    AboveNone(h, m);
  }

  lemma AboveNone(h: map<Timer, nat>, k: nat)
    ensures Above([], h, k) == []
  {
  }

  /** The slot in a sparser row is where the slot of the bottom row falls. */
  lemma AboveSlot(s: seq<Timer>, key: map<Timer, nat>, h: map<Timer, nat>, k: nat, d: nat)
    requires Sorted(s, key)
    ensures Sorted(Above(s, h, k), key)
    ensures Slot(Above(s, h, k), key, d) == |Above(s[..Slot(s, key, d)], h, k)|
  {
    hide Sorted, Slot, Above;
    var j := Slot(s, key, d);
    SlotSplits(s, key, d);
    AboveSorted(s, key, h, k);
    AboveCut(s, h, k, j);
    AboveMembers(s[..j], h, k);
    AboveMembers(s[j..], h, k);
    var a, b := Above(s[..j], h, k), Above(s[j..], h, k);
    forall x | x in a ensures x in key && key[x] <= d {
      var i :| 0 <= i < j && s[..j][i] == x;
      assert s[i] == x;
    }
    forall x | x in b ensures x in key && d < key[x] {
      var i :| 0 <= i < |s| - j && s[j..][i] == x;
      assert s[j + i] == x;
    }
    SlotIs(a + b, key, d, |a|);
  }

  lemma {:induction false} AboveSorted(s: seq<Timer>, key: map<Timer, nat>, h: map<Timer, nat>, k: nat)
    requires Sorted(s, key)
    ensures Sorted(Above(s, h, k), key)
  {
    if s != [] {
      var p, t := s[..|s| - 1], s[|s| - 1];
      forall i, j | 0 <= i <= j < |p| ensures InOrder(p, key, i, j) { assert InOrder(s, key, i, j); }
      AboveSorted(p, key, h, k);
      AboveMembers(p, h, k);
      assert InOrder(s, key, |s| - 1, |s| - 1);
      forall x | x in Above(p, h, k) ensures x in key && key[x] <= key[t] {
        var i :| 0 <= i < |p| && p[i] == x;
        assert InOrder(s, key, i, |s| - 1);
      }
      SortedAppend(Above(p, h, k), key, t);
      if Tall(t, h, k) == [] { assert Above(p, h, k) + [] == Above(p, h, k); }
    }
  }

  lemma SortedAppend(r: seq<Timer>, key: map<Timer, nat>, t: Timer)
    requires Sorted(r, key) && t in key && forall x :: x in r ==> x in key && key[x] <= key[t]
    ensures Sorted(r + [t], key)
  {
    forall i, j | 0 <= i <= j < |r + [t]| ensures InOrder(r + [t], key, i, j) {
      if j < |r| { assert InOrder(r, key, i, j); } else if i < |r| { assert r[i] in r; }
    }
  }

  // ---- the rows ---------------------------------------------------------------------

  ghost function Nodes(s: seq<Timer>, row: nat): (r: seq<RowNode>)
    ensures |r| == |s| && forall i :: 0 <= i < |s| ==> r[i] == RowNode(s[i], row)
  {
    seq(|s|, i requires 0 <= i < |s| => RowNode(s[i], row))
  }

  lemma NodesMembers(s: seq<Timer>, row: nat, n: RowNode)
    ensures n in Nodes(s, row) <==> n.row == row && n.t in s
  {
    if n.row == row && n.t in s {
      var i :| 0 <= i < |s| && s[i] == n.t;
      assert Nodes(s, row)[i] == n;
    }
  }

  lemma NodesWithout(s: seq<Timer>, row: nat, n: RowNode)
    requires Distinct(s)
    ensures Without(Nodes(s, row), n) == if n.row == row then Nodes(Without(s, n.t), row) else Nodes(s, row)
  {
    hide Without, Nodes, RemoveAt;
    NodesMembers(s, row, n);
    if n in Nodes(s, row) {
      var i :| 0 <= i < |s| && s[i] == n.t;
      NodesRemove(s, row, i);
      WithoutAt(Nodes(s, row), i);
      WithoutAt(s, i);
    }
  }

  lemma NodesRemove(s: seq<Timer>, row: nat, i: nat)
    requires i < |s| && Distinct(s)
    ensures Distinct(Nodes(s, row)) && RemoveAt(Nodes(s, row), i) == Nodes(RemoveAt(s, i), row)
  {
  }

  lemma NodesInsert(s: seq<Timer>, row: nat, j: nat, t: Timer)
    requires j <= |s|
    ensures InsertAt(Nodes(s, row), j, RowNode(t, row)) == Nodes(InsertAt(s, j, t), row)
  {
  }

  /** Row i of `levels` rows over a bottom row. */
  ghost function Row(bottom: seq<Timer>, height: map<Timer, nat>, levels: nat, i: nat): seq<Timer>
    requires i < levels
  {
    Above(bottom, height, levels - i)
  }

  ghost predicate Layered(contents: map<nat, seq<RowNode>>, bottom: seq<Timer>, height: map<Timer, nat>, levels: nat) {
    && (forall i: nat :: i in contents <==> i < levels)
    && (forall i: nat :: i < levels ==> contents[i] == Nodes(Row(bottom, height, levels, i), i))
  }

  lemma AboveWithout(s: seq<Timer>, h: map<Timer, nat>, k: nat, t: Timer)
    requires Distinct(s)
    ensures Above(Without(s, t), h, k) == Without(Above(s, h, k), t) && Distinct(Above(s, h, k))
  {
    AboveDistinct(s, h, k);
    if t in s {
      var j := WithoutIs(s, t);
      AboveRemove(s, h, k, j);
    } else {
      AboveMembers(s, h, k);
    }
  }

  /** The first i rows have lost timer t. */
  ghost predicate Partly(c: map<nat, seq<RowNode>>, c': map<nat, seq<RowNode>>, t: Timer, i: nat) {
    && c'.Keys == c.Keys
    && forall r :: r in c ==> c'[r] == if r < i then Without(c[r], RowNode(t, r)) else c[r]
  }

  lemma UnlinkOne(c: map<nat, seq<RowNode>>, c1: map<nat, seq<RowNode>>, bottom: seq<Timer>, height: map<Timer, nat>,
                  levels: nat, t: Timer, i: nat)
    requires Layered(c, bottom, height, levels) && Partly(c, c1, t, i) && i < levels && Distinct(bottom)
    ensures Partly(c, map h | h in c1 :: Without(c1[h], RowNode(t, i)), t, i + 1)
  {
    hide Above, Row;
    forall r | r in c
      ensures Without(c1[r], RowNode(t, i)) == if r < i + 1 then Without(c[r], RowNode(t, r)) else c[r] {
      var s := Row(bottom, height, levels, r);
      RowDistinct(bottom, height, levels, r);
      NodesMembers(s, r, RowNode(t, i));
      NodesWithout(s, r, RowNode(t, i));
      if r < i {
        RowDistinct(Without(bottom, t), height, levels, r);
        NodesWithout(s, r, RowNode(t, r));
        NodesMembers(Without(s, t), r, RowNode(t, i));
      }
    }
  }

  lemma RowDistinct(bottom: seq<Timer>, height: map<Timer, nat>, levels: nat, i: nat)
    requires i < levels
    ensures Distinct(bottom) ==> Distinct(Row(bottom, height, levels, i))
  {
    if Distinct(bottom) { AboveDistinct(bottom, height, levels - i); }
  }

  lemma UnlinkAll(c: map<nat, seq<RowNode>>, c': map<nat, seq<RowNode>>, bottom: seq<Timer>, height: map<Timer, nat>,
                  levels: nat, t: Timer)
    requires Layered(c, bottom, height, levels) && Partly(c, c', t, levels) && Distinct(bottom)
    ensures Layered(c', Without(bottom, t), height, levels)
  {
    hide Above, Nodes, Row;
    forall r: nat | r < levels ensures c'[r] == Nodes(Row(Without(bottom, t), height, levels, r), r) {
      UnlinkRow(bottom, height, levels, t, r);
    }
  }

  lemma UnlinkRow(bottom: seq<Timer>, height: map<Timer, nat>, levels: nat, t: Timer, r: nat)
    requires r < levels && Distinct(bottom)
    ensures Without(Nodes(Row(bottom, height, levels, r), r), RowNode(t, r))
            == Nodes(Row(Without(bottom, t), height, levels, r), r)
  {
    hide Above, Nodes;
    AboveWithout(bottom, height, levels - r, t);
    NodesWithout(Row(bottom, height, levels, r), r, RowNode(t, r));
  }

  /** Number of rows for a new timer, from the low bits of the insertion counter. */
  function Height(bits: nat, levels: nat): (n: nat)
    requires levels > 0
    ensures 1 <= n <= levels
  {
    if levels > 1 && bits % 4 == 0 then 1 + Height(bits / 4, levels - 1) else 1
  }

  function FourTo(k: nat): nat {
    if k == 0 then 1 else 4 * FourTo(k - 1)
  }

  predicate Times(n: nat, p: nat, q: nat) {
    n == p * q
  }

  ghost predicate Divides(p: nat, n: nat) {
    exists q :: Times(n, p, q)
  }

  /** One counter in four leads to a second row, one in sixteen to a third, and so on. */
  lemma {:induction false} HeightMeans(bits: nat, levels: nat, k: nat)
    requires k < levels
    ensures Height(bits, levels) > k <==> Divides(FourTo(k), bits)
    decreases k
  {
    hide Divides;
    if k == 0 {
      OneDivides(bits);
    } else {
      HeightMeans(bits / 4, levels - 1, k - 1);
      FourDivides(FourTo(k - 1), bits);
    }
  }

  lemma OneDivides(n: nat)
    ensures Divides(1, n)
  {
    assert Times(n, 1, n);
  }

  lemma FourDivides(p: nat, n: nat)
    ensures Divides(4 * p, n) <==> n % 4 == 0 && Divides(p, n / 4)
  {
    hide Times;
    if n % 4 == 0 && Divides(p, n / 4) {
      var q :| Times(n / 4, p, q);
      TimesFour(n, p, q);
    }
    if Divides(4 * p, n) {
      var q :| Times(n, 4 * p, q);
      TimesFour(n, p, q);
    }
  }

  lemma TimesFour(n: nat, p: nat, q: nat)
    ensures Times(n, 4 * p, q) <==> n % 4 == 0 && Times(n / 4, p, q)
  {
    Fourfold(p, q);
  }

  lemma Fourfold(p: nat, q: nat)
    ensures 4 * p * q == 4 * (p * q)
  {
  }

  /** Where timer t belongs in s: behind every timer that is not later. */
  ghost function Spot(s: seq<Timer>, timeout: map<Timer, nat>, base: nat, d: nat): (j: nat)
    requires base < WORD && d < WORD
    ensures j <= |s|
  {
    Slot(s, Keys(timeout, base), Sub(d, base))
  }

  // ---- rt_timer_check -----------------------------------------------------------------

  /** What a timeout function does to the timers. */
  datatype Command = StartIt(t: Timer) | StopIt(t: Timer)

  /** 1 for the timers that are due at tick now, so that the due timers of a list
      are the ones Above 1. */
  ghost function Dues(timeout: map<Timer, nat>, now: nat): (r: map<Timer, nat>)
    requires now < WORD
    ensures r.Keys == timeout.Keys
  {
    map t | t in timeout :: if timeout[t] < WORD && Sub(now, timeout[t]) < HALF then 1 else 0
  }

  /** The due timers of s, in order. */
  ghost function DueOf(s: seq<Timer>, timeout: map<Timer, nat>, now: nat): seq<Timer>
    requires now < WORD
  {
    Above(s, Dues(timeout, now), 1)
  }

  ghost function Minus(s: seq<Timer>, cs: seq<Command>): (r: seq<Timer>)
    ensures |r| <= |s|
  {
    if cs == [] then s else Without(Minus(s, cs[..|cs| - 1]), cs[|cs| - 1].t)
  }

  /** Who fires when the due timers are s: the first one, then those of the rest
      that its timeout function has not stopped or started over. */
  ghost function Fires(s: seq<Timer>, calls: map<Timer, seq<Command>>): seq<Timer>
    decreases |s|
  {
    if s == [] then []
    else [s[0]] + Fires(if s[0] in calls then Minus(s[1..], calls[s[0]]) else s[1..], calls)
  }

  /** Some command concerns timer x. */
  ghost predicate Named(cs: seq<Command>, x: Timer) {
    cs != [] && (cs[|cs| - 1].t == x || Named(cs[..|cs| - 1], x))
  }

  /** The timeout function of y stops or starts x. */
  ghost predicate Touches(calls: map<Timer, seq<Command>>, y: Timer, x: Timer) {
    y in calls && Named(calls[y], x)
  }

  /** After the commands cs an active timer t is still active. */
  ghost predicate Stays(cs: seq<Command>, t: Timer) {
    cs == [] || if cs[|cs| - 1].t == t then cs[|cs| - 1].StartIt? else Stays(cs[..|cs| - 1], t)
  }

  lemma {:induction false} MinusMembers(s: seq<Timer>, cs: seq<Command>)
    requires Distinct(s)
    ensures Distinct(Minus(s, cs))
    ensures forall x :: x in Minus(s, cs) <==> x in s && !Named(cs, x)
  {
    if cs != [] {
      var p, c := cs[..|cs| - 1], cs[|cs| - 1];
      MinusMembers(s, p);
      WithoutMembers(Minus(s, p), c.t);
    }
  }

  /** Only due timers fire, none twice, and a due timer that does not fire was
      stopped or started over by the timeout function of one that did. */
  lemma {:induction false} FiresWho(s: seq<Timer>, calls: map<Timer, seq<Command>>)
    requires Distinct(s)
    ensures Distinct(Fires(s, calls))
    ensures forall x :: x in Fires(s, calls) ==> x in s
    ensures forall x :: x in s && x !in Fires(s, calls) ==> exists y :: y in Fires(s, calls) && Touches(calls, y, x)
    decreases |s|
  {
    if s != [] {
      var y := s[0];
      var rest := if y in calls then Minus(s[1..], calls[y]) else s[1..];
      assert s == [y] + s[1..] && y !in s[1..];
      if y in calls { MinusMembers(s[1..], calls[y]); }
      FiresWho(rest, calls);
      var f := Fires(rest, calls);
      assert Fires(s, calls) == [y] + f;
      forall x | x in s && x !in [y] + f ensures exists z :: z in [y] + f && Touches(calls, z, x) {
        if x in rest {
          var z :| z in f && Touches(calls, z, x);
          assert z in [y] + f;
        } else {
          assert y in [y] + f && Touches(calls, y, x);
        }
      }
    }
  }

  /** Timeout functions that leave the other timers alone: every due timer fires, in
      order of deadline, ties in order of their start. */
  lemma {:induction false} FiresAll(s: seq<Timer>, calls: map<Timer, seq<Command>>)
    requires Distinct(s)
    requires forall y, x :: y in s && x in s && x != y ==> !Touches(calls, y, x)
    ensures Fires(s, calls) == s
    decreases |s|
  {
    if s != [] {
      assert s == [s[0]] + s[1..] && s[0] !in s[1..];
      if s[0] in calls {
        forall x | x in s[1..] ensures !Named(calls[s[0]], x) {
          assert !Touches(calls, s[0], x);
        }
        MinusNothing(s[1..], calls[s[0]]);
      }
      FiresAll(s[1..], calls);
    }
  }

  lemma {:induction false} MinusNothing(s: seq<Timer>, cs: seq<Command>)
    requires forall x :: x in s ==> !Named(cs, x)
    ensures Minus(s, cs) == s
  {
    if cs != [] {
      MinusNothing(s, cs[..|cs| - 1]);
    }
  }

  lemma NoCommand(s: seq<Timer>)
    ensures Minus(s, []) == s
  {
  }

  lemma NextCommand(s: seq<Timer>, cs: seq<Command>, i: nat)
    requires i < |cs|
    ensures Minus(s, cs[..i + 1]) == Without(Minus(s, cs[..i]), cs[i].t)
    ensures forall t :: Stays(cs[..i + 1], t) <==> if cs[i].t == t then cs[i].StartIt? else Stays(cs[..i], t)
  {
    var c := cs[..i + 1];
    assert c[..|c| - 1] == cs[..i] && c[|c| - 1] == cs[i];
    forall t ensures Stays(c, t) <==> if cs[i].t == t then cs[i].StartIt? else Stays(cs[..i], t) {
      assert Stays(c, t) <==> if c[|c| - 1].t == t then c[|c| - 1].StartIt? else Stays(c[..|c| - 1], t);
    }
  }

  /** Once fired, a timer is not among the due ones that are left. */
  lemma FirstGone(s: seq<Timer>, cs: seq<Command>)
    requires Distinct(s) && s != []
    ensures s[0] !in Minus(s[1..], cs)
  {
    assert s == [s[0]] + s[1..];
    MinusMembers(s[1..], cs);
  }

  lemma DueWithout(s: seq<Timer>, timeout: map<Timer, nat>, now: nat, t: Timer)
    requires now < WORD && Distinct(s)
    ensures DueOf(Without(s, t), timeout, now) == Without(DueOf(s, timeout, now), t)
    ensures Distinct(DueOf(s, timeout, now))
  {
    AboveWithout(s, Dues(timeout, now), 1, t);
  }

  /** Starting a timer for a later tick takes it out of the due ones. */
  lemma DueStart(s: seq<Timer>, timeout: map<Timer, nat>, now: nat, t: Timer, d: nat, j: nat)
    requires now < WORD && d < WORD && Distinct(s) && t in timeout && !(Sub(now, d) < HALF)
    requires (forall x :: x in s ==> x in timeout) && j <= |Without(s, t)|
    ensures DueOf(InsertAt(Without(s, t), j, t), timeout[t := d], now) == Without(DueOf(s, timeout, now), t)
    ensures Distinct(DueOf(s, timeout, now))
  {
    hide Above, Sub;
    var b, due := Without(s, t), Dues(timeout, now);
    WithoutMembers(s, t);
    AboveInsert(b, due, 1, j, t, 0);
    assert Dues(timeout[t := d], now) == due[t := 0];
    AboveWithout(s, due, 1, t);
  }

  /** When the earliest timer is not due, none is: the check may stop there. */
  lemma FirstNotDue(s: seq<Timer>, timeout: map<Timer, nat>, base: nat, now: nat)
    requires base < WORD && now < WORD && InWindow(base, now) && s != []
    requires forall t :: t in s ==> t in timeout && InWindow(base, timeout[t])
    requires s[0] in timeout && timeout[s[0]] < WORD
    requires Sorted(s, Keys(timeout, base)) && !(Sub(now, timeout[s[0]]) < HALF)
    ensures DueOf(s, timeout, now) == []
  {
    hide Above;
    var d := DueOf(s, timeout, now);
    AboveMembers(s, Dues(timeout, now), 1);
    if d != [] {
      assert d[0] in d;
      var i :| 0 <= i < |s| && s[i] == d[0];
      assert InOrder(s, Keys(timeout, base), 0, i) && s[0] in s && s[i] in s;
      WindowOrder(base, now, timeout[s[i]]);
      WindowOrder(base, now, timeout[s[0]]);
    }
  }

  lemma FirstDue(s: seq<Timer>, timeout: map<Timer, nat>, now: nat)
    requires now < WORD && s != [] && s[0] in timeout && timeout[s[0]] < WORD && Sub(now, timeout[s[0]]) < HALF
    ensures DueOf(s, timeout, now) != [] && DueOf(s, timeout, now)[0] == s[0]
    ensures DueOf(s[1..], timeout, now) == DueOf(s, timeout, now)[1..]
  {
    hide Above;
    var h := Dues(timeout, now);
    assert s == [s[0]] + s[1..];
    AboveJoin([s[0]], s[1..], h, 1);
    AboveOne(s[0], h, 1);
  }

  /** A timer started at tick now with delay n is not due at now. */
  lemma NotYetDue(now: nat, n: nat)
    requires now < WORD && 1 <= n < HALF
    ensures !(Sub(now, Add(now, n)) < HALF)
  {
  }

  // ---- what commands leave behind --------------------------------------------------------

  /** The timers on the list, their deadlines, and those with the flag. */
  datatype Sched = Sched(list: seq<Timer>, timeout: map<Timer, nat>, active: set<Timer>)

  /** The last command on x starts it. */
  ghost predicate LastStarts(cs: seq<Command>, x: Timer) {
    cs != [] && if cs[|cs| - 1].t == x then cs[|cs| - 1].StartIt? else LastStarts(cs[..|cs| - 1], x)
  }

  /** The last command on x or y is on y. */
  ghost predicate Later(cs: seq<Command>, x: Timer, y: Timer) {
    cs != [] && (cs[|cs| - 1].t == y || (cs[|cs| - 1].t != x && Later(cs[..|cs| - 1], x, y)))
  }

  ghost predicate Before(s: seq<Timer>, x: Timer, y: Timer) {
    exists i, j :: 0 <= i < j < |s| && s[i] == x && s[j] == y
  }

  ghost predicate Tied(s: Sched, x: Timer, y: Timer) {
    x != y && x in s.list && y in s.list && x in s.timeout && y in s.timeout && s.timeout[x] == s.timeout[y]
  }

  /** The commands cs lead from a to b. The last one on a timer decides whether it is
      active, and with that on the list; a timer that was started has a new deadline.
      Timers no command concerns keep everything, their order included, and of two timers
      with the same deadline the one started last is behind. */
  ghost predicate Performed(a: Sched, cs: seq<Command>, b: Sched, tick: nat, init: map<Timer, nat>) {
    && b.timeout.Keys == a.timeout.Keys && Distinct(a.list) && Distinct(b.list)
    && (forall x :: x in b.active <==> if Named(cs, x) then LastStarts(cs, x) else x in a.active)
    && (forall x :: x in b.list <==> if Named(cs, x) then LastStarts(cs, x) else x in a.list)
    && (forall x :: x in a.timeout ==> Redated(a, cs, b, tick, init, x))
    && Minus(b.list, cs) == Minus(a.list, cs)
    && (forall x, y :: Later(cs, x, y) && Tied(b, x, y) ==> Before(b.list, x, y))
  }

  ghost predicate Redated(a: Sched, cs: seq<Command>, b: Sched, tick: nat, init: map<Timer, nat>, x: Timer) {
    && x in a.timeout && x in b.timeout
    && b.timeout[x] == if StartIt(x) in cs && x in init then Add(tick, init[x]) else a.timeout[x]
  }

  lemma {:induction false} CommandsJoin(a: seq<Command>, b: seq<Command>)
    ensures forall x :: Named(a + b, x) <==> Named(a, x) || Named(b, x)
    ensures forall x :: LastStarts(a + b, x) <==> if Named(b, x) then LastStarts(b, x) else LastStarts(a, x)
    ensures forall x, y :: Later(a + b, x, y) <==> if Named(b, x) || Named(b, y) then Later(b, x, y) else Later(a, x, y)
    decreases |b|
  {
    if b == [] {
      assert a + b == a;
    } else {
      var c := b[..|b| - 1];
      CommandsJoin(a, c);
      assert (a + b)[..|a + b| - 1] == a + c && (a + b)[|a + b| - 1] == b[|b| - 1];
    }
  }

  lemma {:induction false} NamedIn(cs: seq<Command>, x: Timer)
    ensures StartIt(x) in cs ==> Named(cs, x)
  {
    if cs != [] {
      NamedIn(cs[..|cs| - 1], x);
      assert cs == cs[..|cs| - 1] + [cs[|cs| - 1]];
    }
  }

  lemma {:induction false} MinusJoin(s: seq<Timer>, a: seq<Command>, b: seq<Command>)
    ensures Minus(s, a + b) == Minus(Minus(s, a), b)
    decreases |b|
  {
    if b == [] {
      assert a + b == a;
    } else {
      var c := b[..|b| - 1];
      MinusJoin(s, a, c);
      assert (a + b)[..|a + b| - 1] == a + c;
    }
  }

  lemma WithoutSwap(s: seq<Timer>, x: Timer, y: Timer)
    requires Distinct(s)
    ensures Without(Without(s, x), y) == Without(Without(s, y), x)
  {
    hide Without, Distinct;
    WithoutMembers(s, x);
    WithoutMembers(s, y);
    if x in s && y in s && x != y {
      var i := WithoutIs(s, x);
      var j := WithoutIs(s, y);
      if i < j { BothOut(s, i, j); } else { BothOut(s, j, i); }
    }
  }

  lemma BothOut(s: seq<Timer>, i: nat, j: nat)
    requires i < j < |s| && Distinct(s)
    ensures Without(RemoveAt(s, i), s[j]) == Without(RemoveAt(s, j), s[i])
  {
    hide Without, Distinct, RemoveAt;
    DistinctRemove(s, i);
    DistinctRemove(s, j);
    RemovedTwice(s, i, j);
    WithoutAt(RemoveAt(s, i), j - 1);
    WithoutAt(RemoveAt(s, j), i);
  }

  lemma RemovedTwice(s: seq<Timer>, i: nat, j: nat)
    requires i < j < |s|
    ensures RemoveAt(RemoveAt(s, i), j - 1) == RemoveAt(RemoveAt(s, j), i)
    ensures RemoveAt(s, i)[j - 1] == s[j] && RemoveAt(s, j)[i] == s[i]
  {
    assert RemoveAt(RemoveAt(s, i), j - 1) == s[..i] + s[i + 1..j] + s[j + 1..];
    assert RemoveAt(RemoveAt(s, j), i) == s[..i] + s[i + 1..j] + s[j + 1..];
  }

  lemma {:induction false} MinusWithout(s: seq<Timer>, cs: seq<Command>, t: Timer)
    requires Distinct(s)
    ensures Minus(Without(s, t), cs) == Without(Minus(s, cs), t)
  {
    if cs != [] {
      var p := cs[..|cs| - 1];
      MinusWithout(s, p, t);
      MinusMembers(s, p);
      WithoutSwap(Minus(s, p), t, cs[|cs| - 1].t);
    }
  }

  lemma {:induction false} MinusSwap(s: seq<Timer>, a: seq<Command>, b: seq<Command>)
    requires Distinct(s)
    ensures Minus(Minus(s, a), b) == Minus(Minus(s, b), a)
    decreases |b|
  {
    if b != [] {
      var c := b[..|b| - 1];
      MinusSwap(s, a, c);
      MinusMembers(s, c);
      MinusWithout(Minus(s, c), a, b[|b| - 1].t);
    }
  }

  lemma BeforeWithout(s: seq<Timer>, t: Timer, x: Timer, y: Timer)
    requires Distinct(s) && x != t && y != t
    ensures Before(Without(s, t), x, y) <==> Before(s, x, y)
  {
    hide Without, Before, RemoveAt;
    WithoutMembers(s, t);
    if t in s {
      var k := WithoutIs(s, t);
      BeforeRemove(s, k, x, y);
    }
  }

  lemma BeforeRemove(s: seq<Timer>, k: nat, x: Timer, y: Timer)
    requires k < |s| && s[k] != x && s[k] != y
    ensures Before(RemoveAt(s, k), x, y) <==> Before(s, x, y)
  {
    hide Before;
    if Before(s, x, y) { BeforeLess(s, k, x, y); }
    if Before(RemoveAt(s, k), x, y) { BeforeMore(s, k, x, y); }
  }

  lemma BeforeLess(s: seq<Timer>, k: nat, x: Timer, y: Timer)
    requires k < |s| && s[k] != x && s[k] != y && Before(s, x, y)
    ensures Before(RemoveAt(s, k), x, y)
  {
    var i, j :| 0 <= i < j < |s| && s[i] == x && s[j] == y;
    assert RemoveAt(s, k)[if i < k then i else i - 1] == x;
    assert RemoveAt(s, k)[if j < k then j else j - 1] == y;
  }

  lemma BeforeMore(s: seq<Timer>, k: nat, x: Timer, y: Timer)
    requires k < |s| && Before(RemoveAt(s, k), x, y)
    ensures Before(s, x, y)
  {
    var i, j :| 0 <= i < j < |s| - 1 && RemoveAt(s, k)[i] == x && RemoveAt(s, k)[j] == y;
    assert s[if i < k then i else i + 1] == x && s[if j < k then j else j + 1] == y;
  }

  lemma {:induction false} BeforeMinus(s: seq<Timer>, cs: seq<Command>, x: Timer, y: Timer)
    requires Distinct(s) && !Named(cs, x) && !Named(cs, y)
    ensures Before(Minus(s, cs), x, y) <==> Before(s, x, y)
  {
    hide Before;
    if cs != [] {
      var p := cs[..|cs| - 1];
      BeforeMinus(s, p, x, y);
      MinusMembers(s, p);
      BeforeWithout(Minus(s, p), cs[|cs| - 1].t, x, y);
    }
  }

  lemma PerformedNone(a: Sched, tick: nat, init: map<Timer, nat>)
    requires Distinct(a.list)
    ensures Performed(a, [], a, tick, init)
  {
  }

  lemma PerformedJoin(a: Sched, p: seq<Command>, b: Sched, q: seq<Command>, c: Sched, tick: nat, init: map<Timer, nat>)
    requires Performed(a, p, b, tick, init) && Performed(b, q, c, tick, init)
    ensures Performed(a, p + q, c, tick, init)
  {
    hide Before, Named, LastStarts, Later, Minus;
    CommandsJoin(p, q);
    MinusJoin(a.list, p, q);
    MinusJoin(c.list, p, q);
    MinusSwap(c.list, p, q);
    MinusSwap(b.list, p, q);
    forall x | x in a.timeout ensures Redated(a, p + q, c, tick, init, x) {
      assert Redated(a, p, b, tick, init, x) && Redated(b, q, c, tick, init, x);
    }
    forall x, y | Later(p + q, x, y) && Tied(c, x, y) ensures Before(c.list, x, y) {
      if !Named(q, x) && !Named(q, y) {
        NamedIn(q, x);
        NamedIn(q, y);
        assert Redated(b, q, c, tick, init, x) && Redated(b, q, c, tick, init, y);
        assert Tied(b, x, y);
        BeforeMinus(b.list, q, x, y);
        BeforeMinus(c.list, q, x, y);
      }
    }
  }

  lemma OneCommand(c: Command)
    ensures forall x :: (Named([c], x) <==> x == c.t) && (LastStarts([c], x) <==> c == StartIt(x))
    ensures forall x, y :: Later([c], x, y) <==> y == c.t
  {
    var one := [c];
    assert one[..|one| - 1] == [];
    forall x ensures (Named(one, x) <==> x == c.t) && (LastStarts(one, x) <==> c == StartIt(x)) {
      assert !Named([], x) && !LastStarts([], x);
    }
    forall x, y ensures Later(one, x, y) <==> y == c.t {
      assert !Later([], x, y);
    }
  }

  lemma MinusOne(s: seq<Timer>, c: Command)
    ensures Minus(s, [c]) == Without(s, c.t)
  {
    assert [c][..0] == [];
    NoCommand(s);
  }

  lemma StopPerformed(a: Sched, t: Timer, tick: nat, init: map<Timer, nat>)
    requires Distinct(a.list)
    ensures Performed(a, [StopIt(t)], Sched(Without(a.list, t), a.timeout, a.active - {t}), tick, init)
  {
    hide Before, Named, LastStarts, Later, Minus;
    var b := Sched(Without(a.list, t), a.timeout, a.active - {t});
    OneCommand(StopIt(t));
    MinusOne(a.list, StopIt(t));
    MinusOne(b.list, StopIt(t));
    WithoutMembers(a.list, t);
    WithoutMembers(b.list, t);
    forall x | x in a.timeout ensures Redated(a, [StopIt(t)], b, tick, init, x) { }
  }

  lemma StartPerformed(a: Sched, t: Timer, base: nat, tick: nat, init: map<Timer, nat>)
    requires Distinct(a.list) && t in a.timeout && t in init && base < WORD
    requires (forall x :: x in a.list ==> x in a.timeout && a.timeout[x] < WORD)
    requires var d := Add(tick, init[t]); Sorted(Without(a.list, t), Keys(a.timeout[t := d], base))
    ensures var d := Add(tick, init[t]); var w, timeout := Without(a.list, t), a.timeout[t := d];
            d < WORD
            && Performed(a, [StartIt(t)], Sched(InsertAt(w, Spot(w, timeout, base, d), t), timeout, a.active + {t}), tick, init)
  {
    hide Before, Named, LastStarts, Later, Minus, Sorted, Spot, InsertAt, Without;
    var d := Add(tick, init[t]);
    var w, timeout := Without(a.list, t), a.timeout[t := d];
    var j := Spot(w, timeout, base, d);
    var b := Sched(InsertAt(w, j, t), timeout, a.active + {t});
    OneCommand(StartIt(t));
    MinusOne(a.list, StartIt(t));
    MinusOne(b.list, StartIt(t));
    WithoutMembers(a.list, t);
    DistinctInsert(w, j, t);
    InsertMembers(w, j, t);
    WithoutInsert(w, j, t);
    forall x | x in a.timeout ensures Redated(a, [StartIt(t)], b, tick, init, x) { }
    forall x | Tied(b, x, t) ensures Before(b.list, x, t) { BehindEqual(w, timeout, base, x, t); }
  }

  /** Where a timer is inserted all those with its deadline are in front of it. */
  lemma BehindEqual(w: seq<Timer>, timeout: map<Timer, nat>, base: nat, x: Timer, t: Timer)
    requires base < WORD && Sorted(w, Keys(timeout, base)) && x in w && x in timeout && t in timeout
    requires timeout[x] == timeout[t] < WORD
    ensures Before(InsertAt(w, Spot(w, timeout, base, timeout[t]), t), x, t)
  {
    hide Sorted, Slot;
    var j := Spot(w, timeout, base, timeout[t]);
    SlotSplits(w, Keys(timeout, base), Sub(timeout[t], base));
    var i :| 0 <= i < |w| && w[i] == x;
    assert i < j;
    assert InsertAt(w, j, t)[i] == x && InsertAt(w, j, t)[j] == t;
  }

  // ---- what a check leaves behind ---------------------------------------------------------

  /** Once its timeout function is done, a fired timer is started again or given up. */
  ghost function Verdict(t: Timer, cs: seq<Command>, periodic: set<Timer>): Command {
    if t in periodic && Stays(cs, t) then StartIt(t) else StopIt(t)
  }

  /** Everything a check does to the timers: for each that fires the commands of its
      function and the verdict on it. */
  ghost function Ops(fired: seq<Timer>, calls: map<Timer, seq<Command>>, periodic: set<Timer>): seq<Command> {
    if fired == [] then []
    else
      var t := fired[|fired| - 1];
      Ops(fired[..|fired| - 1], calls, periodic) + if t in calls then calls[t] + [Verdict(t, calls[t], periodic)] else []
  }

  /** No timer that fires after the k-th stops or starts it. */
  ghost predicate LastWord(fired: seq<Timer>, calls: map<Timer, seq<Command>>, k: nat) {
    k < |fired| && forall m :: k < m < |fired| ==> !Touches(calls, fired[m], fired[k])
  }

  /** x neither fires nor is stopped or started by a timer that does. */
  ghost predicate Alone(fired: seq<Timer>, calls: map<Timer, seq<Command>>, x: Timer) {
    x !in fired && forall m :: 0 <= m < |fired| ==> !Touches(calls, fired[m], x)
  }

  lemma {:induction false} LastStartsIn(cs: seq<Command>, x: Timer)
    requires LastStarts(cs, x)
    ensures Named(cs, x) && StartIt(x) in cs
  {
    if cs[|cs| - 1].t != x { LastStartsIn(cs[..|cs| - 1], x); }
  }

  /** An active timer is active behind the commands unless the last one on it stops it. */
  lemma {:induction false} StaysIs(cs: seq<Command>, x: Timer)
    ensures Stays(cs, x) <==> !Named(cs, x) || LastStarts(cs, x)
  {
    if cs != [] { StaysIs(cs[..|cs| - 1], x); }
  }

  lemma OpsLast(fired: seq<Timer>, calls: map<Timer, seq<Command>>, periodic: set<Timer>, x: Timer)
    requires fired != [] && fired[|fired| - 1] in calls
    ensures var t := fired[|fired| - 1];
            var front, all := Ops(fired[..|fired| - 1], calls, periodic), Ops(fired, calls, periodic);
            && (Named(all, x) <==> Named(front, x) || Named(calls[t], x) || x == t)
            && (LastStarts(all, x) <==>
                  if x == t then t in periodic && Stays(calls[t], t)
                  else if Named(calls[t], x) then LastStarts(calls[t], x) else LastStarts(front, x))
  {
    hide Named, LastStarts, Stays;
    var t := fired[|fired| - 1];
    var v := Verdict(t, calls[t], periodic);
    CommandsJoin(Ops(fired[..|fired| - 1], calls, periodic), calls[t] + [v]);
    CommandsJoin(calls[t], [v]);
    OneCommand(v);
  }

  /** A fired timer nobody touches later is active exactly if it is periodic and its own
      function has not stopped it. */
  lemma {:induction false} FateOfFired(fired: seq<Timer>, calls: map<Timer, seq<Command>>, periodic: set<Timer>, k: nat)
    requires Distinct(fired) && (forall t :: t in fired ==> t in calls) && LastWord(fired, calls, k)
    ensures var t := fired[k]; var all := Ops(fired, calls, periodic);
            Named(all, t) && (LastStarts(all, t) <==> t in periodic && Stays(calls[t], t))
    decreases |fired|
  {
    hide Named, LastStarts, Stays, Ops;
    var front, last := fired[..|fired| - 1], fired[|fired| - 1];
    assert fired == front + [last] && last in fired;
    OpsLast(fired, calls, periodic, fired[k]);
    if k < |front| {
      assert front[k] == fired[k] && !Touches(calls, last, fired[k]);
      forall m | k < m < |front| ensures !Touches(calls, front[m], front[k]) { assert front[m] == fired[m]; }
      FateOfFired(front, calls, periodic, k);
    }
  }

  /** The last timer whose function touches x decides about it, unless x fires later. */
  lemma {:induction false} FateOfTouched(fired: seq<Timer>, calls: map<Timer, seq<Command>>, periodic: set<Timer>,
                                         k: nat, x: Timer)
    requires (forall t :: t in fired ==> t in calls) && k < |fired| && fired[k] != x && Touches(calls, fired[k], x)
    requires forall m :: k < m < |fired| ==> fired[m] != x && !Touches(calls, fired[m], x)
    ensures var all := Ops(fired, calls, periodic);
            Named(all, x) && (LastStarts(all, x) <==> LastStarts(calls[fired[k]], x))
    decreases |fired|
  {
    hide Named, LastStarts, Stays, Ops;
    var front, last := fired[..|fired| - 1], fired[|fired| - 1];
    assert fired == front + [last] && last in fired;
    OpsLast(fired, calls, periodic, x);
    if k < |front| {
      assert front[k] == fired[k];
      forall m | k < m < |front| ensures front[m] != x && !Touches(calls, front[m], x) { assert front[m] == fired[m]; }
      FateOfTouched(front, calls, periodic, k, x);
    }
  }

  lemma {:induction false} FateOfOthers(fired: seq<Timer>, calls: map<Timer, seq<Command>>, periodic: set<Timer>, x: Timer)
    requires (forall t :: t in fired ==> t in calls) && Alone(fired, calls, x)
    ensures !Named(Ops(fired, calls, periodic), x)
    decreases |fired|
  {
    if fired != [] {
      var front, last := fired[..|fired| - 1], fired[|fired| - 1];
      assert fired == front + [last] && last in fired && !Touches(calls, last, x);
      OpsLast(fired, calls, periodic, x);
      forall m | 0 <= m < |front| ensures !Touches(calls, front[m], x) { assert front[m] == fired[m]; }
      FateOfOthers(front, calls, periodic, x);
    }
  }

  /** For each timer what that makes of it. */
  lemma CheckLeaves(a: Sched, fired: seq<Timer>, calls: map<Timer, seq<Command>>, periodic: set<Timer>, b: Sched,
                    tick: nat, init: map<Timer, nat>)
    requires Performed(a, Ops(fired, calls, periodic), b, tick, init) && a.timeout.Keys == init.Keys
    requires Distinct(fired) && forall t :: t in fired ==> t in calls && t in a.timeout
    ensures forall k :: 0 <= k < |fired| && LastWord(fired, calls, k) ==> Settled(fired[k], calls, periodic, b, tick, init)
    ensures forall x :: Alone(fired, calls, x) ==> Left(a, b, x)
    ensures forall x, y :: Alone(fired, calls, x) && Alone(fired, calls, y) ==> (Before(b.list, x, y) <==> Before(a.list, x, y))
  {
    hide Named, LastStarts, Stays, Ops, Alone, LastWord, Before;
    var ops := Ops(fired, calls, periodic);
    forall k: nat | k < |fired| && LastWord(fired, calls, k) ensures Settled(fired[k], calls, periodic, b, tick, init) {
      var t := fired[k];
      FateOfFired(fired, calls, periodic, k);
      assert t in fired && Redated(a, ops, b, tick, init, t);
      if LastStarts(ops, t) { LastStartsIn(ops, t); }
    }
    forall x | Alone(fired, calls, x) ensures Left(a, b, x) {
      FateOfOthers(fired, calls, periodic, x);
      NamedIn(ops, x);
      if x in a.timeout { assert Redated(a, ops, b, tick, init, x); }
    }
    forall x, y | Alone(fired, calls, x) && Alone(fired, calls, y) ensures Before(b.list, x, y) <==> Before(a.list, x, y) {
      FateOfOthers(fired, calls, periodic, x);
      FateOfOthers(fired, calls, periodic, y);
      BeforeMinus(a.list, ops, x, y);
      BeforeMinus(b.list, ops, x, y);
    }
  }

  /** A fired timer that is periodic and was not stopped by its function is active and on
      the list with a new deadline, any other is neither. */
  ghost predicate Settled(t: Timer, calls: map<Timer, seq<Command>>, periodic: set<Timer>, b: Sched,
                          tick: nat, init: map<Timer, nat>)
  {
    && t in calls && t in init && t in b.timeout
    && (t in b.active <==> t in periodic && Stays(calls[t], t)) && (t in b.list <==> t in b.active)
    && (t in b.active ==> b.timeout[t] == Add(tick, init[t]))
  }

  ghost predicate Left(a: Sched, b: Sched, x: Timer) {
    && (x in b.active <==> x in a.active) && (x in b.list <==> x in a.list)
    && (x in b.timeout <==> x in a.timeout) && (x in a.timeout ==> b.timeout[x] == a.timeout[x])
  }

  /** The first timer is taken off the list, its function's commands run, and the verdict
      follows: as if it had been on the list all along, because the verdict concerns it. */
  lemma FirePerformed(a: Sched, a0: Sched, cs: seq<Command>, m: Sched, v: Command, b: Sched, tick: nat, init: map<Timer, nat>)
    requires Distinct(a.list) && a0 == a.(list := Without(a.list, v.t))
    requires Performed(a0, cs, m, tick, init) && Performed(m, [v], b, tick, init)
    ensures Performed(a, cs + [v], b, tick, init)
  {
    hide Before, Named, LastStarts, Later, Minus;
    PerformedJoin(a0, cs, m, [v], b, tick, init);
    CommandsJoin(cs, [v]);
    OneCommand(v);
    var ops := cs + [v];
    WithoutMembers(a.list, v.t);
    MinusWithout(a.list, ops, v.t);
    MinusMembers(a.list, ops);
    forall x | x in a.timeout ensures Redated(a, ops, b, tick, init, x) { assert Redated(a0, ops, b, tick, init, x); }
  }

  // ---- the sections of rt_timer_start -------------------------------------------------

  /** The second section of rt_timer_start links the timer once exactly if it is on no
      list by then. */
  lemma InsertSafe(bottom: seq<Timer>, j: nat, t: Timer)
    requires Distinct(bottom) && j <= |bottom|
    ensures Distinct(InsertAt(bottom, j, t)) <==> t !in bottom
  {
    if t in bottom {
      var i :| 0 <= i < |bottom| && bottom[i] == t;
      var s := InsertAt(bottom, j, t);
      assert s[j] == t && s[if i < j then i else i + 1] == t;
    } else {
      DistinctInsert(bottom, j, t);
    }
  }

  /** A timeout function that runs between the two sections and starts the same timer
      leaves it on the list, and the second section links it again, wherever. */
  lemma StartGap(bottom: seq<Timer>, t: Timer, k: nat, j: nat)
    requires Distinct(bottom) && k <= |Without(bottom, t)|
    requires j <= |InsertAt(Without(bottom, t), k, t)|
    ensures !Distinct(InsertAt(InsertAt(Without(bottom, t), k, t), j, t))
  {
    WithoutMembers(bottom, t);
    InsertSafe(Without(bottom, t), k, t);
    InsertMembers(Without(bottom, t), k, t);
    InsertSafe(InsertAt(Without(bottom, t), k, t), j, t);
  }

  lemma WithoutFirst(s: seq<Timer>)
    requires Distinct(s) && s != []
    ensures Without(s, s[0]) == s[1..]
  {
    WithoutAt(s, 0);
    assert RemoveAt(s, 0) == s[1..];
  }

  class TimerList {
    const levels: nat                          // RT_TIMER_SKIP_LIST_LEVEL
    const lists: ListSpace<nat, RowNode>       // rt_timer_list and the row members
    const timers: set<Timer>
    var tick: nat                              // rt_tick
    var timeout: map<Timer, nat>               // timeout_tick
    var init: map<Timer, nat>                  // init_tick
    var periodic: set<Timer>                   // RT_TIMER_FLAG_PERIODIC
    var active: set<Timer>                     // RT_TIMER_FLAG_ACTIVATED
    var random: nat                            // random_nr
    ghost var bottom: seq<Timer>
    ghost var height: map<Timer, nat>
    ghost var base: nat                        // start of the window of live ticks

    ghost predicate Rows()
      reads `bottom, `height, lists
    {
      && lists.Valid() && levels > 0 && Distinct(bottom)
      && (forall t: Timer, i: nat :: RowNode(t, i) in lists.elems <==> t in timers && i < levels)
      && Layered(lists.contents, bottom, height, levels)
      && height.Keys == timers
      && (forall t :: t in bottom ==> t in timers && height[t] >= 1)
    }

    /** Deadlines are in the window and in order; listed timers are active. */
    ghost predicate Times()
      reads `tick, `timeout, `init, `active, `bottom, `base
    {
      && timeout.Keys == init.Keys == timers && base < WORD && tick < WORD
      && (forall t :: t in timers ==> timeout[t] < WORD && init[t] < WORD)
      && (forall t :: t in bottom ==> t in timers && t in active && InWindow(base, timeout[t]))
      && Sorted(bottom, Keys(timeout, base))
      && active <= timers
    }

    ghost predicate Valid()
      reads this, lists
    {
      Rows() && Times() && random < WORD
    }

    /** rt_system_timer_init and the timers as rt_timer_init leaves them. */
    constructor (rows: nat, members: set<Timer>, ticks: map<Timer, nat>, repeating: set<Timer>)
      requires rows > 0 && ticks.Keys == members && (forall t :: t in members ==> ticks[t] < WORD)
      ensures Valid() && bottom == [] && active == {} && tick == 0 && base == 0 && fresh(lists)
      ensures levels == rows && timers == members && init == ticks && periodic == repeating
    {
      levels, timers := rows, members;
      var nodes := set t, i | t in members && 0 <= i < rows :: RowNode(t, i);
      var heads, k: nat := {}, 0;
      while k < rows
        invariant k <= rows && forall i: nat :: i in heads <==> i < k
      {
        heads := heads + {k};
        k := k + 1;
      }
      lists := new ListSpace(heads, nodes);
      tick, timeout, init := 0, map t | t in members :: 0, ticks;
      periodic, active, random := repeating, {}, 0;
      bottom, height, base := [], map t | t in members :: 0, 0;
      new;
      forall i: nat | i < rows ensures lists.contents[i] == Nodes(Row([], height, rows, i), i) { }
    }

    /** _rt_timer_remove */
    method Unlink(t: Timer)
      requires Rows() && t in timers
      modifies lists, `bottom
      ensures Rows() && bottom == Without(old(bottom), t)
    {
      hide Layered, Above, Nodes, Height;
      ghost var c, b := lists.contents, bottom;
      var i: nat := 0;
      while i < levels
        invariant i <= levels && lists.Valid() && lists.elems == old(lists.elems) && bottom == b
        invariant Partly(c, lists.contents, t, i)
      {
        UnlinkOne(c, lists.contents, bottom, height, levels, t, i);
        lists.Remove(RowNode(t, i));
        i := i + 1;
      }
      UnlinkAll(c, lists.contents, bottom, height, levels, t);
      WithoutMembers(bottom, t);
      bottom := Without(bottom, t);
    }

    // ---- searching --------------------------------------------------------------------

    ghost function RowAt(i: nat): seq<Timer>
      requires i < levels
      reads `bottom, `height
    {
      Row(bottom, height, levels, i)
    }

    /** The timers of row i, their deadlines and their place among the nodes. */
    lemma RowFacts(i: nat)
      requires Rows() && Times() && i < levels
      ensures i in lists.contents && lists.contents[i] == Nodes(RowAt(i), i)
      ensures Sorted(RowAt(i), Keys(timeout, base))
      ensures forall k :: 0 <= k < |RowAt(i)| ==>
                RowAt(i)[k] in bottom && RowAt(i)[k] in timers && RowAt(i)[k] in timeout && InWindow(base, timeout[RowAt(i)[k]])
      ensures Distinct(CycleOf(i, lists.contents[i]))
    {
      hide Sorted, Above, Keys;
      AboveSorted(bottom, Keys(timeout, base), height, levels - i);
      AboveMembers(bottom, height, levels - i);
      forall k | 0 <= k < |RowAt(i)| ensures RowAt(i)[k] in bottom { assert RowAt(i)[k] in RowAt(i); }
    }

    /** The inner loop of rt_timer_start in row i, from the node at place p. */
    method ScanRow(i: nat, from: Node<nat, RowNode>, d: nat, ghost from': nat) returns (n: Node<nat, RowNode>, ghost p: nat)
      requires Rows() && Times() && i < levels && d < WORD && InWindow(base, d) && i in lists.contents
      requires from' <= Spot(RowAt(i), timeout, base, d) && from' <= |lists.contents[i]|
      requires from == CycleOf(i, lists.contents[i])[from']
      ensures p == Spot(RowAt(i), timeout, base, d) <= |lists.contents[i]|
      ensures n == CycleOf(i, lists.contents[i])[Spot(RowAt(i), timeout, base, d)]
    {
      hide Layered, Above, Sorted, Slot, Keys, WellLinked, Row, Sub, InWindow;
      RowFacts(i);
      ghost var s, key := RowAt(i), Keys(timeout, base);
      SlotSplits(s, key, Sub(d, base));
      n, p := from, from';
      var last := lists.Last(i);
      while n != last
        invariant p <= Spot(s, timeout, base, d) && n == CycleOf(i, lists.contents[i])[p]
        decreases |s| - p
      {
        assert p < |s|;
        var q := lists.Next(n, i, p);
        var t := q.e.t;
        assert t == s[p] && t in timeout;
        Compares(t, d);
        if Sub(timeout[t], d) != 0 && Sub(timeout[t], d) < HALF {
          return;
        }
        n := q;
        p := p + 1;
      }
      assert CycleOf(i, lists.contents[i])[|s|] == last;
    }

    lemma KeyOf(t: Timer)
      requires Times() && t in timers && t in timeout
      ensures t in Keys(timeout, base) && Keys(timeout, base)[t] == Sub(timeout[t], base)
    {
    }

    /** The test of the loop tells whether t is due later than d. */
    lemma Compares(t: Timer, d: nat)
      requires Times() && t in timers && t in timeout && InWindow(base, timeout[t]) && InWindow(base, d)
      ensures d < WORD && t in Keys(timeout, base)
      ensures Sub(timeout[t], d) != 0 && Sub(timeout[t], d) < HALF <==> Sub(d, base) < Keys(timeout, base)[t]
    {
      KeyOf(t);
      WindowOrder(base, timeout[t], d);
    }

    /** The node of timer x is node q of row i, not behind the right place. */
    ghost predicate StartsAt(i: nat, d: nat, x: Timer, q: nat)
      requires i < levels && i in lists.contents && d < WORD && base < WORD
      reads `bottom, `height, `timeout, `base, lists
    {
      && 0 < q <= |lists.contents[i]| && q <= Spot(RowAt(i), timeout, base, d)
      && CycleOf(i, lists.contents[i])[q] == Elem(RowNode(x, i))
    }

    /** The node one row down is still in front of the right place. */
    lemma Descend(i: nat, d: nat) returns (r: nat)
      requires Rows() && Times() && i + 1 < levels && d < WORD && InWindow(base, d)
      requires i in lists.contents && i + 1 in lists.contents
      ensures var p := Spot(RowAt(i), timeout, base, d);
              && p <= |lists.contents[i]|
              && var n := CycleOf(i, lists.contents[i])[p];
              if n.Head? then p == 0 else StartsAt(i + 1, d, n.e.t, r)
    {
      hide Layered, Above, Sorted, Slot, Keys, WellLinked;
      RowFacts(i);
      RowFacts(i + 1);
      ghost var a, b, key := RowAt(i), RowAt(i + 1), Keys(timeout, base);
      SlotSplits(a, key, Sub(d, base));
      SlotSplits(b, key, Sub(d, base));
      var p := Spot(a, timeout, base, d);
      r := 0;
      if p > 0 {
        var x := a[p - 1];
        AboveMembers(bottom, height, levels - i);
        AboveMembers(bottom, height, levels - (i + 1));
        assert x in a;
        assert x in b;
        var q :| 0 <= q < |b| && b[q] == x;
        r := q + 1;
      }
    }

    /** The search of rt_timer_start: in every row, the node behind which a timer
        with deadline d belongs. */
    method Search(d: nat) returns (heads: seq<Node<nat, RowNode>>)
      requires Rows() && Times() && d < WORD && InWindow(base, d)
      ensures |heads| == levels
      ensures forall i: nat :: i < levels ==> HeadAt(heads, i, d)
    {
      hide Layered, Above, Sorted, Slot, Keys, WellLinked, Row;
      heads := [];
      var i: nat, n: Node<nat, RowNode> := 0, Head(0);
      ghost var p: nat := 0;
      RowFacts(0);
      while i < levels
        invariant i <= levels && |heads| == i
        invariant forall k: nat :: k < i ==> HeadAt(heads, k, d)
        invariant i < levels ==> i in lists.contents && p <= |lists.contents[i]| && p <= Spot(RowAt(i), timeout, base, d)
        invariant i < levels ==> n == CycleOf(i, lists.contents[i])[p]
      {
        n, p := ScanRow(i, n, d, p);
        ghost var done := heads;
        heads := heads + [n];
        forall k: nat | k <= i ensures HeadAt(heads, k, d) {
          if k < i { assert HeadAt(done, k, d) && heads[k] == done[k]; }
        }
        if i + 1 < levels {
          RowFacts(i + 1);
          ghost var q := Descend(i, d);
          if n.Head? {
            n, p := Head(i + 1), 0;
          } else {
            p := q;
            n := Elem(RowNode(n.e.t, i + 1));
          }
        }
        i := i + 1;
      }
    }

    ghost predicate HeadAt(heads: seq<Node<nat, RowNode>>, i: nat, d: nat)
      requires i < |heads| && i < levels && d < WORD && base < WORD
      reads `bottom, `height, `timeout, `base, lists
    {
      var p := Spot(RowAt(i), timeout, base, d);
      i in lists.contents && p <= |lists.contents[i]| && heads[i] == CycleOf(i, lists.contents[i])[p]
    }

    // ---- inserting -----------------------------------------------------------------------

    ghost function Place(i: nat, d: nat): (p: nat)
      requires i < levels && d < WORD && base < WORD
      ensures p <= |RowAt(i)|
      reads `bottom, `height, `timeout, `base
    {
      Spot(RowAt(i), timeout, base, d)
    }

    ghost predicate RaisedRow(c: map<nat, seq<RowNode>>, c': map<nat, seq<RowNode>>, t: Timer, d: nat, n: nat, i: nat)
      requires d < WORD && base < WORD && i < levels
      reads `bottom, `height, `timeout, `base
    {
      && i in c && i in c' && |c[i]| == |RowAt(i)|
      && c'[i] == if i + n >= levels then InsertAt(c[i], Place(i, d), RowNode(t, i)) else c[i]
    }

    /** The lists c with timer t added in its n densest rows. */
    ghost predicate Raised(c: map<nat, seq<RowNode>>, c': map<nat, seq<RowNode>>, t: Timer, d: nat, n: nat)
      requires d < WORD && base < WORD
      reads `bottom, `height, `timeout, `base
    {
      && c'.Keys == c.Keys
      && forall i: nat :: i < levels ==> RaisedRow(c, c', t, d, n, i)
    }

    lemma RaisedNone(t: Timer, d: nat)
      requires Rows() && d < WORD && base < WORD
      ensures Raised(lists.contents, lists.contents, t, d, 0)
    {
    }

    lemma RaiseOne(c: map<nat, seq<RowNode>>, c1: map<nat, seq<RowNode>>, t: Timer, d: nat, n: nat)
      requires d < WORD && base < WORD && n < levels && t !in bottom && Raised(c, c1, t, d, n)
      requires Layered(c, bottom, height, levels)
      ensures var row := levels - 1 - n;
              && row in c1 && c1[row] == c[row] && Place(row, d) <= |c1[row]|
              && !OnList(c1, RowNode(t, row))
              && Raised(c, c1[row := InsertAt(c1[row], Place(row, d), RowNode(t, row))], t, d, n + 1)
    {
      hide Above, Slot, Keys;
      var row := levels - 1 - n;
      assert RaisedRow(c, c1, t, d, n, row);
      forall r | r in c1 ensures RowNode(t, row) !in c1[r] {
        assert RaisedRow(c, c1, t, d, n, r);
        NodesMembers(RowAt(r), r, RowNode(t, row));
        AboveMembers(bottom, height, levels - r);
        if r + n >= levels { InsertMembers(c[r], Place(r, d), RowNode(t, r)); }
      }
      var c2 := c1[row := InsertAt(c1[row], Place(row, d), RowNode(t, row))];
      var m := n + 1;
      forall i: nat | i < levels ensures RaisedRow(c, c2, t, d, m, i) { assert RaisedRow(c, c1, t, d, n, i); }
    }

    lemma RaiseRow(c: map<nat, seq<RowNode>>, c': map<nat, seq<RowNode>>, t: Timer, d: nat, n: nat, i: nat)
      requires d < WORD && base < WORD && i < levels && RaisedRow(c, c', t, d, n, i) && t !in bottom
      requires c[i] == Nodes(RowAt(i), i) && Sorted(bottom, Keys(timeout, base))
      requires forall x :: x in bottom ==> x in height
      ensures c'[i] == Nodes(Row(InsertAt(bottom, Spot(bottom, timeout, base, d), t), height[t := n], levels, i), i)
    {
      hide Above, Slot, Keys, Sorted, Nodes, InsertAt;
      var j := Spot(bottom, timeout, base, d);
      AboveInsert(bottom, height, levels - i, j, t, n);
      AboveSlot(bottom, Keys(timeout, base), height, levels - i, Sub(d, base));
      NodesInsert(RowAt(i), i, Place(i, d), t);
    }

    lemma RaiseAll(c: map<nat, seq<RowNode>>, c': map<nat, seq<RowNode>>, t: Timer, d: nat, n: nat)
      requires d < WORD && base < WORD && n <= levels && t !in bottom && Raised(c, c', t, d, n)
      requires Layered(c, bottom, height, levels) && Sorted(bottom, Keys(timeout, base))
      requires forall x :: x in bottom ==> x in height
      ensures Layered(c', InsertAt(bottom, Spot(bottom, timeout, base, d), t), height[t := n], levels)
    {
      hide Above, Slot, Keys, Sorted, Nodes, InsertAt, Row;
      var b := InsertAt(bottom, Spot(bottom, timeout, base, d), t);
      forall i: nat | i < levels ensures c'[i] == Nodes(Row(b, height[t := n], levels, i), i) {
        assert RaisedRow(c, c', t, d, n, i);
        RaiseRow(c, c', t, d, n, i);
      }
    }

    ghost predicate HeadIn(c: map<nat, seq<RowNode>>, heads: seq<Node<nat, RowNode>>, i: nat, d: nat)
      requires i < |heads| && i < levels && d < WORD && base < WORD
      reads `bottom, `height, `timeout, `base
    {
      i in c && Place(i, d) <= |c[i]| && heads[i] == CycleOf(i, c[i])[Place(i, d)]
    }

    /** rt_list_insert_after in the row above the n that are done. */
    method Raise(t: Timer, heads: seq<Node<nat, RowNode>>, n: nat, ghost c: map<nat, seq<RowNode>>, ghost d: nat)
      requires lists.Valid() && n < levels && d < WORD && base < WORD && t !in bottom
      requires forall i: nat :: i < levels ==> RowNode(t, i) in lists.elems
      requires Layered(c, bottom, height, levels) && Raised(c, lists.contents, t, d, n)
      requires |heads| == levels
      requires forall i: nat :: i < levels ==> HeadIn(c, heads, i, d)
      modifies lists
      ensures lists.Valid() && lists.elems == old(lists.elems) && Raised(c, lists.contents, t, d, n + 1)
    {
      hide Layered, Above, Slot, Keys, WellLinked, Raised, Row, OnList;
      var row := levels - 1 - n;
      RaiseOne(c, lists.contents, t, d, n);
      assert HeadIn(c, heads, row, d);
      lists.InsertAfter(heads[row], RowNode(t, row), row, Place(row, d));
    }

    /** The insertions of rt_timer_start: into the bottom row, then upward while the
        low bits of the counter say so. */
    method Climb(t: Timer, heads: seq<Node<nat, RowNode>>, ghost d: nat) returns (n: nat)
      requires Rows() && random < WORD && t in timers && t !in bottom && d < WORD && base < WORD
      requires |heads| == levels && forall i: nat :: i < levels ==> HeadAt(heads, i, d)
      modifies lists, `random
      ensures lists.Valid() && lists.elems == old(lists.elems) && random == (old(random) + 1) % WORD
      ensures 1 <= n == Height(random, levels) && Raised(old(lists.contents), lists.contents, t, d, n)
    {
      hide Layered, Spot, WellLinked, Row, Nodes, Raised, Place;
      ghost var c := lists.contents;
      RaisedNone(t, d);
      forall i: nat | i < levels ensures HeadIn(c, heads, i, d) { HeadsAt(heads, i, d); }
      assert forall i: nat :: i < levels ==> RowNode(t, i) in lists.elems;
      random := (random + 1) % WORD;
      var bits := random;
      Raise(t, heads, 0, c, d);
      n := 1;
      while n < levels && bits % 4 == 0
        invariant 1 <= n <= levels && lists.Valid() && lists.elems == old(lists.elems)
        invariant random == (old(random) + 1) % WORD
        invariant Raised(c, lists.contents, t, d, n)
        invariant Height(random, levels) == n - 1 + Height(bits, levels - (n - 1))
        decreases levels - n
      {
        Raise(t, heads, n, c, d);
        bits := bits / 4;
        n := n + 1;
      }
    }

    lemma HeadsAt(heads: seq<Node<nat, RowNode>>, i: nat, d: nat)
      requires i < |heads| && i < levels && d < WORD && base < WORD && HeadAt(heads, i, d)
      ensures HeadIn(lists.contents, heads, i, d)
    {
    }

    method Link(t: Timer, heads: seq<Node<nat, RowNode>>, ghost d: nat)
      requires Rows() && Times() && random < WORD && t in timers && t !in bottom && d < WORD && InWindow(base, d)
      requires |heads| == levels && forall i: nat :: i < levels ==> HeadAt(heads, i, d)
      modifies lists, `random, `bottom, `height
      ensures Rows() && random == (old(random) + 1) % WORD
      ensures bottom == InsertAt(old(bottom), Spot(old(bottom), timeout, base, d), t)
      ensures height == old(height)[t := Height(random, levels)]
    {
      hide Layered, Above, Sorted, Spot, Keys, WellLinked, Raised, HeadAt;
      ghost var c := lists.contents;
      var n := Climb(t, heads, d);
      RaiseAll(c, lists.contents, t, d, n);
      Inserted(t, d);
      height := height[t := n];
      bottom := InsertAt(bottom, Spot(bottom, timeout, base, d), t);
    }

    lemma Inserted(t: Timer, d: nat)
      requires Distinct(bottom) && t !in bottom && d < WORD && base < WORD
      ensures var b := InsertAt(bottom, Spot(bottom, timeout, base, d), t);
              Distinct(b) && forall x :: x in b <==> x == t || x in bottom
    {
      hide Slot, Keys;
      DistinctInsert(bottom, Spot(bottom, timeout, base, d), t);
      InsertMembers(bottom, Spot(bottom, timeout, base, d), t);
    }

    /** The deadlines once t is off the list, whatever its next deadline. */
    lemma RemovedTimes(t: Timer, d: nat)
      requires Rows() && Times() && t in timers && d < WORD
      ensures var b, timeout' := Without(bottom, t), timeout[t := d];
              && Sorted(b, Keys(timeout', base)) && t !in b
              && (forall x :: x in b ==> x in timers && x in active - {t} && InWindow(base, timeout'[x]))
    {
      hide Sorted, Layered, WellLinked;
      WithoutMembers(bottom, t);
      SortedWithout(bottom, Keys(timeout, base), t);
      SortedSame(Without(bottom, t), Keys(timeout, base), Keys(timeout[t := d], base));
    }

    /** The deadlines once t is in its place among b. */
    lemma StartedTimes(t: Timer, b: seq<Timer>)
      requires base < WORD && t in timeout && timeout[t] < WORD && InWindow(base, timeout[t])
      requires Sorted(b, Keys(timeout, base)) && t !in b
      ensures var s := InsertAt(b, Spot(b, timeout, base, timeout[t]), t);
              Sorted(s, Keys(timeout, base)) && forall x :: x in s <==> x == t || x in b
    {
      hide Sorted, Slot;
      SlotSorts(b, Keys(timeout, base), t);
      InsertMembers(b, Spot(b, timeout, base, timeout[t]), t);
    }

    // ---- rt_timer_start and rt_timer_stop ---------------------------------------------------

    /** _rt_timer_remove under the lock; the flag is left alone. */
    method Drop(t: Timer)
      requires Valid() && t in timers
      modifies lists, `bottom
      ensures Valid() && bottom == Without(old(bottom), t) && t !in bottom
    {
      hide Layered, Sorted, Keys, WellLinked, Without;
      RemovedTimes(t, timeout[t]);
      assert timeout[t := timeout[t]] == timeout;
      Unlink(t);
    }

    /** RT_TIMER_FLAG_ACTIVATED is cleared, which leaves the list in order exactly if the
        timer is on no list by then. */
    method ClearFlag(t: Timer)
      requires Valid()
      modifies `active
      ensures active == old(active) - {t} && (Valid() <==> t !in bottom)
    {
      hide Rows, Sorted, Keys;
      active := active - {t};
    }

    /** The first section of rt_timer_start: the timer is on no list and inactive. */
    method Detach(t: Timer)
      requires Valid() && t in timers
      modifies lists, `bottom, `active
      ensures Valid() && active == old(active) - {t} && bottom == Without(old(bottom), t) && t !in bottom
    {
      hide Valid, Without;
      Drop(t);
      ClearFlag(t);
    }

    /** Between its sections the timer gets its new deadline. */
    method SetDeadline(t: Timer, d: nat)
      requires Valid() && t in timers && t !in bottom && d < WORD
      modifies `timeout
      ensures Valid() && t in old(timeout) && timeout == old(timeout)[t := d]
    {
      hide Sorted, Rows;
      SortedSame(bottom, Keys(timeout, base), Keys(timeout[t := d], base));
      timeout := timeout[t := d];
    }

    /** The second section of rt_timer_start: the timer goes to its place and is active. */
    method Insert(t: Timer)
      requires Valid() && t in timers && t !in bottom && t in timeout && InWindow(base, timeout[t])
      modifies lists, `random, `bottom, `height, `active
      ensures Valid() && active == old(active) + {t} && random == (old(random) + 1) % WORD
      ensures bottom == InsertAt(old(bottom), Spot(old(bottom), timeout, base, timeout[t]), t)
    {
      hide Layered, Above, Sorted, Slot, Keys, WellLinked, Height, Rows, InsertAt;
      var heads := Search(timeout[t]);
      ghost var b := bottom;
      Link(t, heads, timeout[t]);
      active := active + {t};
      StartedTimes(t, b);
    }

    /** rt_timer_start with nothing in between: the timer is taken off its rows and goes
        behind every timer that is due no later, exactly where a linear scan of the bottom
        row by wrapping tick comparison would put it. */
    method Start(t: Timer)
      requires Valid() && t in timers && init[t] < HALF && InWindow(base, Add(tick, init[t]))
      modifies lists, `random, `bottom, `height, `timeout, `active
      ensures Valid() && t in old(timeout) && t in init && timeout == old(timeout)[t := Add(tick, init[t])]
      ensures active == old(active) + {t} && random == (old(random) + 1) % WORD
      ensures timeout[t] < WORD && base < WORD
      ensures var b := Without(old(bottom), t); bottom == InsertAt(b, Spot(b, timeout, base, timeout[t]), t)
    {
      hide Rows, Sorted, Slot, Keys, WellLinked;
      Detach(t);
      SetDeadline(t, Add(tick, init[t]));
      Insert(t);
    }

    /** rt_timer_stop with nothing in between: the flag is tested before and cleared behind
        the section that takes the timer off. */
    method Stop(t: Timer) returns (ok: bool)
      requires Valid() && t in timers
      modifies lists, `bottom, `active
      ensures Valid() && (ok <==> t in old(active)) && active == old(active) - {t}
      ensures bottom == Without(old(bottom), t)
    {
      hide Rows, Sorted, Keys;
      ok := t in active;
      if !ok { return; }
      Drop(t);
      ClearFlag(t);
    }

    // ---- rt_timer_check ----------------------------------------------------------------------

    /** Timer t can be started now: its delay is at least one tick and its deadline
        stays in the window. */
    ghost predicate Startable(t: Timer)
      reads `tick, `init, `base
    {
      t in init && 1 <= init[t] < HALF && base < WORD && InWindow(base, Add(tick, init[t]))
    }

    /** The assumptions on timeout functions: they start timers that can be started,
        and a one-shot timer is not started by its own timeout function. */
    ghost predicate Obeys(t: Timer, cs: seq<Command>)
      reads `tick, `init, `base, `periodic
    {
      forall i :: 0 <= i < |cs| ==> ObeysAt(t, cs[i])
    }

    ghost predicate ObeysAt(t: Timer, c: Command)
      reads `tick, `init, `base, `periodic
    {
      c.t in timers && (c.StartIt? ==> Startable(c.t) && (c.t == t ==> t in periodic))
    }

    ghost function Due(): seq<Timer>
      requires tick < WORD
      reads `bottom, `timeout, `tick
    {
      DueOf(bottom, timeout, tick)
    }

    ghost function Now(): Sched
      reads `bottom, `timeout, `active
    {
      Sched(bottom, timeout, active)
    }

    lemma StartIs(t: Timer)
      requires Valid() && t in timers && Startable(t)
      ensures var d := Add(tick, init[t]); var w, timeout' := Without(bottom, t), timeout[t := d];
              d < WORD && base < WORD
              && var j := Spot(w, timeout', base, d);
                 Performed(Now(), [StartIt(t)], Sched(InsertAt(w, j, t), timeout', active + {t}), tick, init)
    {
      hide Rows, Sorted, Slot, Keys, WellLinked, Spot, Performed;
      Members();
      Facts();
      RemovedTimes(t, Add(tick, init[t]));
      StartPerformed(Now(), t, base, tick, init);
    }

    /** One start by a timeout function. */
    method StartLater(t: Timer)
      requires Valid() && t in timers && Startable(t)
      modifies lists, `random, `bottom, `height, `timeout, `active
      ensures Performed(old(Now()), [StartIt(t)], Now(), tick, init)
      ensures Valid() && active == old(active) + {t} && Due() == Without(old(Due()), t)
      ensures t in old(timeout) && timeout == old(timeout)[t := Add(tick, init[t])] && t in bottom
      ensures forall x :: x != t ==> (x in bottom <==> x in old(bottom))
    {
      hide Rows, Sorted, Slot, Keys, WellLinked, Spot, Performed;
      Members();
      StartIs(t);
      ghost var b, d := bottom, Add(tick, init[t]);
      NotYetDue(tick, init[t]);
      DueStart(b, timeout, tick, t, d, Spot(Without(b, t), timeout[t := d], base, d));
      WithoutMembers(b, t);
      Start(t);
      InsertMembers(Without(b, t), Spot(Without(b, t), timeout, base, d), t);
    }

    lemma Members()
      requires Valid()
      ensures Distinct(bottom) && forall x :: x in bottom ==> x in timers && x in timeout && x in active
    {
    }

    /** The commands of t's timeout function, one after the other. */
    method Execute(t: Timer, cs: seq<Command>)
      requires Valid() && t in timers && t !in bottom && t in active && Obeys(t, cs)
      modifies lists, `random, `bottom, `height, `timeout, `active
      ensures Valid() && (t in bottom ==> t in periodic) && Performed(old(Now()), cs, Now(), tick, init)
      ensures Due() == Minus(old(Due()), cs)
      ensures t in active <==> Stays(cs, t)
    {
      hide Rows, Sorted, Slot, Keys, WellLinked, Spot, Times, Startable, Minus, Above, Performed;
      TimersKnown();
      assert cs[..0] == [];
      Members();
      PerformedNone(Now(), tick, init);
      NoCommand(Due());
      var i := 0;
      while i < |cs|
        invariant 0 <= i <= |cs| && Valid() && Obeys(t, cs) && tick < WORD && (t in bottom ==> t in periodic)
        invariant Due() == Minus(old(Due()), cs[..i]) && Performed(old(Now()), cs[..i], Now(), tick, init)
        invariant t in active <==> Stays(cs[..i], t)
      {
        assert ObeysAt(t, cs[i]);
        NextCommand(old(Due()), cs, i);
        ghost var now := Now();
        Perform(cs[i], t);
        assert cs[..i + 1] == cs[..i] + [cs[i]];
        PerformedJoin(old(Now()), cs[..i], now, [cs[i]], Now(), tick, init);
        TimersKnown();
        i := i + 1;
      }
      assert cs[..|cs|] == cs;
    }

    method Perform(c: Command, ghost t: Timer)
      requires Valid() && ObeysAt(t, c) && (t in bottom ==> t in periodic) && tick < WORD
      modifies lists, `random, `bottom, `height, `timeout, `active
      ensures Valid() && Due() == Without(old(Due()), c.t) && (t in bottom ==> t in periodic)
      ensures Performed(old(Now()), [c], Now(), tick, init)
      ensures t in active <==> if c.t == t then c.StartIt? else t in old(active)
    {
      hide Rows, Sorted, Slot, Keys, WellLinked, Spot, Times, Startable, Above, Performed;
      Members();
      if c.StartIt? {
        StartLater(c.t);
      } else {
        StopPerformed(Now(), c.t, tick, init);
        DueWithout(bottom, timeout, tick, c.t);
        WithoutMembers(bottom, c.t);
        var ok := Stop(c.t);
      }
    }

    lemma TimersKnown()
      requires Valid()
      ensures timeout.Keys == init.Keys == timers && tick < WORD && base < WORD
    {
    }

    /** Firing the first timer: it leaves the list, its timeout function runs, and it
        is started again iff it is periodic and still active then. */
    method Fire(t: Timer, cs: seq<Command>)
      requires Valid() && bottom != [] && t == bottom[0] && tick < WORD && t in timeout && timeout[t] < WORD
      requires Sub(tick, timeout[t]) < HALF
      requires Obeys(t, cs) && (t in periodic ==> Startable(t))
      modifies lists, `random, `bottom, `height, `timeout, `active
      ensures Valid()
      ensures old(Due()) != [] && old(Due())[0] == t && Due() == Minus(old(Due())[1..], cs)
      ensures t in active <==> t in periodic && Stays(cs, t)
      ensures t in active ==> t in bottom && t in timeout && t in init && timeout[t] == Add(tick, init[t])
      ensures t !in active ==> t !in bottom
      ensures Performed(old(Now()), cs + [Verdict(t, cs, periodic)], Now(), tick, init)
    {
      hide Rows, Sorted, Slot, Keys, WellLinked, Spot, Times, Startable, Above, Minus, Performed, Stays;
      TimersKnown();
      Members();
      FirstDue(bottom, timeout, tick);
      DueWithout(bottom, timeout, tick, t);
      FirstGone(Due(), cs);
      WithoutFirst(bottom);
      ghost var before := Now();
      Drop(t);
      ghost var dropped := Now();
      Execute(t, cs);
      TimersKnown();
      Members();
      ghost var done := Now();
      if t in periodic && t in active {
        DueWithout(bottom, timeout, tick, t);
        StartLater(t);
      } else {
        StopPerformed(done, t, tick, init);
        ClearFlag(t);
      }
      FirePerformed(before, dropped, cs, done, Verdict(t, cs, periodic), Now(), tick, init);
    }

    /** The first entry of the bottom row. */
    method First() returns (n: Node<nat, RowNode>)
      requires Rows()
      ensures n == if bottom == [] then Head(levels - 1) else Elem(RowNode(bottom[0], levels - 1))
    {
      hide Above, WellLinked;
      AboveAll(bottom, height, 1);
      n := lists.Next(Head(levels - 1), levels - 1, 0);
    }

    /** rt_timer_list_next_timeout: the earliest deadline, or RT_TICK_MAX. */
    method NextTimeout() returns (r: nat)
      requires Valid()
      ensures bottom == [] ==> r == WORD - 1
      ensures bottom != [] ==> exists t :: t in bottom && t in timeout && r == timeout[t]
      ensures base < WORD && forall t :: t in bottom ==> t in timeout && timeout[t] < WORD && r < WORD
      ensures forall t :: t in bottom ==> Sub(r, base) <= Sub(timeout[t], base)
    {
      hide Layered, WellLinked;
      Members();
      var n := First();
      if n.Head? { return WORD - 1; }
      r := timeout[n.e.t];
      assert bottom[0] in bottom;
      forall t | t in bottom ensures Sub(r, base) <= Sub(timeout[t], base) {
        var i :| 0 <= i < |bottom| && bottom[i] == t;
        assert InOrder(bottom, Keys(timeout, base), 0, i);
      }
    }

    /** rt_timer_check at the current tick: the due timers fire in order, and none is
        left although the loop stops at the first that is not due. */
    method Check(calls: map<Timer, seq<Command>>) returns (fired: seq<Timer>)
      requires Valid() && base < WORD && InWindow(base, tick) && calls.Keys == timers
      requires forall t :: t in timers ==> Obeys(t, calls[t]) && (t in periodic ==> Startable(t))
      modifies lists, `random, `bottom, `height, `timeout, `active
      ensures Valid() && Due() == []
      ensures fired == Fires(old(Due()), calls)
      ensures Performed(old(Now()), Ops(fired, calls, periodic), Now(), tick, init)
      ensures forall k :: 0 <= k < |fired| && LastWord(fired, calls, k) ==>
                Settled(fired[k], calls, periodic, Now(), tick, init)
      ensures forall x :: Alone(fired, calls, x) ==> Left(old(Now()), Now(), x)
      ensures forall x, y :: Alone(fired, calls, x) && Alone(fired, calls, y) ==>
                (Before(bottom, x, y) <==> Before(old(bottom), x, y))
    {
      hide Rows, Times, Startable, Above, Obeys, Performed, Ops, Settled, Left, LastWord, Alone, Before, DueOf, Fires, Valid;
      Given(calls);
      fired := FireDue(calls);
      TimersKnown();
      CheckLeaves(old(Now()), fired, calls, periodic, Now(), tick, init);
    }

    lemma Given(calls: map<Timer, seq<Command>>)
      requires Valid() && calls.Keys == timers
      ensures timeout.Keys == init.Keys == timers && tick < WORD
      ensures Distinct(Fires(Due(), calls)) && forall t :: t in Fires(Due(), calls) ==> t in calls && t in timeout
    {
      hide Rows, Sorted, Keys, Above, Fires;
      TimersKnown();
      Facts();
      AboveDistinct(bottom, Dues(timeout, tick), 1);
      AboveMembers(bottom, Dues(timeout, tick), 1);
      FiresWho(Due(), calls);
    }

    /** Its loop. */
    method FireDue(calls: map<Timer, seq<Command>>) returns (fired: seq<Timer>)
      requires Valid() && base < WORD && InWindow(base, tick) && calls.Keys == timers
      requires forall t :: t in timers ==> Obeys(t, calls[t]) && (t in periodic ==> Startable(t))
      modifies lists, `random, `bottom, `height, `timeout, `active
      ensures Valid() && Due() == []
      ensures fired == Fires(old(Due()), calls)
      ensures Performed(old(Now()), Ops(fired, calls, periodic), Now(), tick, init)
    {
      hide Rows, Sorted, Slot, Keys, WellLinked, Spot, Times, Startable, Above, Minus, Obeys, Performed, Ops;
      Members();
      PerformedNone(Now(), tick, init);
      NoOps(calls, periodic);
      fired := [];
      ghost var due := Due();
      assert [] + Fires(due, calls) == Fires(due, calls);
      while true
        invariant Valid() && tick < WORD && base < WORD
        invariant fired + Fires(Due(), calls) == Fires(due, calls)
        invariant Performed(old(Now()), Ops(fired, calls, periodic), Now(), tick, init)
        decreases |Due()|
      {
        Facts();
        var n := First();
        if n.Head? { break; }
        var t := n.e.t;
        assert bottom[0] in bottom;
        if Sub(tick, timeout[t]) >= HALF {
          FirstNotDue(bottom, timeout, base, tick);
          break;
        }
        FirstDue(bottom, timeout, tick);
        ghost var s, now := Due(), Now();
        Fire(t, calls[t]);
        FireNext(fired, s, calls);
        OpsNext(fired, t, calls, periodic);
        PerformedJoin(old(Now()), Ops(fired, calls, periodic), now, calls[t] + [Verdict(t, calls[t], periodic)], Now(),
                      tick, init);
        fired := fired + [t];
      }
      Finished(fired, calls);
    }

    lemma Facts()
      requires Valid()
      ensures Rows() && Distinct(bottom) && base < WORD && tick < WORD && Sorted(bottom, Keys(timeout, base))
      ensures forall x :: x in bottom ==> x in timers && x in timeout && timeout[x] < WORD && InWindow(base, timeout[x])
      ensures bottom == [] ==> Due() == []
    {
    }

    static lemma NoOps(calls: map<Timer, seq<Command>>, periodic: set<Timer>)
      ensures Ops([], calls, periodic) == []
    {
    }

    static lemma OpsNext(fired: seq<Timer>, t: Timer, calls: map<Timer, seq<Command>>, periodic: set<Timer>)
      requires t in calls
      ensures Ops(fired + [t], calls, periodic) == Ops(fired, calls, periodic) + (calls[t] + [Verdict(t, calls[t], periodic)])
    {
      assert (fired + [t])[..|fired|] == fired;
    }

    static lemma FireNext(fired: seq<Timer>, s: seq<Timer>, calls: map<Timer, seq<Command>>)
      requires s != [] && s[0] in calls
      ensures fired + Fires(s, calls) == fired + [s[0]] + Fires(Minus(s[1..], calls[s[0]]), calls)
    {
    }

    static lemma Finished(fired: seq<Timer>, calls: map<Timer, seq<Command>>)
      ensures fired + Fires([], calls) == fired
    {
    }

    /** As time goes on the window moves; the order of the rows does not depend on
        where it starts, so ticks may wrap. */
    ghost method Rebase(start: nat)
      requires Valid() && start < WORD && forall t :: t in bottom ==> t in timeout && InWindow(start, timeout[t])
      modifies `base
      ensures Valid() && base == start
    {
      hide Rows;
      RebaseSorted(bottom, timeout, base, start);
      base := start;
    }
  }

  lemma RebaseSorted(s: seq<Timer>, timeout: map<Timer, nat>, a: nat, b: nat)
    requires a < WORD && b < WORD && Sorted(s, Keys(timeout, a))
    requires forall t :: t in s ==> t in timeout && InWindow(a, timeout[t]) && InWindow(b, timeout[t])
    ensures Sorted(s, Keys(timeout, b))
  {
    forall i, j | 0 <= i <= j < |s| ensures InOrder(s, Keys(timeout, b), i, j) {
      assert InOrder(s, Keys(timeout, a), i, j) && s[i] in s && s[j] in s;
      WindowOrder(a, timeout[s[j]], timeout[s[i]]);
      WindowOrder(b, timeout[s[j]], timeout[s[i]]);
    }
  }
}
