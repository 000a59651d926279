/** The mutex of ipc.c with priority inheritance. */
module Mutexes {
  // The state of one mutex and its transitions are given as values; class Mutex performs
  // the C code of each interrupt-disabled section on the kernel's lists and priorities and
  // is proved to make exactly these transitions.

  import opened Chains
  import opened Kernel
  import opened Lists
  import opened Ordered
  import opened Rings
  import opened Waiting

  const UINT8: nat := 256
  const UINT16: nat := 65536

  datatype Outcome = Taken | TimedOut | Blocked

  datatype State = State(
    value: nat,                // rt_uint16_t value
    hold: nat,                 // rt_uint8_t hold
    owner: Option<Thread>,
    original: nat,             // original_priority
    waiters: seq<Thread>,      // suspend_thread
    prio: map<Thread, nat>)    // current_priority of every thread

  const NO_PRIORITY: nat := 0xFF

  // ---- the transitions ---------------------------------------------------------

  ghost function Initial(prio: map<Thread, nat>): State {
    State(1, 0, None, NO_PRIORITY, [], prio)
  }

  /** rt_mutex_take by thread t, up to the point where it may have to wait. */
  ghost function TakeStep(s: State, t: Thread, wait: bool, order: Order): (State, Outcome)
    requires t in s.prio
  {
    if s.owner == Some(t) then
      (s.(hold := (s.hold + 1) % UINT8), Taken)
    else if s.value > 0 then
      (s.(value := s.value - 1, owner := Some(t), original := s.prio[t], hold := (s.hold + 1) % UINT8), Taken)
    else if !wait || s.owner.None? || s.owner.value !in s.prio then
      (s, TimedOut)
    else
      var o := s.owner.value;
      var prio := if s.prio[t] < s.prio[o] then s.prio[o := s.prio[t]] else s.prio;
      (s.(prio := prio, waiters := InsertAt(s.waiters, Place(s.waiters, prio, prio[t], order), t)), Blocked)
  }

  /** rt_mutex_release by thread t; only the owner may. */
  ghost function ReleaseStep(s: State, t: Thread): State
    requires t in s.prio && forall w :: w in s.waiters ==> w in s.prio
  {
    if s.owner != Some(t) then s
    else
      var hold := (s.hold + UINT8 - 1) % UINT8;
      if hold != 0 then s.(hold := hold)
      else
        var prio := s.prio[t := s.original];
        if s.waiters != [] then
          var w := s.waiters[0];
          s.(hold := 1, owner := Some(w), original := prio[w], waiters := s.waiters[1..], prio := prio)
        else
          s.(value := (s.value + 1) % UINT16, hold := 0, owner := None, original := NO_PRIORITY, prio := prio)
  }

  /** A waiter leaves on a timeout. */
  ghost function LeaveStep(s: State, t: Thread): State {
    s.(waiters := Without(s.waiters, t))
  }

  // ---- the invariant -------------------------------------------------------------

  /** The mutex is free iff value is 1 iff nobody holds it iff it is held zero
      times; a free mutex has no waiters. */
  ghost predicate Balanced(s: State) {
    && s.value <= 1 && s.hold < UINT8
    && (s.value == 1 <==> s.owner.None?) && (s.hold == 0 <==> s.owner.None?)
    && (s.owner.None? ==> s.waiters == [] && s.original == NO_PRIORITY)
    && Distinct(s.waiters)
  }

  /** Every thread but the owner has its base priority; the owner may have been
      raised, remembers its base, and is at least as urgent as every waiter. */
  ghost predicate Inherits(s: State, base: map<Thread, nat>) {
    && s.prio.Keys == base.Keys
    && (forall t :: t in base && s.owner != Some(t) ==> s.prio[t] == base[t])
    && (s.owner.Some? ==>
          var o := s.owner.value;
          && o in base && o !in s.waiters
          && s.original == base[o] && s.prio[o] <= base[o]
          && forall w :: w in s.waiters ==> w in base && s.prio[o] <= s.prio[w])
  }

  ghost predicate Inv(s: State, base: map<Thread, nat>) {
    Balanced(s) && Inherits(s, base) && Sorted(s.waiters, s.prio)
  }

  lemma InitialInv(base: map<Thread, nat>)
    ensures Inv(Initial(base), base)
  {
  }

  /** Blocking: the owner is raised to the caller's priority if that is more
      urgent, and the caller queues by priority. */
  lemma BlockKeeps(s: State, base: map<Thread, nat>, t: Thread)
    requires Inv(s, base) && t in base && t !in s.waiters && s.owner.Some? && s.owner != Some(t)
    ensures TakeStep(s, t, true, ByPriority).1 == Blocked
    ensures Inv(TakeStep(s, t, true, ByPriority).0, base)
  {
    hide Sorted, Distinct, Slot;
    var o := s.owner.value;
    var prio := if s.prio[t] < s.prio[o] then s.prio[o := s.prio[t]] else s.prio;
    SortedSame(s.waiters, s.prio, prio);
    SlotSorts(s.waiters, prio, t);
    var j := Slot(s.waiters, prio, prio[t]);
    DistinctInsert(s.waiters, j, t);
    InsertMembers(s.waiters, j, t);
  }

  /** rt_mutex_take keeps the invariant exactly when it does not push the
      recursion count of its owner past 255. */
  lemma TakeKeeps(s: State, base: map<Thread, nat>, t: Thread, wait: bool)
    requires Inv(s, base) && t in base && t !in s.waiters
    ensures Inv(TakeStep(s, t, wait, ByPriority).0, base) <==> !(s.owner == Some(t) && s.hold == UINT8 - 1)
  {
    if s.owner.Some? && s.owner != Some(t) && wait {
      BlockKeeps(s, base, t);
    }
  }

  /** Giving the mutex to the first waiter. */
  lemma HandoffKeeps(s: State, base: map<Thread, nat>, t: Thread)
    requires Inv(s, base) && s.owner == Some(t) && s.hold == 1 && s.waiters != []
    ensures (forall w :: w in s.waiters ==> w in s.prio) && t in s.prio
    ensures Inv(ReleaseStep(s, t), base)
  {
    hide Sorted, Distinct;
    var s' := ReleaseStep(s, t);
    assert s.waiters[0] in s.waiters;
    SortedSame(s.waiters, s.prio, s'.prio);
    SortedRest(s.waiters, s'.prio);
    forall x | x in s'.waiters ensures x in base && x != s.waiters[0] && s'.prio[s.waiters[0]] <= s'.prio[x] {
      SortedHead(s.waiters, s'.prio, x);
    }
  }

  lemma ReleaseKeeps(s: State, base: map<Thread, nat>, t: Thread)
    requires Inv(s, base) && t in base
    ensures forall w :: w in s.waiters ==> w in s.prio
    ensures Inv(ReleaseStep(s, t), base)
  {
    if s.owner == Some(t) && s.hold == 1 && s.waiters != [] {
      HandoffKeeps(s, base, t);
    }
  }

  /** The final release gives the owner the priority it had when it acquired the
      mutex, whatever it was raised to in between. */
  lemma ReleaseRestores(s: State, base: map<Thread, nat>, t: Thread)
    requires Inv(s, base) && t in base && s.owner == Some(t) && s.hold == 1
    ensures forall w :: w in s.waiters ==> w in s.prio
    ensures var s' := ReleaseStep(s, t);
            && s'.prio == base && s'.owner != Some(t)
            && (s.waiters == [] ==> s' == Initial(base))
            && (s.waiters != [] ==> s'.owner == Some(s.waiters[0]) && s'.hold == 1 && s'.original == base[s.waiters[0]])
  {
    ReleaseKeeps(s, base, t);
    if s.waiters != [] { assert s.waiters[0] in s.waiters; }
  }

  lemma LeaveKeeps(s: State, base: map<Thread, nat>, t: Thread)
    requires Inv(s, base)
    ensures Inv(LeaveStep(s, t), base) && LeaveStep(s, t).prio == s.prio
  {
    WithoutMembers(s.waiters, t);
    SortedWithout(s.waiters, s.prio, t);
  }

  // ---- whole runs ------------------------------------------------------------------

  datatype Event = TakeBy(t: Thread, wait: bool) | ReleaseBy(t: Thread) | LeaveOf(t: Thread)

  /** A thread that waits does not call; the recursion count is not exhausted. */
  ghost predicate Allowed(s: State, e: Event) {
    && e.t in s.prio
    && match e
       case TakeBy(t, _) => t !in s.waiters && (s.owner == Some(t) ==> s.hold < UINT8 - 1)
       case ReleaseBy(t) => t !in s.waiters && forall w :: w in s.waiters ==> w in s.prio
       case LeaveOf(t) => t in s.waiters
  }

  ghost function Apply(s: State, order: Order, e: Event): State
    requires Allowed(s, e)
  {
    match e
    case TakeBy(t, wait) => TakeStep(s, t, wait, order).0
    case ReleaseBy(t) => ReleaseStep(s, t)
    case LeaveOf(t) => LeaveStep(s, t)
  }

  ghost predicate Run(s: State, order: Order, es: seq<Event>, s': State)
    decreases |es|
  {
    if es == [] then s' == s else Allowed(s, es[0]) && Run(Apply(s, order, es[0]), order, es[1..], s')
  }

  /** Every state that takes, releases and timeouts can reach, in any order, is
      balanced, sorted and inversion-free. */
  lemma {:induction false} RunKeeps(s: State, base: map<Thread, nat>, es: seq<Event>, s': State)
    requires Inv(s, base) && Run(s, ByPriority, es, s')
    ensures Inv(s', base)
    decreases |es|
  {
    if es != [] {
      match es[0] {
        case TakeBy(t, wait) => TakeKeeps(s, base, t, wait);
        case ReleaseBy(t) => ReleaseKeeps(s, base, t);
        case LeaveOf(t) => LeaveKeeps(s, base, t);
      }
      RunKeeps(Apply(s, ByPriority, es[0]), base, es[1..], s');
    }
  }

  /** Between two states without an owner every priority is back to its base. */
  lemma RunRestores(base: map<Thread, nat>, es: seq<Event>, s: State)
    requires Run(Initial(base), ByPriority, es, s)
    ensures s.owner.None? ==> s == Initial(base)
    ensures s.owner.Some? ==> Inherits(s, base)
  {
    InitialInv(base);
    RunKeeps(Initial(base), base, es, s);
  }

  /** The boost of an owner outlives the waiter that caused it. */
  lemma BoostOutlivesWaiter()
    ensures var base := map[1 := 20, 2 := 5];
            exists s :: Run(Initial(base), ByPriority, [TakeBy(1, true), TakeBy(2, true), LeaveOf(2)], s)
              && s.owner == Some(1) && s.waiters == [] && s.prio[1] == 5
  {
    var base := map[1 := 20, 2 := 5];
    var s0 := Initial(base);
    var s1 := TakeStep(s0, 1, true, ByPriority).0;
    var s2 := TakeStep(s1, 2, true, ByPriority).0;
    assert s2.waiters == [2];
    var s3 := LeaveStep(s2, 2);
    assert Without([2], 2) == [];
    assert Run(s3, ByPriority, [], s3);
    assert Run(s2, ByPriority, [LeaveOf(2)], s3);
    assert [TakeBy(2, true), LeaveOf(2)][1..] == [LeaveOf(2)];
    assert Run(s1, ByPriority, [TakeBy(2, true), LeaveOf(2)], s3);
    assert [TakeBy(1, true), TakeBy(2, true), LeaveOf(2)][1..] == [TakeBy(2, true), LeaveOf(2)];
    assert Run(s0, ByPriority, [TakeBy(1, true), TakeBy(2, true), LeaveOf(2)], s3);
  }

  /** With first-in-first-out waiting the handoff keeps the new owner as urgent as
      the remaining waiters iff the longest waiting thread is a most urgent one:
      the handoff does not raise it again. */
  lemma FifoHandoff(s: State, base: map<Thread, nat>, t: Thread)
    requires Balanced(s) && Inherits(s, base) && t in base && s.owner == Some(t) && s.hold == 1 && s.waiters != []
    ensures forall w :: w in s.waiters ==> w in s.prio
    ensures Inherits(ReleaseStep(s, t), base) <==> forall w :: w in s.waiters ==> base[s.waiters[0]] <= base[w]
  {
    var w := s.waiters[0];
    var s' := ReleaseStep(s, t);
    assert w in s.waiters;
    forall x | x in s.waiters ensures x == w || x in s'.waiters { }
    forall x | x in s'.waiters ensures x in s.waiters && x != w {
      var i :| 0 < i < |s.waiters| && s.waiters[i] == x;
    }
  }

  /** A run it happens in: thread 1 holds the mutex, 2 and then the more urgent 3 wait,
      and 1 releases it to 2. */
  lemma FifoInverts()
    ensures var base := map[1 := 10, 2 := 20, 3 := 5];
            exists s :: Run(Initial(base), Fifo, [TakeBy(1, true), TakeBy(2, true), TakeBy(3, true), ReleaseBy(1)], s)
              && s.owner == Some(2) && s.waiters == [3] && s.prio == base
  {
    hide Apply, Allowed;
    var base := map[1 := 10, 2 := 20, 3 := 5];
    var s1, s2, s3, s4 := InvertingSteps(base);
    RunOne(s3, Fifo, ReleaseBy(1), [], s4);
    RunOne(s2, Fifo, TakeBy(3, true), [ReleaseBy(1)], s4);
    RunOne(s1, Fifo, TakeBy(2, true), [TakeBy(3, true), ReleaseBy(1)], s4);
    RunOne(Initial(base), Fifo, TakeBy(1, true), [TakeBy(2, true), TakeBy(3, true), ReleaseBy(1)], s4);
  }

  lemma InvertingSteps(base: map<Thread, nat>) returns (s1: State, s2: State, s3: State, s4: State)
    requires base == map[1 := 10, 2 := 20, 3 := 5]
    ensures Allowed(Initial(base), TakeBy(1, true)) && Apply(Initial(base), Fifo, TakeBy(1, true)) == s1
    ensures Allowed(s1, TakeBy(2, true)) && Apply(s1, Fifo, TakeBy(2, true)) == s2
    ensures Allowed(s2, TakeBy(3, true)) && Apply(s2, Fifo, TakeBy(3, true)) == s3
    ensures Allowed(s3, ReleaseBy(1)) && Apply(s3, Fifo, ReleaseBy(1)) == s4
    ensures s4.owner == Some(2) && s4.waiters == [3] && s4.prio == base
  {
    s1 := TakeStep(Initial(base), 1, true, Fifo).0;
    s2 := TakeStep(s1, 2, true, Fifo).0;
    assert s2.waiters == [2];
    s3 := TakeStep(s2, 3, true, Fifo).0;
    assert s3.waiters == [2, 3];
    s4 := ReleaseStep(s3, 1);
    assert s4.waiters == [3] && s4.prio == base;
  }

  lemma RunOne(s: State, order: Order, e: Event, es: seq<Event>, s': State)
    requires Allowed(s, e) && Run(Apply(s, order, e), order, es, s')
    ensures Run(s, order, [e] + es, s')
  {
    assert ([e] + es)[1..] == es;
  }

  // ---- what a call is answered, and who owns the mutex how often -------------------------

  /** A take succeeds at once exactly when nobody else owns the mutex; otherwise it is
      refused or waits as the caller says. */
  lemma TakeOutcome(s: State, base: map<Thread, nat>, t: Thread, wait: bool, order: Order)
    requires Balanced(s) && Inherits(s, base) && t in base
    ensures var r := TakeStep(s, t, wait, order).1;
            && (r == Taken <==> s.owner == None || s.owner == Some(t))
            && (r == TimedOut <==> s.owner.Some? && s.owner != Some(t) && !wait)
            && (r == Blocked <==> s.owner.Some? && s.owner != Some(t) && wait)
    ensures TakeStep(s, t, wait, order).1 == TimedOut ==> TakeStep(s, t, wait, order).0 == s
  {
  }

  /** A wait raises the owner to the more urgent of the two and leaves everything else of
      the mutex, and every other priority. */
  lemma WaitRaises(s: State, base: map<Thread, nat>, t: Thread, order: Order)
    requires Balanced(s) && Inherits(s, base) && t in base && t !in s.waiters && s.owner.Some? && s.owner != Some(t)
    ensures var o := s.owner.value; var s' := TakeStep(s, t, true, order).0;
            && s'.prio == s.prio[o := if base[t] < s.prio[o] then base[t] else s.prio[o]]
            && s'.owner == s.owner && s'.hold == s.hold && s'.original == s.original && s'.value == s.value
            && (forall w :: w in s'.waiters <==> w == t || w in s.waiters)
            && Without(s'.waiters, t) == s.waiters
  {
    hide Slot;
    var o := s.owner.value;
    var prio := if s.prio[t] < s.prio[o] then s.prio[o := s.prio[t]] else s.prio;
    assert prio == s.prio[o := if base[t] < s.prio[o] then base[t] else s.prio[o]];
    InsertMembers(s.waiters, Place(s.waiters, prio, prio[t], order), t);
    WithoutInsert(s.waiters, Place(s.waiters, prio, prio[t], order), t);
  }

  /** The owner loses the mutex only by a release, and by that exactly when it holds it
      once; a thread gets it only by taking a free mutex, or as the first waiter, and
      holds it once then. */
  lemma OwnerChanges(s: State, order: Order, e: Event)
    requires OwnedOrFree(s) && Allowed(s, e)
    ensures OwnedOrFree(Apply(s, order, e))
    ensures forall t :: s.owner == Some(t) ==> (Apply(s, order, e).owner != Some(t) <==> e == ReleaseBy(t) && s.hold == 1)
    ensures forall t :: s.owner != Some(t) && Apply(s, order, e).owner == Some(t) ==>
              && Apply(s, order, e).hold == 1
              && (s.owner == None ==> e.TakeBy? && e.t == t)
              && (s.owner.Some? ==> e == ReleaseBy(s.owner.value) && s.waiters != [] && t == s.waiters[0])
  {
    if s.waiters != [] { assert s.waiters[0] in s.waiters; }
  }

  /** Free with nobody waiting, or owned and held. */
  ghost predicate OwnedOrFree(s: State) {
    && s.value <= 1 && s.hold < UINT8
    && (s.value == 1 <==> s.owner.None?) && (s.hold == 0 <==> s.owner.None?)
    && (s.owner.None? ==> s.waiters == [])
  }

  /** t owns the mutex in every state of the run. */
  ghost predicate Keeps(s: State, order: Order, es: seq<Event>, t: Thread)
    decreases |es|
  {
    s.owner == Some(t) && (es == [] || (Allowed(s, es[0]) && Keeps(Apply(s, order, es[0]), order, es[1..], t)))
  }

  /** t's takes less t's releases. */
  ghost function Net(es: seq<Event>, t: Thread): int {
    if es == [] then 0
    else (if es[0].t != t then 0 else if es[0].TakeBy? then 1 else if es[0].ReleaseBy? then -1 else 0) + Net(es[1..], t)
  }

  lemma HoldStep(s: State, order: Order, e: Event, t: Thread)
    requires OwnedOrFree(s) && Allowed(s, e) && s.owner == Some(t) && Apply(s, order, e).owner == Some(t)
    ensures Apply(s, order, e).hold == s.hold + Net([e], t)
  {
    assert [e][1..] == [];
  }

  lemma {:induction false} HoldCounts(s: State, order: Order, es: seq<Event>, s': State, t: Thread)
    requires OwnedOrFree(s) && Run(s, order, es, s') && Keeps(s, order, es, t)
    ensures s'.hold == s.hold + Net(es, t)
    decreases |es|
  {
    if es != [] {
      OwnerChanges(s, order, es[0]);
      HoldStep(s, order, es[0], t);
      assert [es[0]][1..] == [];
      HoldCounts(Apply(s, order, es[0]), order, es[1..], s', t);
    }
  }

  /** While a thread owns the mutex its priority is what it was, or the base priority of a
      thread that has waited for it since. */
  lemma {:induction false} BoostCause(s: State, base: map<Thread, nat>, es: seq<Event>, s': State, t: Thread)
    requires Inv(s, base) && Run(s, ByPriority, es, s') && Keeps(s, ByPriority, es, t)
    ensures t in s.prio && t in s'.prio
    ensures s'.prio[t] == s.prio[t] || exists e :: e in es && Waits(base, e, s'.prio[t])
    decreases |es|
  {
    if es != [] {
      var u := Apply(s, ByPriority, es[0]);
      RunKeeps(s, base, [es[0]], u) by { assert [es[0]][1..] == []; assert Run(u, ByPriority, [], u); }
      BoostCause(u, base, es[1..], s', t);
      BoostStep(s, base, es[0], t);
      if s'.prio[t] != u.prio[t] {
        var e :| e in es[1..] && Waits(base, e, s'.prio[t]);
        assert e in es;
      } else if u.prio[t] != s.prio[t] {
        assert es[0] in es && Waits(base, es[0], u.prio[t]);
      }
    }
  }

  ghost predicate Waits(base: map<Thread, nat>, e: Event, p: nat) {
    e.TakeBy? && e.wait && e.t in base && base[e.t] == p
  }

  lemma BoostStep(s: State, base: map<Thread, nat>, e: Event, t: Thread)
    requires Inv(s, base) && Allowed(s, e) && s.owner == Some(t) && Apply(s, ByPriority, e).owner == Some(t)
    ensures t in s.prio && t in Apply(s, ByPriority, e).prio
    ensures var p := Apply(s, ByPriority, e).prio[t]; p == s.prio[t] || Waits(base, e, p)
  {
    if e.TakeBy? && e.wait && e.t != t { WaitRaises(s, base, e.t, ByPriority); }
  }

  /** Event k of a run from s gave t the mutex, which it has kept since. */
  ghost predicate AcquiredAt(s: State, order: Order, es: seq<Event>, t: Thread, k: nat, u: State) {
    && k < |es| && Run(s, order, es[..k], u) && u.owner != Some(t)
    && Allowed(u, es[k]) && Keeps(Apply(u, order, es[k]), order, es[k + 1..], t)
  }

  lemma {:induction false} RunSplit(s: State, order: Order, a: seq<Event>, e: Event, u: State)
    requires Run(s, order, a, u) && Allowed(u, e)
    ensures Run(s, order, a + [e], Apply(u, order, e))
    decreases |a|
  {
    var v := Apply(u, order, e);
    if a == [] {
      assert (a + [e])[1..] == [] && Run(v, order, [], v);
    } else {
      assert (a + [e])[1..] == a[1..] + [e];
      RunSplit(Apply(s, order, a[0]), order, a[1..], e, u);
    }
  }

  lemma {:induction false} RunJoin(s: State, order: Order, a: seq<Event>, u: State, b: seq<Event>, s': State)
    requires Run(s, order, a, u) && Run(u, order, b, s')
    ensures Run(s, order, a + b, s')
    decreases |a|
  {
    if a == [] {
      assert a + b == b;
    } else {
      assert (a + b)[1..] == a[1..] + b;
      RunJoin(Apply(s, order, a[0]), order, a[1..], u, b, s');
    }
  }

  lemma {:induction false} RunParts(s: State, order: Order, a: seq<Event>, b: seq<Event>, s': State) returns (u: State)
    requires Run(s, order, a + b, s')
    ensures Run(s, order, a, u) && Run(u, order, b, s')
    decreases |a|
  {
    if a == [] {
      assert a + b == b;
      u := s;
    } else {
      assert (a + b)[1..] == a[1..] + b;
      u := RunParts(Apply(s, order, a[0]), order, a[1..], b, s');
    }
  }

  lemma {:induction false} KeepsSplit(s: State, order: Order, a: seq<Event>, u: State, e: Event, t: Thread)
    requires Keeps(s, order, a, t) && Run(s, order, a, u) && Allowed(u, e) && Apply(u, order, e).owner == Some(t)
    ensures Keeps(s, order, a + [e], t)
    decreases |a|
  {
    if a == [] {
      assert (a + [e])[1..] == [];
    } else {
      assert (a + [e])[1..] == a[1..] + [e];
      KeepsSplit(Apply(s, order, a[0]), order, a[1..], u, e, t);
    }
  }

  lemma {:induction false} RunOwned(s: State, order: Order, es: seq<Event>, s': State)
    requires OwnedOrFree(s) && Run(s, order, es, s')
    ensures OwnedOrFree(s')
    decreases |es|
  {
    if es != [] {
      OwnerChanges(s, order, es[0]);
      RunOwned(Apply(s, order, es[0]), order, es[1..], s');
    }
  }

  /** Whoever owns the mutex was given it by some event, once, and holds it as often as
      it has taken it more than released it since. */
  lemma {:induction false} HoldHistory(s: State, order: Order, es: seq<Event>, s': State, t: Thread) returns (k: nat, u: State)
    requires OwnedOrFree(s) && s.owner != Some(t) && Run(s, order, es, s') && s'.owner == Some(t)
    ensures AcquiredAt(s, order, es, t, k, u) && Apply(u, order, es[k]).hold == 1
    ensures s'.hold == 1 + Net(es[k + 1..], t)
    decreases |es|
  {
    var n := |es| - 1;
    assert es == es[..n] + [es[n]];
    var v := RunParts(s, order, es[..n], [es[n]], s');
    LastOne(v, order, es[n], s');
    RunOwned(s, order, es[..n], v);
    OwnerChanges(v, order, es[n]);
    if v.owner == Some(t) {
      k, u := HoldHistory(s, order, es[..n], v, t);
      var w := Apply(u, order, es[k]);
      assert es[..n][..k] == es[..k] && es[k + 1..] == es[..n][k + 1..] + [es[n]];
      Resumed(s, order, es[..n], k, u, v);
      KeepsSplit(w, order, es[..n][k + 1..], v, es[n], t);
      HoldStep(v, order, es[n], t);
      NetJoin(es[..n][k + 1..], [es[n]], t);
    } else {
      k, u := n, v;
      assert es[n + 1..] == [];
    }
  }

  lemma LastOne(v: State, order: Order, e: Event, s': State)
    requires Run(v, order, [e], s')
    ensures Allowed(v, e) && Apply(v, order, e) == s'
  {
    assert [e][1..] == [];
  }

  lemma {:induction false} NetJoin(a: seq<Event>, b: seq<Event>, t: Thread)
    ensures Net(a + b, t) == Net(a, t) + Net(b, t)
  {
    if a == [] {
      assert a + b == b;
    } else {
      assert (a + b)[1..] == a[1..] + b;
      NetJoin(a[1..], b, t);
    }
  }

  /** What follows event k of a run is a run from the state behind it. */
  lemma Resumed(s: State, order: Order, es: seq<Event>, k: nat, u: State, s': State)
    requires k < |es| && Run(s, order, es[..k], u) && Allowed(u, es[k]) && Run(s, order, es, s')
    ensures Run(Apply(u, order, es[k]), order, es[k + 1..], s')
  {
    assert es == es[..k] + es[k..];
    var v := RunParts(s, order, es[..k], es[k..], s');
    RunIs(s, order, es[..k], u, v);
    assert es[k..][1..] == es[k + 1..];
  }

  lemma {:induction false} RunIs(s: State, order: Order, es: seq<Event>, a: State, b: State)
    requires Run(s, order, es, a) && Run(s, order, es, b)
    ensures a == b
    decreases |es|
  {
    if es != [] { RunIs(Apply(s, order, es[0]), order, es[1..], a, b); }
  }

  // ---- nested takes --------------------------------------------------------------------

  ghost function Held(base: map<Thread, nat>, t: Thread, n: nat): State
    requires t in base
  {
    if n == 0 then Initial(base) else State(0, n, Some(t), base[t], [], base)
  }

  ghost function Takes(t: Thread, n: nat): seq<Event> {
    seq(n, _ => TakeBy(t, true))
  }

  lemma {:induction false} NestedTakes(base: map<Thread, nat>, t: Thread, held: nat, n: nat)
    requires t in base && held + n < UINT8
    ensures Run(Held(base, t, held), ByPriority, Takes(t, n), Held(base, t, held + n))
    decreases n
  {
    if n > 0 {
      NestedTakes(base, t, held + 1, n - 1);
      assert Takes(t, n)[1..] == Takes(t, n - 1) && Takes(t, n)[0] == TakeBy(t, true);
    }
  }

  ghost function Releases(t: Thread, n: nat): seq<Event> {
    seq(n, _ => ReleaseBy(t))
  }

  lemma {:induction false} NestedReleases(base: map<Thread, nat>, t: Thread, left: nat, n: nat)
    requires t in base && left + n < UINT8
    ensures Run(Held(base, t, left + n), ByPriority, Releases(t, n), Held(base, t, left))
    decreases n
  {
    hide Allowed, Apply, Held;
    if n > 0 {
      assert Releases(t, n) == [ReleaseBy(t)] + Releases(t, n - 1);
      ReleaseOne(base, t, left + n - 1);
      NestedReleases(base, t, left, n - 1);
      RunOne(Held(base, t, left + n), ByPriority, ReleaseBy(t), Releases(t, n - 1), Held(base, t, left));
    }
  }

  lemma ReleaseOne(base: map<Thread, nat>, t: Thread, n: nat)
    requires t in base && n + 1 < UINT8
    ensures Allowed(Held(base, t, n + 1), ReleaseBy(t))
    ensures Apply(Held(base, t, n + 1), ByPriority, ReleaseBy(t)) == Held(base, t, n)
  {
    assert base[t := base[t]] == base;
  }

  /** As many releases as takes leave the mutex as it was, at any depth. */
  lemma NestedPairs(base: map<Thread, nat>, t: Thread, held: nat, n: nat)
    requires t in base && held + n < UINT8
    ensures Run(Held(base, t, held), ByPriority, Takes(t, n) + Releases(t, n), Held(base, t, held))
  {
    NestedTakes(base, t, held, n);
    NestedReleases(base, t, held, n);
    RunJoin(Held(base, t, held), ByPriority, Takes(t, n), Held(base, t, held + n), Releases(t, n), Held(base, t, held));
  }

  /** 255 nested takes are fine, the next one wraps the count: the mutex then has an
      owner and is held zero times. */
  lemma HoldWraps(base: map<Thread, nat>, t: Thread)
    requires t in base
    ensures var s := Held(base, t, UINT8 - 1);
            && Run(Initial(base), ByPriority, Takes(t, UINT8 - 1), s)
            && TakeStep(s, t, true, ByPriority) == (s.(hold := 0), Taken)
            && !Inv(TakeStep(s, t, true, ByPriority).0, base)
  {
    NestedTakes(base, t, 0, UINT8 - 1);
  }

  // ---- the C functions ---------------------------------------------------------------

  class Mutex {
    const kernel: Kernel
    const list: nat                 // its suspend list
    const order: Order              // RT_IPC_FLAG_FIFO or RT_IPC_FLAG_PRIO
    var value: nat
    var hold: nat
    var owner: Option<Thread>
    var original: nat

    ghost predicate Valid()
      reads this, kernel, kernel.lists
    {
      && kernel.Valid() && Wait(list) in kernel.lists.contents
      && value <= 1 && hold < UINT8 && (value == 1 <==> owner.None?)
      && (owner.Some? ==> owner.value in kernel.threads && original < PRIORITIES)
    }

    /** The state of the mutex among the priorities of all threads. */
    ghost function Abs(): State
      requires Wait(list) in kernel.lists.contents
      reads this, kernel, kernel.lists
    {
      State(value, hold, owner, original, kernel.lists.contents[Wait(list)], kernel.prio)
    }

    /** rt_mutex_init on an empty suspend list. */
    constructor (system: Kernel, place: nat, flag: Order)
      requires system.Valid() && Wait(place) in system.lists.contents && system.lists.contents[Wait(place)] == []
      ensures Valid() && kernel == system && list == place && order == flag && Abs() == Initial(system.prio)
    {
      hide Kernel.Valid;
      kernel, list, order := system, place, flag;
      value, hold, owner, original := 1, 0, None, NO_PRIORITY;
    }

    /** The locked section of rt_mutex_take by the running thread: it holds the
        mutex afterwards, or gets -RT_ETIMEOUT, or is suspended. */
    method Take(time: int) returns (r: Outcome)
      requires Valid() && kernel.current in kernel.stat && kernel.stat[kernel.current].Running?
      modifies this, kernel, kernel.lists
      ensures kernel.current == old(kernel.current) && Valid() && kernel.current in old(kernel.prio)
      ensures (Abs(), r) == TakeStep(old(Abs()), kernel.current, time != 0, order)
      ensures kernel.error == old(kernel.error)[kernel.current := if r == TimedOut then Timeout else Ok]
      ensures r == Blocked ==> kernel.stat == old(kernel.stat)[kernel.current := Suspended]
      ensures r == Blocked ==> (kernel.current in kernel.armed <==> time > 0)
      ensures r != Blocked ==> kernel.stat == old(kernel.stat) && kernel.lists.contents == old(kernel.lists.contents)
    {
      hide Kernel.Valid, Place;
      kernel.Known();
      var t := kernel.current;
      kernel.SetError(t, Ok);
      if owner == Some(t) {
        hold := (hold + 1) % UINT8;
        return Taken;
      }
      if value > 0 {
        value := value - 1;
        owner := Some(t);
        original := kernel.prio[t];
        hold := (hold + 1) % UINT8;
        return Taken;
      }
      if time == 0 {
        kernel.SetError(t, Timeout);
        return TimedOut;
      }
      Block(t, time);
      r := Blocked;
    }

    /** Raise the owner if need be and wait. */
    method Block(t: Thread, time: int)
      requires Valid() && t == kernel.current && t in kernel.stat && kernel.stat[t].Running?
      requires t in kernel.prio && value == 0 && owner.Some? && owner != Some(t) && time != 0
      modifies kernel, kernel.lists
      ensures Valid() && kernel.current == t && kernel.error == old(kernel.error)
      ensures (Abs(), Blocked) == TakeStep(old(Abs()), t, true, order)
      ensures kernel.stat == old(kernel.stat)[t := Suspended] && (t in kernel.armed <==> time > 0)
    {
      hide Kernel.Valid, WaitsKept, OnlyWait, Slot, Drop;
      kernel.Known();
      ghost var c := kernel.lists.contents;
      SameWaits(c);
      if kernel.prio[t] < kernel.prio[owner.value] {
        kernel.ChangePriority(owner.value, kernel.prio[t]);
      }
      WaitKept(c, kernel.lists.contents);
      kernel.ListSuspend(list, t, order);
      if time > 0 {
        kernel.StartTimer(t);
      }
    }

    lemma WaitKept(c: Queues, c': Queues)
      requires WaitsKept(c, c') && Wait(list) in c
      ensures Wait(list) in c' && c'[Wait(list)] == c[Wait(list)]
    {
    }

    /** The locked section of rt_mutex_release by the running thread; ok stands for
        RT_EOK, otherwise -RT_ERROR. */
    method Release() returns (ok: bool)
      requires Valid() && kernel.current in kernel.stat && kernel.stat[kernel.current].Running?
      modifies this, kernel, kernel.lists
      ensures kernel.current == old(kernel.current) && Valid() && kernel.current in old(kernel.prio)
      ensures forall w :: w in old(Abs()).waiters ==> w in old(kernel.prio)
      ensures Abs() == ReleaseStep(old(Abs()), kernel.current)
      ensures ok <==> old(owner) == Some(kernel.current)
      ensures kernel.error == if ok then old(kernel.error) else old(kernel.error)[kernel.current := Error]
    {
      hide Kernel.Valid;
      kernel.Known();
      var t := kernel.current;
      if owner != Some(t) {
        kernel.SetError(t, Error);
        return false;
      }
      ok := true;
      hold := (hold + UINT8 - 1) % UINT8;
      if hold == 0 {
        PassOn(t);
      }
    }

    /** Give the owner its original priority back. */
    method Restore(t: Thread)
      requires Valid() && t in kernel.threads && owner == Some(t)
      modifies kernel, kernel.lists
      ensures Valid() && t in old(kernel.prio) && kernel.prio == old(kernel.prio)[t := original]
      ensures kernel.current == old(kernel.current) && kernel.error == old(kernel.error)
      ensures Wait(list) in old(kernel.lists.contents) && kernel.lists.contents[Wait(list)] == old(kernel.lists.contents)[Wait(list)]
    {
      hide Kernel.Valid, WaitsKept, Drop, Enqueue, Distinct;
      kernel.Known();
      if original == kernel.prio[t] {
        assert kernel.prio == kernel.prio[t := original];
        return;
      }
      ghost var c := kernel.lists.contents;
      kernel.ChangePriority(t, original);
      WaitKept(c, kernel.lists.contents);
    }

    lemma WaitersKnown()
      requires Valid()
      ensures kernel.lists.Valid() && Wait(list) in kernel.lists.contents
      ensures forall w :: w in Abs().waiters ==> w in kernel.prio
    {
      hide Kernel.Valid, Distinct;
      kernel.Known();
    }

    /** Restore the owner's priority and hand the mutex to the first waiter. */
    method PassOn(t: Thread)
      requires Valid() && t == kernel.current && t in kernel.prio && owner == Some(t) && hold == 0
      modifies this, kernel, kernel.lists
      ensures Valid() && kernel.current == t && kernel.error == old(kernel.error)
      ensures forall w :: w in old(Abs()).waiters ==> w in old(kernel.prio)
      ensures Abs() == ReleaseStep(old(Abs()).(hold := 1), t)
    {
      hide Kernel.Valid, FirstWoken, Woken, Distinct;
      WaitersKnown();
      Restore(t);
      WaitersKnown();
      var empty := kernel.lists.IsEmpty(Wait(list));
      if empty {
        value := (value + 1) % UINT16;
        owner := None;
        original := NO_PRIORITY;
        return;
      }
      Handoff();
    }

    /** The first waiter becomes the owner. */
    method Handoff()
      requires Valid() && hold == 0 && value == 0
      requires Wait(list) in kernel.lists.contents && kernel.lists.contents[Wait(list)] != []
      modifies this, kernel, kernel.lists
      ensures Valid() && kernel.current == old(kernel.current) && kernel.error == old(kernel.error)
      ensures var s := old(Abs());
              && s.waiters[0] in s.prio
              && Abs() == s.(hold := 1, owner := Some(s.waiters[0]), original := s.prio[s.waiters[0]], waiters := s.waiters[1..])
    {
      hide Kernel.Valid, FirstWoken, Woken, Distinct;
      kernel.Known();
      ghost var c := kernel.lists.contents;
      var n := kernel.lists.Next(Head(Wait(list)), Wait(list), 0);
      assert n.e in c[Wait(list)];
      owner := Some(n.e);
      original := kernel.prio[n.e];
      hold := hold + 1;
      var w := kernel.ListResume(list);
      FirstGone(c, kernel.lists.contents, w);
    }

    lemma FirstGone(c: Queues, c': Queues, w: Thread)
      requires FirstWoken(c, c', list, w, kernel.prio, kernel.current)
      ensures Wait(list) in c' && Wait(list) in c && c[Wait(list)] != [] && c'[Wait(list)] == c[Wait(list)][1..]
    {
    }

    /** A waiter's timeout, seen from the mutex. */
    method Expire(t: Thread)
      requires Valid() && t in kernel.armed
      modifies kernel, kernel.lists
      ensures Valid() && Abs() == LeaveStep(old(Abs()), t)
      ensures kernel.error == old(kernel.error)[t := Timeout]
    {
      hide Kernel.Valid, WaitsLose;
      ghost var c := kernel.lists.contents;
      kernel.Expire(t);
      WaitLoses(c, kernel.lists.contents, t);
    }

    lemma WaitLoses(c: Queues, c': Queues, t: Thread)
      requires WaitsLose(c, c', t) && Wait(list) in c
      ensures Wait(list) in c' && c'[Wait(list)] == Without(c[Wait(list)], t)
    {
    }

    /** rt_schedule does not concern the mutex. */
    method Schedule(ghost h: nat)
      requires Valid()
      modifies kernel, kernel.lists
      ensures Valid() && Abs() == old(Abs()) && kernel.error == old(kernel.error)
    {
      hide Kernel.Valid, WaitsKept, Switched;
      ghost var c := kernel.lists.contents;
      kernel.Schedule(h);
      WaitKept(c, kernel.lists.contents);
    }
  }
}
