/** The single-processor scheduler and thread states: scheduler.c, thread.c and
    the suspend-list helpers of ipc.c. A method is one section executed with
    interrupts disabled. rt_thread_resume, rt_thread_startup, rt_thread_delete and
    rt_thread_detach enable them on the way; their sections are methods of their own
    (Unlink and Requeue; SetUp; Withdraw, StopTimer and Bury), and Resume, Startup and
    Close are what they amount to when the caller has interrupts disabled, as the IPC
    calls do. */
module Kernel {
  import opened Lists
  import opened Ordered
  import opened ReadyBitmap
  import opened Rings

  const PRIORITIES: nat := 32 // RT_THREAD_PRIORITY_MAX
  const WORD: nat := 0x1_0000_0000

  type Thread = nat

  /** The lists a thread's tlist node can be on: the ready queue of a priority,
      the suspend list of an object, the list of dead threads. */
  datatype Queue = Prio(p: nat) | Wait(o: nat) | Defunct

  datatype Stat = Init | Ready | Suspended | Running | Closed

  /** thread->error */
  datatype Err = Ok | Timeout | Error | Full | Empty

  datatype Order = Fifo | ByPriority

  type Queues = map<Queue, seq<Thread>>

  // ---- queues as values --------------------------------------------------------

  ghost predicate Shaped(c: Queues) {
    && (forall p: nat :: p < PRIORITIES ==> Prio(p) in c)
    && Defunct in c
    && forall q :: q in c && q.Prio? ==> q.p < PRIORITIES
  }

  ghost predicate Belongs(q: Queue, stat: Stat, p: nat) {
    match q
    case Prio(r) => stat.Ready? && p == r
    case Wait(_) => stat.Suspended?
    case Defunct => stat.Closed?
  }

  /** A READY thread is in the queue of its current priority; a thread on a list
      has the state and the priority that go with that list. */
  ghost predicate Placed(c: Queues, stat: map<Thread, Stat>, prio: map<Thread, nat>) {
    && Shaped(c)
    && (forall q, t :: q in c && t in c[q] ==> t in stat && t in prio && Belongs(q, stat[t], prio[t]))
    && (forall t :: t in stat && stat[t].Ready? ==> t in prio && InReadyQueue(c, prio[t], t))
  }

  /** The only ready queue t can be in is that of priority p. */
  ghost predicate Sole(c: Queues, t: Thread, p: nat) {
    forall r: nat :: Prio(r) in c && t in c[Prio(r)] ==> r == p
  }

  ghost predicate InReadyQueue(c: Queues, p: nat, t: Thread) {
    Prio(p) in c && t in c[Prio(p)]
  }

  /** Bit p of the ready bitmap is set iff queue p is not empty. */
  ghost predicate Agrees(group: bv32, c: Queues) {
    Shaped(c) && forall p: nat :: p < PRIORITIES ==> (Bit(group, p) <==> c[Prio(p)] != [])
  }

  ghost predicate AllDistinct(c: Queues) {
    (forall q :: q in c ==> Distinct(c[q])) && Disjoint(c)
  }

  ghost function Drop(c: Queues, t: Thread): Queues {
    map q | q in c :: Without(c[q], t)
  }

  /** The queues after thread t is woken: the current thread is not queued. */
  ghost function Woken(c: Queues, prio: map<Thread, nat>, t: Thread, cur: Thread): Queues {
    var d := Drop(c, t);
    if t == cur || t !in prio || Prio(prio[t]) !in d then d else Enqueue(d, prio[t], t)
  }

  ghost function Enqueue(c: Queues, p: nat, t: Thread): Queues
    requires Prio(p) in c
  {
    c[Prio(p) := c[Prio(p)] + [t]]
  }

  lemma DropMembers(c: Queues, t: Thread)
    requires AllDistinct(c)
    ensures AllDistinct(Drop(c, t)) && Drop(c, t).Keys == c.Keys
    ensures forall q, x :: q in c ==> (x in Drop(c, t)[q] <==> x in c[q] && x != t)
    ensures !OnList(Drop(c, t), t)
  {
    forall q | q in c
      ensures Distinct(Without(c[q], t)) && forall x :: x in Without(c[q], t) <==> x in c[q] && x != t {
      WithoutMembers(c[q], t);
    }
  }

  lemma DropIs(c: Queues, t: Thread)
    ensures Drop(c, t) == map q | q in c :: Without(c[q], t)
  {
  }

  lemma DropAbsent(c: Queues, t: Thread)
    requires !OnList(c, t)
    ensures Drop(c, t) == c
  {
  }

  lemma EnqueueMembers(c: Queues, p: nat, t: Thread)
    requires AllDistinct(c) && Prio(p) in c && !OnList(c, t)
    ensures AllDistinct(Enqueue(c, p, t))
    ensures c[Prio(p) := InsertAt(c[Prio(p)], |c[Prio(p)]|, t)] == Enqueue(c, p, t)
  {
    assert InsertAt(c[Prio(p)], |c[Prio(p)]|, t) == c[Prio(p)] + [t];
    DistinctInsert(c[Prio(p)], |c[Prio(p)]|, t);
  }

  lemma PlacedDrop(c: Queues, stat: map<Thread, Stat>, prio: map<Thread, nat>, t: Thread, st: Stat)
    requires Placed(c, stat, prio) && AllDistinct(c) && t in stat && !st.Ready?
    ensures Placed(Drop(c, t), stat[t := st], prio)
  {
    hide AllDistinct, Drop, OnList;
    DropMembers(c, t);
  }

  lemma PlacedEnqueue(c: Queues, stat: map<Thread, Stat>, prio: map<Thread, nat>, t: Thread)
    requires Placed(c, stat, prio) && t in stat && t in prio && prio[t] < PRIORITIES && !OnList(c, t)
    ensures Placed(Enqueue(c, prio[t], t), stat[t := Ready], prio)
  {
    forall q, x | q in c && x in c[q] ensures x != t { }
  }

  /** As Placed, but thread t may be READY without being in a queue. */
  ghost predicate PlacedBut(c: Queues, stat: map<Thread, Stat>, prio: map<Thread, nat>, t: Thread) {
    && Shaped(c)
    && (forall q, x :: q in c && x in c[q] ==> x in stat && x in prio && Belongs(q, stat[x], prio[x]))
    && (forall x :: x in stat && stat[x].Ready? && x != t ==> x in prio && InReadyQueue(c, prio[x], x))
  }

  /** A thread taken off its list with its state left alone is placed exactly when it
      was not READY. */
  lemma Withdrawn(c: Queues, stat: map<Thread, Stat>, prio: map<Thread, nat>, t: Thread)
    requires Placed(c, stat, prio) && AllDistinct(c) && t in stat
    ensures PlacedBut(Drop(c, t), stat, prio, t) && !OnList(Drop(c, t), t)
    ensures Placed(Drop(c, t), stat, prio) <==> !stat[t].Ready?
  {
    hide AllDistinct, Drop;
    DropMembers(c, t);
    assert stat[t].Ready? && t in prio && InReadyQueue(Drop(c, t), prio[t], t) ==> OnList(Drop(c, t), t);
  }

  lemma PlacedClosed(c: Queues, stat: map<Thread, Stat>, prio: map<Thread, nat>, t: Thread)
    requires PlacedBut(c, stat, prio, t) && t in stat && !OnList(c, t)
    ensures Placed(c, stat[t := Closed], prio)
  {
  }

  /** Putting a thread on the list of the dead links it once exactly when it was on no
      list by then. */
  lemma BurySafe(c: Queues, t: Thread)
    requires AllDistinct(c) && Defunct in c
    ensures AllDistinct(c[Defunct := [t] + c[Defunct]]) <==> !OnList(c, t)
  {
    var d := c[Defunct := [t] + c[Defunct]];
    if OnList(c, t) {
      var q :| q in c && t in c[q];
      assert d[Defunct][0] == t && q in d;
      if q == Defunct {
        var i :| 0 <= i < |c[q]| && c[q][i] == t;
        assert d[q][i + 1] == t;
      } else {
        assert t in d[Defunct] && t in d[q];
      }
    } else {
      assert Distinct(d[Defunct]);
    }
  }

  /** The same for the second half of rt_thread_resume and the queue of t's priority. */
  lemma RequeueSafe(c: Queues, p: nat, t: Thread)
    requires AllDistinct(c) && Prio(p) in c
    ensures AllDistinct(Enqueue(c, p, t)) <==> !OnList(c, t)
  {
    var d := Enqueue(c, p, t);
    if OnList(c, t) {
      var q :| q in c && t in c[q];
      assert d[Prio(p)][|c[Prio(p)]|] == t && q in d;
      if q == Prio(p) {
        var i :| 0 <= i < |c[q]| && c[q][i] == t;
        assert d[q][i] == t;
      } else {
        assert t in d[Prio(p)] && t in d[q];
      }
    } else {
      EnqueueMembers(c, p, t);
    }
  }

  /** Deleting a READY thread with interrupts enabled: between the sections it is in no
      queue, a priority change or a resume there queues it again, and the last section
      then links it into a second list. */
  lemma DeleteGap(c: Queues, stat: map<Thread, Stat>, prio: map<Thread, nat>, t: Thread, p: nat)
    requires Placed(c, stat, prio) && AllDistinct(c) && t in stat && stat[t].Ready? && p < PRIORITIES
    ensures !Placed(Drop(c, t), stat, prio)
    ensures Prio(p) in Drop(c, t)
    ensures var e := Enqueue(Drop(c, t), p, t);
            Defunct in e && AllDistinct(e) && !AllDistinct(e[Defunct := [t] + e[Defunct]])
  {
    hide Placed, AllDistinct, OnList;
    Withdrawn(c, stat, prio, t);
    GapShape(c, stat, prio, t, p);
    DropMembers(c, t);
    RequeueSafe(Drop(c, t), p, t);
    BurySafe(Enqueue(Drop(c, t), p, t), t);
  }

  lemma GapShape(c: Queues, stat: map<Thread, Stat>, prio: map<Thread, nat>, t: Thread, p: nat)
    requires Placed(c, stat, prio) && p < PRIORITIES
    ensures Prio(p) in Drop(c, t) && Defunct in Drop(c, t) && OnList(Enqueue(Drop(c, t), p, t), t)
  {
    var e := Enqueue(Drop(c, t), p, t);
    assert e[Prio(p)][|Drop(c, t)[Prio(p)]|] == t;
  }

  lemma PlacedWait(c: Queues, stat: map<Thread, Stat>, prio: map<Thread, nat>, o: nat, j: nat, t: Thread)
    requires Placed(c, stat, prio) && t in stat && t in prio && stat[t].Suspended? && !OnList(c, t)
    requires Wait(o) in c && j <= |c[Wait(o)]|
    ensures Placed(c[Wait(o) := InsertAt(c[Wait(o)], j, t)], stat, prio)
  {
    InsertMembers(c[Wait(o)], j, t);
  }

  lemma PlacedAbsent(c: Queues, stat: map<Thread, Stat>, prio: map<Thread, nat>, t: Thread)
    requires Placed(c, stat, prio) && t in stat && !OnList(c, t)
    ensures Placed(c, stat[t := Suspended], prio)
  {
  }

  lemma PlacedDefunct(c: Queues, stat: map<Thread, Stat>, prio: map<Thread, nat>, t: Thread)
    requires Placed(c, stat, prio) && t in stat && t in prio && stat[t].Closed? && !OnList(c, t)
    ensures Placed(c[Defunct := [t] + c[Defunct]], stat, prio)
  {
  }

  /** A priority change of a thread on no ready queue. */
  lemma PlacedPriority(c: Queues, stat: map<Thread, Stat>, prio: map<Thread, nat>, t: Thread, p: nat)
    requires Placed(c, stat, prio) && t in stat && t in prio && !stat[t].Ready?
    ensures Placed(c, stat, prio[t := p])
  {
  }

  lemma AgreesDrop(group: bv32, c: Queues, t: Thread, p: nat)
    requires Agrees(group, c) && AllDistinct(c) && p < PRIORITIES
    requires Sole(c, t, p)
    ensures var d := Drop(c, t);
            Agrees(if d[Prio(p)] == [] then WithoutBit(group, NumberMask(p)) else group, d)
  {
    hide NumberMask, Bit, WithoutBit;
    forall r: nat | r < PRIORITIES
      ensures Bit(if Drop(c, t)[Prio(p)] == [] then WithoutBit(group, NumberMask(p)) else group, r) <==> Drop(c, t)[Prio(r)] != [] {
      MaskOps(group, p, r);
    }
  }

  /** Taking a suspended thread off its list leaves the ready queues alone. */
  lemma AgreesDropWaiting(group: bv32, c: Queues, stat: map<Thread, Stat>, prio: map<Thread, nat>, t: Thread)
    requires Agrees(group, c) && Placed(c, stat, prio) && t in stat && !stat[t].Ready?
    ensures Agrees(group, Drop(c, t))
  {
    hide Bit;
  }

  lemma AgreesDefunct(group: bv32, c: Queues, t: Thread)
    requires Agrees(group, c)
    ensures Agrees(group, c[Defunct := [t] + c[Defunct]])
  {
    hide Bit;
  }

  lemma AgreesWait(group: bv32, c: Queues, o: nat, s: seq<Thread>)
    requires Agrees(group, c)
    ensures Agrees(group, c[Wait(o) := s])
  {
    hide Bit;
  }

  lemma AgreesEnqueue(group: bv32, c: Queues, p: nat, t: Thread)
    requires Agrees(group, c) && p < PRIORITIES
    ensures Agrees(WithBit(group, NumberMask(p)), Enqueue(c, p, t))
  {
    hide NumberMask, Bit, WithBit;
    forall r: nat | r < PRIORITIES ensures Bit(WithBit(group, NumberMask(p)), r) <==> Enqueue(c, p, t)[Prio(r)] != [] {
      MaskOps(group, p, r);
    }
  }

  /** The most urgent priority with a ready thread. */
  ghost predicate IsTop(c: Queues, h: nat) {
    h < PRIORITIES && Prio(h) in c && c[Prio(h)] != [] && forall p: nat :: p < h && Prio(p) in c ==> c[Prio(p)] == []
  }

  ghost predicate NoneReady(c: Queues) {
    forall p: nat :: Prio(p) in c ==> c[Prio(p)] == []
  }

  lemma TopFound(group: bv32, c: Queues)
    requires Agrees(group, c)
    ensures group == 0 <==> NoneReady(c)
    ensures group != 0 ==> Ffs(group) >= 1 && Ffs(group) as nat >= 1 && IsTop(c, Ffs(group) as nat - 1)
  {
    hide Bit, Ffs;
    if group == 0 {
      forall p: nat | Prio(p) in c ensures c[Prio(p)] == [] { NoBit(p); }
    } else {
      FfsLeast(group, 0);
      var h := Ffs(group) as nat - 1;
      forall p: nat | p < h && Prio(p) in c ensures c[Prio(p)] == [] { FfsLeast(group, p); }
      ByteOrder(0, Ffs(group));
    }
  }

  /** The suspend lists are as before. */
  ghost predicate WaitsKept(c: Queues, c': Queues) {
    forall q :: q in c && q.Wait? ==> q in c' && c'[q] == c[q]
  }

  /** Thread t is off the suspend lists, which are otherwise as before. */
  ghost predicate WaitsLose(c: Queues, c': Queues, t: Thread) {
    forall q :: q in c && q.Wait? ==> q in c' && c'[q] == Without(c[q], t)
  }

  /** Only suspend list o may differ. */
  ghost predicate OnlyWait(c: Queues, c': Queues, o: nat) {
    forall q :: q in c && q.Wait? ==> q in c' && (q != Wait(o) ==> c'[q] == c[q])
  }

  lemma NotWaiting(c: Queues, stat: map<Thread, Stat>, prio: map<Thread, nat>, t: Thread)
    requires Placed(c, stat, prio) && t in stat && !stat[t].Suspended?
    ensures WaitsKept(c, Drop(c, t)) && forall q :: q in c && q.Wait? ==> t !in c[q]
  {
  }

  lemma EnqueueWaits(c: Queues, p: nat, t: Thread)
    requires Prio(p) in c
    ensures WaitsKept(c, Enqueue(c, p, t)) && Enqueue(c, p, t).Keys == c.Keys
  {
  }

  lemma SameWaits(c: Queues)
    ensures WaitsKept(c, c)
  {
  }

  lemma OnlyOne(c: Queues, c1: Queues, o: nat, s: seq<Thread>)
    requires WaitsKept(c, c1)
    ensures OnlyWait(c, c1[Wait(o) := s], o)
  {
  }

  lemma WaitsThrough(c: Queues, c1: Queues, c2: Queues)
    requires WaitsKept(c, c1) && WaitsKept(c1, c2)
    ensures WaitsKept(c, c2)
  {
  }

  lemma MovedWaits(c: Queues, stat: map<Thread, Stat>, prio: map<Thread, nat>, t: Thread, p: nat)
    requires Placed(c, stat, prio) && t in stat && !stat[t].Suspended? && Prio(p) in Drop(c, t)
    ensures WaitsKept(c, Enqueue(Drop(c, t), p, t))
  {
    hide Placed, WaitsKept, Drop, Enqueue;
    NotWaiting(c, stat, prio, t);
    EnqueueWaits(Drop(c, t), p, t);
    WaitsThrough(c, Drop(c, t), Enqueue(Drop(c, t), p, t));
  }

  lemma WokenWaits(c: Queues, prio: map<Thread, nat>, t: Thread, cur: Thread)
    ensures WaitsLose(c, Woken(c, prio, t, cur), t)
  {
  }

  lemma TopUnique(c: Queues, h: nat, k: nat)
    requires IsTop(c, k)
    ensures !NoneReady(c) && (IsTop(c, h) ==> h == k)
  {
    assert IsTop(c, h) ==> Prio(h) in c && Prio(k) in c;
  }

  lemma NoTop(c: Queues, h: nat)
    requires NoneReady(c)
    ensures !IsTop(c, h)
  {
  }

  /** One rt_schedule with the scheduler unlocked and some thread ready at top
      priority h. */
  ghost predicate Switched(h: nat, c: Queues, stat: map<Thread, Stat>, yielding: set<Thread>, prio: map<Thread, nat>, cur: Thread,
                           c': Queues, stat': map<Thread, Stat>, yielding': set<Thread>, cur': Thread)
    requires IsTop(c, h) && cur in stat && cur in prio && Prio(prio[cur]) in c
  {
    var next := c[Prio(h)][0];
    if !stat[cur].Running? then
      cur' == next && c' == Drop(c, next) && stat' == stat[next := Running] && yielding' == yielding
    else if prio[cur] < h || (prio[cur] == h && cur !in yielding) then
      cur' == cur && c' == c && stat' == stat && yielding' == yielding
    else
      && cur' == next
      && c' == Drop(Enqueue(c, prio[cur], cur), next)
      && stat' == stat[cur := Ready][next := Running] && yielding' == yielding - {cur}
  }

  /** No ready thread is more urgent than the current one, which is running. */
  ghost predicate MostUrgent(stat: map<Thread, Stat>, prio: map<Thread, nat>, cur: Thread) {
    && cur in stat && stat[cur].Running? && cur in prio
    && forall t :: t in stat && stat[t].Ready? ==> t in prio && prio[cur] <= prio[t]
  }

  /** Whatever rt_schedule decides, the thread it leaves current is running and
      nobody who is ready outranks it. */
  lemma SwitchedMostUrgent(h: nat, c: Queues, stat: map<Thread, Stat>, yielding: set<Thread>, prio: map<Thread, nat>, cur: Thread,
                           c': Queues, stat': map<Thread, Stat>, yielding': set<Thread>, cur': Thread)
    requires IsTop(c, h) && cur in stat && cur in prio && Prio(prio[cur]) in c
    requires Switched(h, c, stat, yielding, prio, cur, c', stat', yielding', cur')
    requires Placed(c, stat, prio) && stat.Keys == prio.Keys
    ensures MostUrgent(stat', prio, cur')
  {
    hide Drop, Enqueue;
    assert c[Prio(h)][0] in c[Prio(h)];
    forall t | t in stat' && stat'[t].Ready? ensures prio[cur'] <= prio[t] {
      if stat[t].Ready? {
        assert InReadyQueue(c, prio[t], t);
        assert h <= prio[t];
      }
    }
  }

  /** A running thread has to give way: some ready thread is more urgent, or its slice is
      over and one is as urgent. */
  ghost predicate Outranked(stat: map<Thread, Stat>, prio: map<Thread, nat>, yielding: set<Thread>, cur: Thread) {
    exists t :: Challenges(stat, prio, yielding, cur, t)
  }

  ghost predicate Challenges(stat: map<Thread, Stat>, prio: map<Thread, nat>, yielding: set<Thread>, cur: Thread, t: Thread) {
    && t in stat && t in prio && cur in prio && stat[t].Ready?
    && (prio[t] < prio[cur] || (prio[t] == prio[cur] && cur in yielding))
  }

  /** Exactly then a running thread is replaced, and otherwise nothing changes. Who takes
      over is the first of the most urgent queue and leaves it; a replaced thread goes to
      the end of its own and loses its YIELD bit; every other queue stays. */
  lemma SwitchEffect(h: nat, c: Queues, stat: map<Thread, Stat>, yielding: set<Thread>, prio: map<Thread, nat>, cur: Thread,
                     c': Queues, stat': map<Thread, Stat>, yielding': set<Thread>, cur': Thread)
    requires IsTop(c, h) && cur in stat && cur in prio && Prio(prio[cur]) in c
    requires Switched(h, c, stat, yielding, prio, cur, c', stat', yielding', cur')
    requires Placed(c, stat, prio) && AllDistinct(c) && (stat[cur].Running? ==> !OnList(c, cur)) && !stat[cur].Ready?
    ensures cur' != cur <==> !stat[cur].Running? || Outranked(stat, prio, yielding, cur)
    ensures cur' == cur ==> c' == c && stat' == stat && yielding' == yielding
    ensures cur' != cur ==>
              && cur' in stat && stat[cur'].Ready? && cur' in prio && c[Prio(h)][0] == cur' && prio[cur'] == h
              && stat' == (if stat[cur].Running? then stat[cur := Ready] else stat)[cur' := Running]
              && yielding' == if stat[cur].Running? then yielding - {cur} else yielding
    ensures cur' != cur ==> c'.Keys == c.Keys && forall q :: q in c ==>
              c'[q] == (if q == Prio(h) then c[q][1..] else c[q])
                       + (if stat[cur].Running? && q == Prio(prio[cur]) then [cur] else [])
  {
    hide Drop, Enqueue, AllDistinct, OnList;
    var next := c[Prio(h)][0];
    assert next in c[Prio(h)];
    assert Belongs(Prio(h), stat[next], prio[next]);
    Decides(h, c, stat, yielding, prio, cur, next);
    if cur' != cur { QueuesAfter(h, c, prio[cur], cur, stat[cur].Running?); }
  }

  lemma Decides(h: nat, c: Queues, stat: map<Thread, Stat>, yielding: set<Thread>, prio: map<Thread, nat>, cur: Thread, next: Thread)
    requires IsTop(c, h) && Placed(c, stat, prio) && next in c[Prio(h)] && cur in prio
    ensures Outranked(stat, prio, yielding, cur) <==> h < prio[cur] || (h == prio[cur] && cur in yielding)
  {
    assert Belongs(Prio(h), stat[next], prio[next]);
    if h < prio[cur] || (h == prio[cur] && cur in yielding) {
      assert Challenges(stat, prio, yielding, cur, next);
    }
    if Outranked(stat, prio, yielding, cur) {
      var t :| Challenges(stat, prio, yielding, cur, t);
      assert InReadyQueue(c, prio[t], t);
    }
  }

  lemma QueuesAfter(h: nat, c: Queues, p: nat, cur: Thread, queued: bool)
    requires Prio(h) in c && c[Prio(h)] != [] && Prio(p) in c && AllDistinct(c) && (queued ==> !OnList(c, cur))
    ensures var d := Drop(if queued then Enqueue(c, p, cur) else c, c[Prio(h)][0]);
            d.Keys == c.Keys && forall q :: q in c ==>
              d[q] == (if q == Prio(h) then c[q][1..] else c[q]) + (if queued && q == Prio(p) then [cur] else [])
  {
    var s, e := c[Prio(h)], if queued then Enqueue(c, p, cur) else c;
    assert s[0] in s;
    if queued { EnqueueMembers(c, p, cur); }
    forall q | q in c
      ensures Without(e[q], s[0]) == (if q == Prio(h) then c[q][1..] else c[q]) + (if queued && q == Prio(p) then [cur] else [])
    {
      if q == Prio(h) {
        WithoutAt(e[q], 0);
        assert RemoveAt(e[q], 0) == c[q][1..] + if queued && q == Prio(p) then [cur] else [];
      } else {
        assert s[0] !in e[q];
      }
    }
  }

  lemma SwitchedWaits(h: nat, c: Queues, stat: map<Thread, Stat>, yielding: set<Thread>, prio: map<Thread, nat>, cur: Thread,
                      c': Queues, stat': map<Thread, Stat>, yielding': set<Thread>, cur': Thread)
    requires IsTop(c, h) && cur in stat && cur in prio && Prio(prio[cur]) in c
    requires Switched(h, c, stat, yielding, prio, cur, c', stat', yielding', cur')
    requires Placed(c, stat, prio)
    ensures WaitsKept(c, c')
  {
    hide Drop, Enqueue, WaitsKept;
    var next := c[Prio(h)][0];
    assert next in c[Prio(h)];
    SameWaits(c);
    NotWaiting(c, stat, prio, next);
    if stat[cur].Running? && c' != c {
      EnqueueWaits(c, prio[cur], cur);
      var d := Enqueue(c, prio[cur], cur);
      DropKeepsWaits(d, c, next);
      WaitsThrough(c, d, Drop(d, next));
    }
  }

  lemma DropKeepsWaits(d: Queues, c: Queues, t: Thread)
    requires WaitsKept(c, d) && d.Keys == c.Keys && forall q :: q in c && q.Wait? ==> t !in c[q]
    ensures WaitsKept(d, Drop(d, t))
  {
  }

  /** When the slice of the running thread is over and its peers are the most
      urgent ready threads, the longest waiting peer runs and the thread queues
      behind them all. */
  lemma RoundRobin(h: nat, c: Queues, stat: map<Thread, Stat>, yielding: set<Thread>, prio: map<Thread, nat>, cur: Thread,
                   c': Queues, stat': map<Thread, Stat>, yielding': set<Thread>, cur': Thread)
    requires IsTop(c, h) && cur in stat && cur in prio && Prio(prio[cur]) in c
    requires Switched(h, c, stat, yielding, prio, cur, c', stat', yielding', cur')
    requires AllDistinct(c) && !OnList(c, cur)
    requires stat[cur].Running? && cur in yielding && prio[cur] == h
    ensures cur' == c[Prio(h)][0] && stat'[cur].Ready? && cur !in yielding'
    ensures Prio(h) in c' && c'[Prio(h)] == c[Prio(h)][1..] + [cur]
    ensures forall q :: q in c && q != Prio(h) ==> q in c' && c'[q] == c[q]
  {
    var s := c[Prio(h)];
    var d := Enqueue(c, h, cur);
    assert cur !in s;
    EnqueueMembers(c, h, cur);
    WithoutAt(d[Prio(h)], 0);
    assert RemoveAt(s + [cur], 0) == s[1..] + [cur];
    forall q | q in c && q != Prio(h) ensures s[0] !in c[q] { assert s[0] in s; }
  }

  // ---- the effect of waking on the lists --------------------------------------------

  /** The threads of s with priority p, other than the current one, in order. */
  ghost function OfPriority(s: seq<Thread>, prio: map<Thread, nat>, p: nat, cur: Thread): seq<Thread> {
    if s == [] then []
    else
      var t := s[|s| - 1];
      OfPriority(s[..|s| - 1], prio, p, cur) + if t in prio && prio[t] == p && t != cur then [t] else []
  }

  /** Waking t takes it off whatever list it is on and appends it to the ready
      queue of its priority; everything else stays in place. */
  lemma WokenEffect(c: Queues, prio: map<Thread, nat>, t: Thread, cur: Thread)
    requires AllDistinct(c) && t in prio && Prio(prio[t]) in c
    requires forall p: nat :: Prio(p) in c ==> t !in c[Prio(p)]
    ensures Woken(c, prio, t, cur).Keys == c.Keys
    ensures forall q :: q in c && !q.Prio? ==> Woken(c, prio, t, cur)[q] == Without(c[q], t)
    ensures forall q :: q in c && q.Prio? ==>
              Woken(c, prio, t, cur)[q] == c[q] + if q.p == prio[t] && t != cur then [t] else []
  {
    forall q | q in c && q.Prio? ensures Without(c[q], t) == c[q] { }
  }

  /** The same for the first thread of suspend list o. */
  lemma WokenFirst(c: Queues, prio: map<Thread, nat>, o: nat, cur: Thread)
    requires AllDistinct(c) && Wait(o) in c && c[Wait(o)] != [] && c[Wait(o)][0] in prio && Prio(prio[c[Wait(o)][0]]) in c
    ensures var t := c[Wait(o)][0]; FirstWoken(c, Woken(c, prio, t, cur), o, t, prio, cur)
  {
    hide Woken;
    var t := c[Wait(o)][0];
    assert t in c[Wait(o)];
    WokenEffect(c, prio, t, cur);
    WithoutAt(c[Wait(o)], 0);
    assert RemoveAt(c[Wait(o)], 0) == c[Wait(o)][1..];
  }

  /** The threads s have been woken with -RT_ERROR; nobody else is concerned. */
  ghost predicate Released(s: seq<Thread>, stat: map<Thread, Stat>, stat': map<Thread, Stat>,
                           error: map<Thread, Err>, error': map<Thread, Err>,
                           armed: set<Thread>, armed': set<Thread>, cur: Thread)
  {
    && stat'.Keys == stat.Keys && error'.Keys == error.Keys
    && (forall t :: t in stat ==> stat'[t] == if t !in s then stat[t] else if t == cur then Running else Ready)
    && (forall t :: t in error ==> error'[t] == if t in s then Error else error[t])
    && (forall t :: t in armed' <==> t in armed && t !in s)
  }

  lemma ReleasedNone(stat: map<Thread, Stat>, error: map<Thread, Err>, armed: set<Thread>, cur: Thread)
    ensures Released([], stat, stat, error, error, armed, armed, cur)
  {
  }

  lemma ReleasedNext(s: seq<Thread>, k: nat, stat0: map<Thread, Stat>, stat: map<Thread, Stat>,
                     error0: map<Thread, Err>, error: map<Thread, Err>, armed0: set<Thread>, armed: set<Thread>, cur: Thread)
    requires k < |s| && s[k] in stat && s[k] in error
    requires Released(s[..k], stat0, stat, error0, error, armed0, armed, cur)
    ensures Released(s[..k + 1], stat0, stat[s[k] := if s[k] == cur then Running else Ready],
                     error0, error[s[k] := Error], armed0, armed - {s[k]}, cur)
  {
    assert s[..k + 1] == s[..k] + [s[k]];
  }

  lemma ReleasedKeys(s: seq<Thread>, stat: map<Thread, Stat>, stat': map<Thread, Stat>,
                     error: map<Thread, Err>, error': map<Thread, Err>, armed: set<Thread>, armed': set<Thread>, cur: Thread)
    requires Released(s, stat, stat', error, error', armed, armed', cur)
    ensures stat'.Keys == stat.Keys && error'.Keys == error.Keys
  {
  }

  /** Every ready queue of c' is that of c followed by the threads of s with its
      priority. */
  ghost predicate Appended(c: Queues, c': Queues, s: seq<Thread>, prio: map<Thread, nat>, cur: Thread) {
    forall p :: Prio(p) in c ==> Prio(p) in c' && c'[Prio(p)] == c[Prio(p)] + OfPriority(s, prio, p, cur)
  }

  /** Suspend list o has lost its first k threads s[..k] to the ready queues. */
  ghost predicate Drained(c: Queues, c': Queues, o: nat, s: seq<Thread>, k: nat, prio: map<Thread, nat>, cur: Thread) {
    && c'.Keys == c.Keys && Wait(o) in c && k <= |s| && c'[Wait(o)] == s[k..]
    && (forall q :: q in c && !q.Prio? && q != Wait(o) ==> c'[q] == c[q])
    && Appended(c, c', s[..k], prio, cur)
  }

  /** The first waiter of list o, thread t, has become ready or running. */
  ghost predicate FirstWoken(c: Queues, c': Queues, o: nat, t: Thread, prio: map<Thread, nat>, cur: Thread) {
    && c'.Keys == c.Keys && Wait(o) in c && c[Wait(o)] != [] && t == c[Wait(o)][0] && t in prio
    && c'[Wait(o)] == c[Wait(o)][1..]
    && (forall q :: q in c && !q.Prio? && q != Wait(o) ==> c'[q] == c[q])
    && (forall q :: q in c && q.Prio? ==> c'[q] == c[q] + if q.p == prio[t] && t != cur then [t] else [])
  }

  lemma DrainedNone(c: Queues, o: nat, prio: map<Thread, nat>, cur: Thread)
    requires Wait(o) in c
    ensures Drained(c, c, o, c[Wait(o)], 0, prio, cur)
  {
  }

  lemma DrainedNext(c: Queues, c1: Queues, c2: Queues, o: nat, s: seq<Thread>, k: nat, prio: map<Thread, nat>, cur: Thread)
    requires k < |s| && Drained(c, c1, o, s, k, prio, cur) && FirstWoken(c1, c2, o, s[k], prio, cur)
    ensures Drained(c, c2, o, s, k + 1, prio, cur)
  {
    assert s[..k + 1][..k] == s[..k];
  }

  predicate Started(st: Stat) {
    st.Ready? || st.Suspended? || st.Running?
  }

  /** number_mask is 1 << current_priority from startup on. */
  ghost predicate Marked(threads: set<Thread>, stat: map<Thread, Stat>, prio: map<Thread, nat>, mask: map<Thread, bv32>) {
    && stat.Keys == prio.Keys == mask.Keys == threads
    && (forall t :: t in threads ==> prio[t] < PRIORITIES)
    && (forall t :: t in threads && Started(stat[t]) ==> mask[t] == NumberMask(prio[t]))
  }

  lemma MarkedPriority(threads: set<Thread>, stat: map<Thread, Stat>, prio: map<Thread, nat>, mask: map<Thread, bv32>,
                       t: Thread, p: nat)
    requires Marked(threads, stat, prio, mask) && t in threads && p < PRIORITIES
    ensures Marked(threads, stat, prio[t := p], mask[t := NumberMask(p)])
  {
    hide NumberMask;
  }

  /** Only the current thread is RUNNING, and it is never merely READY. */
  ghost predicate OneRuns(threads: set<Thread>, stat: map<Thread, Stat>, current: Thread) {
    && current in threads && current in stat && !stat[current].Ready? && !stat[current].Init?
    && (forall t :: t in threads && t in stat && stat[t].Running? ==> t == current)
  }

  /** A thread whose timer is active is suspended, as rt_thread_timeout asserts. */
  ghost predicate TimersWait(threads: set<Thread>, stat: map<Thread, Stat>, armed: set<Thread>) {
    forall t :: t in armed ==> t in threads && t in stat && stat[t].Suspended?
  }

  lemma InitialFacts(c: Queues, threads: set<Thread>, stat: map<Thread, Stat>, prio: map<Thread, nat>,
                     mask: map<Thread, bv32>, first: Thread)
    requires Shaped(c) && (forall q :: q in c ==> c[q] == []) && first in threads
    requires stat == map t | t in threads :: if t == first then Running else Init
    requires prio.Keys == threads && forall t :: t in threads ==> prio[t] < PRIORITIES
    requires mask == map t | t in threads :: if t == first then NumberMask(prio[t]) else 0
    ensures Placed(c, stat, prio) && Agrees(0, c)
    ensures Marked(threads, stat, prio, mask) && OneRuns(threads, stat, first) && TimersWait(threads, stat, {})
  {
    hide NumberMask, Bit;
    forall p: nat | p < PRIORITIES ensures !Bit(0, p) { NoBit(p); }
  }

  /** `from` goes to the end of its ready queue, then ready thread `to` leaves. */
  lemma PreemptPlaced(c: Queues, stat: map<Thread, Stat>, prio: map<Thread, nat>, from: Thread, to: Thread)
    requires Placed(c, stat, prio) && AllDistinct(c) && from in stat && from in prio && prio[from] < PRIORITIES
    requires !OnList(c, from) && to in stat && from != to
    ensures Prio(prio[from]) in c
    ensures var d := Enqueue(c, prio[from], from);
            && Placed(Drop(d, to), stat[from := Ready][to := Running], prio)
            && (to in prio ==> Sole(d, to, prio[to]))
  {
    hide AllDistinct, Drop, OnList;
    EnqueueMembers(c, prio[from], from);
    PlacedEnqueue(c, stat, prio, from);
    PlacedDrop(Enqueue(c, prio[from], from), stat[from := Ready], prio, to, Running);
  }

  /** The state words after `to` takes over from the current thread. */
  lemma StatusSwitch(threads: set<Thread>, stat: map<Thread, Stat>, prio: map<Thread, nat>, mask: map<Thread, bv32>,
                     armed: set<Thread>, cur: Thread, to: Thread)
    requires Marked(threads, stat, prio, mask) && OneRuns(threads, stat, cur) && TimersWait(threads, stat, armed)
    requires to in threads && stat[to].Ready?
    ensures var stat' := if stat[cur].Running? then stat[cur := Ready][to := Running] else stat[to := Running];
            Marked(threads, stat', prio, mask) && OneRuns(threads, stat', to) && TimersWait(threads, stat', armed)
  {
    hide NumberMask;
  }

  lemma StatusRun(threads: set<Thread>, stat: map<Thread, Stat>, prio: map<Thread, nat>, mask: map<Thread, bv32>,
                  armed: set<Thread>, to: Thread)
    requires Marked(threads, stat, prio, mask) && TimersWait(threads, stat, armed) && to in threads && stat[to].Ready?
    ensures Marked(threads, stat[to := Running], prio, mask) && TimersWait(threads, stat[to := Running], armed)
  {
    hide NumberMask;
  }

  /** The state words after thread t moves to state st without running. */
  lemma StatusLeave(threads: set<Thread>, stat: map<Thread, Stat>, prio: map<Thread, nat>, mask: map<Thread, bv32>,
                    armed: set<Thread>, cur: Thread, t: Thread, st: Stat)
    requires Marked(threads, stat, prio, mask) && OneRuns(threads, stat, cur) && TimersWait(threads, stat, armed)
    requires t in threads && (st.Closed? || (st.Suspended? && Started(stat[t])))
    ensures Marked(threads, stat[t := st], prio, mask)
    ensures OneRuns(threads, stat[t := st], cur) && TimersWait(threads, stat[t := st], armed - {t})
  {
    hide NumberMask;
  }

  lemma WakeQueues(c: Queues, group: bv32, stat: map<Thread, Stat>, prio: map<Thread, nat>, t: Thread)
    requires Placed(c, stat, prio) && Agrees(group, c) && AllDistinct(c)
    requires t in stat && t in prio && prio[t] < PRIORITIES && stat[t].Suspended?
    ensures var d := Drop(c, t);
            && AllDistinct(d) && !OnList(d, t) && Agrees(group, d) && Prio(prio[t]) in d
            && Placed(d, stat[t := Running], prio) && Placed(Enqueue(d, prio[t], t), stat[t := Ready], prio)
  {
    hide Drop, OnList, AllDistinct, Enqueue, Agrees;
    DropMembers(c, t);
    AgreesDropWaiting(group, c, stat, prio, t);
    PlacedDrop(c, stat, prio, t, Running);
    PlacedDrop(c, stat, prio, t, Suspended);
    assert stat[t := Suspended] == stat;
    PlacedEnqueue(Drop(c, t), stat, prio, t);
  }

  lemma StatusWake(threads: set<Thread>, stat: map<Thread, Stat>, prio: map<Thread, nat>, mask: map<Thread, bv32>,
                   armed: set<Thread>, cur: Thread, t: Thread)
    requires Marked(threads, stat, prio, mask) && OneRuns(threads, stat, cur) && TimersWait(threads, stat, armed)
    requires t in threads && stat[t].Suspended?
    ensures mask[t] == NumberMask(prio[t]) && prio[t] < PRIORITIES
    ensures var stat' := stat[t := if t == cur then Running else Ready];
            Marked(threads, stat', prio, mask) && OneRuns(threads, stat', cur) && TimersWait(threads, stat', armed - {t})
  {
    hide NumberMask;
  }

  class Kernel {
    const lists: ListSpace<Queue, Thread>
    const threads: set<Thread>
    var current: Thread                 // rt_current_thread
    var stat: map<Thread, Stat>
    var yielding: set<Thread>             // threads with RT_THREAD_STAT_YIELD set
    var prio: map<Thread, nat>          // current_priority
    var initPrio: map<Thread, nat>      // init_priority
    var mask: map<Thread, bv32>         // number_mask
    var error: map<Thread, Err>
    var group: bv32                     // rt_thread_ready_priority_group
    var lockNest: nat                   // rt_scheduler_lock_nest
    var armed: set<Thread>              // threads whose thread_timer is active
    var remaining: map<Thread, nat>     // remaining_tick
    var slice: map<Thread, nat>         // init_tick

    /** Where every thread is, and what the index, the timers and the current
        thread say about it. */
    ghost predicate Valid()
      reads `current, `stat, `prio, `initPrio, `mask, `error, `group, `armed, `remaining, `slice, lists
    {
      && lists.Valid() && lists.elems == threads
      && error.Keys == remaining.Keys == slice.Keys == initPrio.Keys == threads
      && (forall t :: t in threads ==> initPrio[t] < PRIORITIES && remaining[t] < WORD && slice[t] < WORD)
      && Marked(threads, stat, prio, mask)
      && Placed(lists.contents, stat, prio)
      && Agrees(group, lists.contents)
      && OneRuns(threads, stat, current)
      && TimersWait(threads, stat, armed)
    }

    /** The system once the scheduler runs thread `first`; the others are only
        initialised. `objects` names the suspend lists. */
    constructor (members: set<Thread>, objects: set<nat>, priority: map<Thread, nat>, ticks: map<Thread, nat>, first: Thread)
      requires priority.Keys == ticks.Keys == members && first in members
      requires forall t :: t in members ==> priority[t] < PRIORITIES && ticks[t] < WORD
      ensures Valid() && threads == members && current == first && lockNest == 0 && armed == {} && fresh(lists)
      ensures forall t :: t in members ==> stat[t] == if t == first then Running else Init
      ensures forall o :: o in objects ==> Wait(o) in lists.contents && lists.contents[Wait(o)] == []
    {
      hide NumberMask, Bit, WellLinked, Agrees, Placed, Marked, OneRuns, TimersWait;
      var heads := (set p: nat | p < PRIORITIES :: Prio(p)) + (set o | o in objects :: Wait(o)) + {Defunct};
      lists := new ListSpace(heads, members);
      threads := members;
      current := first;
      stat := map t | t in members :: if t == first then Running else Init;
      yielding, armed := {}, {};
      prio, initPrio := priority, priority;
      mask := map t | t in members :: if t == first then NumberMask(priority[t]) else 0;
      error := map t | t in members :: Ok;
      group, lockNest := 0, 0;
      remaining, slice := ticks, ticks;
      new;
      InitialFacts(lists.contents, members, stat, priority, mask, first);
    }

    lemma Open()
      requires Valid()
      ensures lists.Valid() && lists.elems == threads
      ensures error.Keys == remaining.Keys == slice.Keys == initPrio.Keys == threads
      ensures forall t :: t in threads ==> initPrio[t] < PRIORITIES && remaining[t] < WORD && slice[t] < WORD
      ensures Marked(threads, stat, prio, mask) && Placed(lists.contents, stat, prio) && Agrees(group, lists.contents)
      ensures OneRuns(threads, stat, current) && TimersWait(threads, stat, armed)
    {
    }

    lemma Shut()
      requires lists.Valid() && lists.elems == threads
      requires error.Keys == remaining.Keys == slice.Keys == initPrio.Keys == threads
      requires forall t :: t in threads ==> initPrio[t] < PRIORITIES && remaining[t] < WORD && slice[t] < WORD
      requires Marked(threads, stat, prio, mask) && Placed(lists.contents, stat, prio) && Agrees(group, lists.contents)
      requires OneRuns(threads, stat, current) && TimersWait(threads, stat, armed)
      ensures Valid()
    {
    }

    lemma Facts()
      requires Valid()
      ensures AllDistinct(lists.contents) && Shaped(lists.contents)
      ensures stat.Keys == prio.Keys == mask.Keys == threads && current in threads && !stat[current].Ready?
      ensures prio[current] < PRIORITIES && Prio(prio[current]) in lists.contents
    {
      forall q | q in lists.contents ensures Distinct(lists.contents[q]) {
        ContentsDistinct(lists.next, lists.prev, lists.contents, lists.elems, q);
      }
    }

    /** What the index operations need about thread t. */
    ghost predicate Indexed(t: Thread)
      reads `group, `prio, `mask, lists
    {
      && lists.Valid() && lists.elems == threads && t in threads
      && AllDistinct(lists.contents) && Agrees(group, lists.contents)
      && t in prio && prio[t] < PRIORITIES && t in mask && mask[t] == NumberMask(prio[t])
    }

    ghost predicate OnlyIn(t: Thread)
      reads `prio, lists
    {
      t in prio && Sole(lists.contents, t, prio[t])
    }

    lemma IndexedNow(t: Thread)
      requires Valid() && t in threads && Started(stat[t])
      ensures Indexed(t) && OnlyIn(t)
      ensures stat[t].Running? ==> !OnList(lists.contents, t)
    {
      hide WellLinked, Bit, NumberMask;
      Facts();
    }

    /** rt_schedule_remove_thread */
    method RemoveThread(t: Thread)
      requires Indexed(t) && OnlyIn(t)
      modifies `group, lists
      ensures lists.Valid() && lists.elems == old(lists.elems) && Indexed(t)
      ensures lists.contents == Drop(old(lists.contents), t) && !OnList(lists.contents, t)
      ensures Agrees(group, lists.contents)
    {
      hide NumberMask, Bit, WithBit, WithoutBit, AllDistinct, Agrees, WellLinked, Distinct;
      ghost var c := lists.contents;
      AgreesDrop(group, c, t, prio[t]);
      DropMembers(c, t);
      InShape(c, prio[t]);
      InShape(Drop(c, t), prio[t]);
      lists.Remove(t);
      var empty := lists.IsEmpty(Prio(prio[t]));
      if empty {
        group := WithoutBit(group, mask[t]);
      }
    }

    static lemma InShape(c: Queues, p: nat)
      requires p < PRIORITIES
      ensures forall g :: Agrees(g, c) ==> Prio(p) in c
    {
    }

    /** rt_schedule_insert_thread */
    method InsertThread(t: Thread)
      requires Indexed(t) && !OnList(lists.contents, t)
      modifies `stat, `group, lists
      ensures lists.Valid() && lists.elems == old(lists.elems) && Indexed(t)
      ensures Agrees(group, lists.contents)
      ensures t == current ==> stat == old(stat)[t := Running] && lists.contents == old(lists.contents)
      ensures t != current ==> Prio(prio[t]) in old(lists.contents) && stat == old(stat)[t := Ready]
      ensures t != current ==> lists.contents == Enqueue(old(lists.contents), prio[t], t)
    {
      hide NumberMask, Bit, WithBit, WithoutBit, AllDistinct, Agrees, WellLinked, Distinct, Enqueue, InsertAt, OnList;
      if t == current {
        stat := stat[t := Running];
        return;
      }
      stat := stat[t := Ready];
      ghost var c := lists.contents;
      InShape(c, prio[t]);
      AgreesEnqueue(group, c, prio[t], t);
      EnqueueMembers(c, prio[t], t);
      lists.InsertBefore(Head(Prio(prio[t])), t, Prio(prio[t]), 0);
      group := WithBit(group, mask[t]);
    }

    /** rt_schedule */
    method Schedule(ghost h: nat)
      requires Valid()
      modifies `current, `stat, `yielding, `group, lists
      ensures Valid()
      ensures lockNest > 0 || NoneReady(old(lists.contents)) ==>
                current == old(current) && stat == old(stat) && yielding == old(yielding) && lists.contents == old(lists.contents)
      ensures lockNest == 0 && IsTop(old(lists.contents), h) ==>
                Switched(h, old(lists.contents), old(stat), old(yielding), prio, old(current), lists.contents, stat, yielding, current)
      ensures lockNest == 0 && (old(stat)[old(current)].Running? || !NoneReady(old(lists.contents))) ==>
                MostUrgent(stat, prio, current)
      ensures lockNest == 0 && old(stat)[old(current)].Running? ==>
                (current != old(current) <==> Outranked(old(stat), prio, old(yielding), old(current)))
      ensures current == old(current) ==>
                stat == old(stat) && yielding == old(yielding) && lists.contents == old(lists.contents)
      ensures WaitsKept(old(lists.contents), lists.contents)
    {
      hide WaitsKept, Agrees, Placed, Marked, OneRuns, WellLinked, Switched, MostUrgent, Outranked, AllDistinct, OnList;
      SameWaits(lists.contents);
      if lockNest != 0 { return; }
      Facts();
      TopFound(group, lists.contents);
      if group == 0 {
        NoTop(lists.contents, h);
        if stat[current].Running? { NoneOutranks(); }
        NoneChallenges();
        return;
      }
      var top := Ffs(group) as nat - 1;
      TopUnique(lists.contents, h, top);
      ghost var c, stat0, yielding0, cur := lists.contents, stat, yielding, current;
      if stat[current].Running? { IndexedNow(current); }
      SwitchTo(top);
      SwitchEffect(top, c, stat0, yielding0, prio, cur, lists.contents, stat, yielding, current);
      SwitchedWaits(top, c, stat0, yielding0, prio, cur, lists.contents, stat, yielding, current);
      SwitchedMostUrgent(top, c, stat0, yielding0, prio, cur, lists.contents, stat, yielding, current);
    }

    lemma NoneOutranks()
      requires Valid() && NoneReady(lists.contents) && current in stat && stat[current].Running?
      ensures MostUrgent(stat, prio, current)
    {
      hide Agrees, WellLinked, NumberMask;
    }

    lemma NoneChallenges()
      requires Valid() && NoneReady(lists.contents)
      ensures !Outranked(stat, prio, yielding, current)
    {
      hide Agrees, WellLinked, NumberMask;
      forall t ensures !Challenges(stat, prio, yielding, current, t) {
        assert t in stat && t in prio && stat[t].Ready? ==> InReadyQueue(lists.contents, prio[t], t);
      }
    }

    lemma NextReady(h: nat, to: Thread)
      requires Valid() && IsTop(lists.contents, h) && to == lists.contents[Prio(h)][0]
      ensures to in threads && stat.Keys == prio.Keys == threads && stat[to].Ready? && to != current && prio[to] == h
      ensures to !in armed
    {
      hide WellLinked, Bit, NumberMask, Drop, AllDistinct, Agrees, Indexed;
      Facts();
      assert to in lists.contents[Prio(h)];
    }

    /** Thread to is the first of the top queue. */
    lemma NextFacts(h: nat, to: Thread)
      requires Valid() && IsTop(lists.contents, h) && to == lists.contents[Prio(h)][0]
      ensures to in threads && stat.Keys == prio.Keys == threads && stat[to].Ready? && to != current && prio[to] == h
      ensures Indexed(to) && OnlyIn(to) && to !in armed
      ensures Placed(Drop(lists.contents, to), stat[to := Running], prio)
      ensures Marked(threads, stat[to := Running], prio, mask) && TimersWait(threads, stat[to := Running], armed)
      ensures !stat[current].Running? ==> OneRuns(threads, stat[to := Running], to)
    {
      hide WellLinked, Drop, AllDistinct, Agrees, Indexed, OnlyIn, OneRuns, Marked, TimersWait, Placed;
      NextReady(h, to);
      Facts();
      StatusSwitch(threads, stat, prio, mask, armed, current, to);
      StatusRun(threads, stat, prio, mask, armed, to);
      IndexedNow(to);
      NextPlaced(to);
    }

    lemma NextPlaced(to: Thread)
      requires Valid() && to in threads && stat.Keys == prio.Keys == threads && stat[to].Ready? && to != current
      ensures Placed(Drop(lists.contents, to), stat[to := Running], prio)
    {
      hide WellLinked, Bit, NumberMask, Drop, AllDistinct, Agrees, Indexed, OneRuns, Marked, TimersWait, OnlyIn, Placed;
      Facts();
      PlacedDrop(lists.contents, stat, prio, to, Running);
    }

    method SwitchTo(h: nat)
      requires Valid() && IsTop(lists.contents, h)
      modifies `current, `stat, `yielding, `group, lists
      ensures Valid()
      ensures Switched(h, old(lists.contents), old(stat), old(yielding), prio, old(current), lists.contents, stat, yielding, current)
    {
      hide Agrees, Placed, Marked, OneRuns, TimersWait, WellLinked, Indexed, OnlyIn, AllDistinct, Drop, Enqueue;
      ghost var c := lists.contents;
      Facts();
      NextFacts(h, c[Prio(h)][0]);
      var n := lists.Next(Head(Prio(h)), Prio(h), 0);
      var to := n.e;
      if stat[current].Running? {
        if prio[current] < h || (prio[current] == h && current !in yielding) {
          Stay();
          return;
        }
        PreemptFacts(h, to);
        yielding := yielding - {current};
        Preempt(to, h);
        return;
      }
      current := to;
      RemoveThread(to);
      stat := stat[to := Running];
    }

    /** The current thread goes on running. */
    method Stay()
      requires Valid() && stat[current].Running?
      modifies `stat, `group, lists
      ensures Valid() && stat == old(stat) && lists.contents == old(lists.contents)
    {
      hide Agrees, Placed, Marked, OneRuns, TimersWait, WellLinked, Indexed, OnlyIn, Drop, OnList;
      Facts();
      IndexedNow(current);
      DropAbsent(lists.contents, current);
      RemoveThread(current);
      assert stat[current := Running] == stat;
      stat := stat[current := Running];
    }

    /** The running thread goes to the end of its ready queue, `to` takes over. */
    method Preempt(to: Thread, ghost h: nat)
      requires Valid() && stat[current].Running? && IsTop(lists.contents, h) && to == lists.contents[Prio(h)][0]
      requires Prio(prio[current]) in lists.contents
      modifies `current, `stat, `group, lists
      ensures Valid() && current == to
      ensures stat == old(stat)[old(current) := Ready][to := Running]
      ensures lists.contents == Drop(Enqueue(old(lists.contents), prio[old(current)], old(current)), to)
    {
      hide Agrees, Placed, Marked, OneRuns, TimersWait, WellLinked, Drop, OnList, Enqueue, AllDistinct, NumberMask;
      PreemptFacts(h, to);
      PreemptState(to);
      var from := current;
      current := to;
      InsertThread(from);
      RemoveThread(to);
      stat := stat[to := Running];
    }

    lemma PreemptFacts(h: nat, to: Thread)
      requires Valid() && IsTop(lists.contents, h) && to == lists.contents[Prio(h)][0] && stat[current].Running?
      ensures to in threads && current in threads && stat.Keys == prio.Keys == threads
      ensures Prio(prio[current]) in lists.contents
      ensures Indexed(current) && !OnList(lists.contents, current) && Indexed(to) && to != current && stat[to].Ready?
    {
      hide WellLinked, Bit, NumberMask, Drop, AllDistinct, Enqueue, Agrees, Indexed, OneRuns, TimersWait, OnList;
      assert to in lists.contents[Prio(h)];
      Facts();
      IndexedNow(to);
      IndexedNow(current);
    }

    /** What the running thread's preemption by ready thread to leaves. */
    lemma PreemptState(to: Thread)
      requires to in threads && current in threads && stat.Keys == prio.Keys == threads && to in prio && current in prio
      requires Prio(prio[current]) in lists.contents && stat[current].Running? && stat[to].Ready?
      requires !OnList(lists.contents, current) && Valid()
      ensures var c, stat1 := Enqueue(lists.contents, prio[current], current), stat[current := Ready];
              && Sole(c, to, prio[to])
              && Placed(Drop(c, to), stat1[to := Running], prio)
              && Marked(threads, stat1[to := Running], prio, mask) && TimersWait(threads, stat1[to := Running], armed)
              && OneRuns(threads, stat1[to := Running], to)
    {
      hide WellLinked, Bit, NumberMask, Drop, AllDistinct, Enqueue, Agrees, Indexed, OneRuns, TimersWait, OnList;
      Facts();
      StatusSwitch(threads, stat, prio, mask, armed, current, to);
      PreemptPlaced(lists.contents, stat, prio, current, to);
    }

    // ---- thread.c ----------------------------------------------------------------

    lemma StatusMove(t: Thread, st: Stat)
      requires Valid() && t in threads && (st.Closed? || (st.Suspended? && Started(stat[t])))
      ensures Marked(threads, stat[t := st], prio, mask)
      ensures OneRuns(threads, stat[t := st], current) && TimersWait(threads, stat[t := st], armed - {t})
    {
      hide Marked, OneRuns, TimersWait, Placed, Agrees, WellLinked;
      Facts();
      StatusLeave(threads, stat, prio, mask, armed, current, t, st);
    }

    lemma DropFacts(t: Thread, st: Stat)
      requires Valid() && t in threads && !st.Ready?
      ensures Placed(Drop(lists.contents, t), stat[t := st], prio) && !OnList(Drop(lists.contents, t), t)
    {
      hide WellLinked, Agrees, Drop, OnList;
      Facts();
      DropMembers(lists.contents, t);
      PlacedDrop(lists.contents, stat, prio, t, st);
    }

    /** rt_thread_suspend */
    method Suspend(t: Thread) returns (ok: bool)
      requires Valid() && t in threads
      modifies `stat, `armed, `group, lists
      ensures Valid()
      ensures ok <==> old(stat[t]).Ready? || old(stat[t]).Running?
      ensures !ok ==> stat == old(stat) && armed == old(armed) && lists.contents == old(lists.contents)
      ensures ok ==> stat == old(stat)[t := Suspended] && armed == old(armed) - {t}
      ensures ok ==> lists.contents == Drop(old(lists.contents), t) && !OnList(lists.contents, t)
      ensures WaitsKept(old(lists.contents), lists.contents)
    {
      hide Agrees, Placed, Marked, OneRuns, TimersWait, WellLinked, Indexed, OnlyIn, Drop, OnList, WaitsKept;
      Facts();
      SameWaits(lists.contents);
      ok := stat[t].Ready? || stat[t].Running?;
      if !ok { return; }
      IndexedNow(t);
      NotWaiting(lists.contents, stat, prio, t);
      DropFacts(t, Suspended);
      StatusMove(t, Suspended);
      RemoveThread(t);
      stat := stat[t := Suspended];
      armed := armed - {t};
    }

    /** What waking suspended thread t makes of the queues and state words. */
    lemma WakeFacts(t: Thread)
      requires Valid() && t in threads && stat[t].Suspended?
      ensures var d, st := Drop(lists.contents, t), if t == current then Running else Ready;
              && AllDistinct(d) && !OnList(d, t) && prio[t] < PRIORITIES && Prio(prio[t]) in d
              && mask[t] == NumberMask(prio[t]) && Agrees(group, d)
              && Placed(if t == current then d else Enqueue(d, prio[t], t), stat[t := st], prio)
              && Marked(threads, stat[t := st], prio, mask)
              && OneRuns(threads, stat[t := st], current) && TimersWait(threads, stat[t := st], armed - {t})
    {
      hide WellLinked, Drop, OnList, AllDistinct, NumberMask, Bit, Enqueue, Agrees, Placed;
      Facts();
      WakeQueues(lists.contents, group, stat, prio, t);
      StatusWake(threads, stat, prio, mask, armed, current, t);
    }

    /** The first section of rt_thread_resume: off the suspend list, timer stopped. */
    method Unlink(t: Thread)
      requires Valid() && t in threads && stat[t].Suspended?
      modifies `armed, lists
      ensures Valid() && armed == old(armed) - {t}
      ensures lists.contents == Drop(old(lists.contents), t) && !OnList(lists.contents, t)
    {
      hide Agrees, Placed, Marked, OneRuns, TimersWait, WellLinked, Drop, OnList, AllDistinct, NumberMask;
      Facts();
      UnlinkFacts(t);
      lists.Remove(t);
      assert lists.contents == Drop(old(lists.contents), t) by { DropIs(old(lists.contents), t); }
      armed := armed - {t};
    }

    lemma UnlinkFacts(t: Thread)
      requires Valid() && t in threads && stat[t].Suspended?
      ensures Placed(Drop(lists.contents, t), stat, prio) && Agrees(group, Drop(lists.contents, t))
      ensures !OnList(Drop(lists.contents, t), t) && TimersWait(threads, stat, armed - {t})
    {
      hide WellLinked, Drop, OnList, AllDistinct, NumberMask, Bit, Placed, Agrees;
      Facts();
      WakeQueues(lists.contents, group, stat, prio, t);
      PlacedDrop(lists.contents, stat, prio, t, Suspended);
      assert stat[t := Suspended] == stat;
    }

    /** The second section of rt_thread_resume. With interrupts enabled in between, t may
        have been resumed by then: it must still be suspended and on no list. */
    method Requeue(t: Thread)
      requires Valid() && t in threads && stat[t].Suspended? && !OnList(lists.contents, t) && t !in armed
      modifies `stat, `group, lists
      ensures Valid() && stat == old(stat)[t := if t == current then Running else Ready]
      ensures lists.contents == Woken(old(lists.contents), prio, t, current)
    {
      hide Agrees, Placed, Marked, OneRuns, TimersWait, WellLinked, Drop, OnList, Enqueue, AllDistinct, NumberMask;
      Facts();
      WakeFacts(t);
      DropAbsent(lists.contents, t);
      assert armed - {t} == armed;
      InsertThread(t);
    }

    /** rt_thread_resume */
    method Resume(t: Thread) returns (ok: bool)
      requires Valid() && t in threads
      modifies `stat, `armed, `group, lists
      ensures Valid()
      ensures ok <==> old(stat[t]).Suspended?
      ensures !ok ==> stat == old(stat) && armed == old(armed) && lists.contents == old(lists.contents)
      ensures ok ==> armed == old(armed) - {t} && stat == old(stat)[t := if t == current then Running else Ready]
      ensures ok ==> lists.contents == Woken(old(lists.contents), prio, t, current)
    {
      hide Agrees, Placed, Marked, OneRuns, TimersWait, WellLinked, Drop, OnList, Enqueue, AllDistinct, NumberMask;
      Facts();
      ok := stat[t].Suspended?;
      if !ok { return; }
      Unlink(t);
      DropAbsent(lists.contents, t);
      Requeue(t);
    }

    /** thread->error = e */
    method SetError(t: Thread, e: Err)
      requires Valid() && t in threads
      modifies `error
      ensures Valid() && error == old(error)[t := e]
    {
      hide Agrees, Placed, Marked, OneRuns, TimersWait, WellLinked;
      error := error[t := e];
    }

    /** What callers may know of a valid kernel. */
    lemma Known()
      requires Valid()
      ensures current in threads && stat.Keys == prio.Keys == error.Keys == threads && lists.Valid()
      ensures forall t :: t in threads ==> prio[t] < PRIORITIES
      ensures forall q, t :: q in lists.contents && t in lists.contents[q] ==> t in threads
      ensures forall q, t :: q in lists.contents && q.Wait? && t in lists.contents[q] ==> stat[t].Suspended?
      ensures (forall q :: q in lists.contents ==> Distinct(lists.contents[q])) && Disjoint(lists.contents)
    {
      Facts();
    }

    lemma TimerFacts(t: Thread)
      requires Valid() && t in threads && stat[t].Suspended?
      ensures TimersWait(threads, stat, armed + {t})
    {
    }

    /** rt_timer_start on the thread's own timer. */
    method StartTimer(t: Thread)
      requires Valid() && t in threads && t in stat && stat[t].Suspended?
      modifies `armed
      ensures Valid() && armed == old(armed) + {t}
    {
      hide Agrees, Placed, Marked, OneRuns, TimersWait, WellLinked;
      TimerFacts(t);
      armed := armed + {t};
    }

    lemma ArmedFacts(t: Thread)
      requires Valid() && t in armed
      ensures t in threads && t in stat && t in prio && t in mask && t in error && stat[t].Suspended?
    {
    }

    /** rt_thread_timeout up to its rt_schedule, on the expiry of an active timer.
        Its assertion that the thread is suspended follows from Valid. */
    method Expire(t: Thread)
      requires Valid() && t in armed
      modifies `stat, `armed, `error, `group, lists
      ensures Valid() && old(stat[t]).Suspended?
      ensures error == old(error)[t := Timeout] && armed == old(armed) - {t}
      ensures stat == old(stat)[t := if t == current then Running else Ready]
      ensures lists.contents == Woken(old(lists.contents), prio, t, current)
      ensures WaitsLose(old(lists.contents), lists.contents, t)
    {
      hide Valid, Drop, OnList, Enqueue, WaitsLose;
      ArmedFacts(t);
      WokenWaits(lists.contents, prio, t, current);
      SetError(t, Timeout);
      Unlink(t);
      DropAbsent(lists.contents, t);
      Requeue(t);
    }

    /** rt_thread_control, RT_THREAD_CTRL_CHANGE_PRIORITY */
    method ChangePriority(t: Thread, p: nat)
      requires Valid() && t in threads && p < PRIORITIES
      modifies `stat, `prio, `mask, `group, lists
      ensures Valid() && stat == old(stat)
      ensures prio == old(prio)[t := p] && mask == old(mask)[t := NumberMask(p)]
      ensures !stat[t].Ready? ==> lists.contents == old(lists.contents)
      ensures stat[t].Ready? ==> Prio(p) in Drop(old(lists.contents), t)
      ensures stat[t].Ready? ==> lists.contents == Enqueue(Drop(old(lists.contents), t), p, t)
      ensures WaitsKept(old(lists.contents), lists.contents)
    {
      hide WaitsKept, Agrees, Placed, Marked, OneRuns, TimersWait, WellLinked, Drop, OnList, Enqueue, AllDistinct,
           NumberMask, Indexed, OnlyIn;
      Facts();
      if stat[t].Ready? {
        MoveQueue(t, p);
      } else {
        MarkedPriority(threads, stat, prio, mask, t, p);
        SameWaits(lists.contents);
        PlacedPriority(lists.contents, stat, prio, t, p);
        prio := prio[t := p];
        mask := mask[t := NumberMask(p)];
      }
    }

    /** A ready thread leaves its queue and gets its new priority. */
    method Displace(t: Thread, p: nat)
      requires Indexed(t) && OnlyIn(t) && t in threads && p < PRIORITIES && t in prio && t in mask
      requires lists.elems == threads && AllDistinct(Drop(lists.contents, t))
      modifies `prio, `mask, `group, lists
      ensures lists.Valid() && lists.elems == old(lists.elems) && Indexed(t)
      ensures lists.contents == Drop(old(lists.contents), t) && !OnList(lists.contents, t)
      ensures prio == old(prio)[t := p] && mask == old(mask)[t := NumberMask(p)]
    {
      hide Agrees, WellLinked, Drop, OnList, AllDistinct, NumberMask, Indexed, OnlyIn, ListSpace.Valid;
      RemoveThread(t);
      prio := prio[t := p];
      mask := mask[t := NumberMask(p)];
      IndexedAgain(t);
    }

    /** A ready thread leaves the queue of its old priority for that of the new one. */
    method MoveQueue(t: Thread, p: nat)
      requires Valid() && t in threads && p < PRIORITIES && stat[t].Ready?
      modifies `stat, `prio, `mask, `group, lists
      ensures Valid() && stat == old(stat)
      ensures prio == old(prio)[t := p] && mask == old(mask)[t := NumberMask(p)]
      ensures Prio(p) in Drop(old(lists.contents), t)
      ensures lists.contents == Enqueue(Drop(old(lists.contents), t), p, t)
      ensures WaitsKept(old(lists.contents), lists.contents)
    {
      hide WaitsKept, Agrees, Placed, Marked, OneRuns, TimersWait, Drop, OnList, Enqueue, AllDistinct, NumberMask, Indexed,
           OnlyIn, Shaped, Valid, ListSpace.Valid;
      Open();
      Facts();
      MarkedPriority(threads, stat, prio, mask, t, p);
      ReadyPriority(t, p);
      MovedWaits(lists.contents, stat, prio, t, p);
      assert stat[t := Ready] == stat;
      Displace(t, p);
      InsertThread(t);
      Shut();
    }

    lemma IndexedAgain(t: Thread)
      requires lists.Valid() && lists.elems == threads && t in threads && AllDistinct(lists.contents)
      requires Agrees(group, lists.contents)
      requires t in prio && prio[t] < PRIORITIES && t in mask && mask[t] == NumberMask(prio[t])
      ensures Indexed(t)
    {
    }

    lemma NowPlaced(p: nat)
      requires Valid() && p < PRIORITIES
      ensures Prio(p) in lists.contents
    {
      hide Agrees, Marked, OneRuns, TimersWait, WellLinked;
    }

    lemma ReadyPriority(t: Thread, p: nat)
      requires Valid() && t in threads && p < PRIORITIES && stat[t].Ready?
      ensures Indexed(t) && OnlyIn(t) && t != current
      ensures Prio(p) in Drop(lists.contents, t) && AllDistinct(Drop(lists.contents, t))
      ensures Placed(Enqueue(Drop(lists.contents, t), p, t), stat, prio[t := p])
    {
      hide WellLinked, Drop, OnList, AllDistinct, NumberMask, Bit, Enqueue, Agrees, Indexed, OnlyIn, Placed, Marked, TimersWait;
      Facts();
      IndexedNow(t);
      NowPlaced(p);
      var d := Drop(lists.contents, t);
      DropMembers(lists.contents, t);
      DropFacts(t, Suspended);
      PlacedPriority(d, stat[t := Suspended], prio, t, p);
      PlacedEnqueue(d, stat[t := Suspended], prio[t := p], t);
      assert stat[t := Suspended][t := Ready] == stat;
    }

    /** rt_thread_startup up to its rt_schedule. */
    method Startup(t: Thread)
      requires Valid() && t in threads && stat[t].Init?
      modifies `stat, `yielding, `prio, `mask, `armed, `group, lists
      ensures Valid() && t != current && armed == old(armed) && yielding == old(yielding) - {t}
      ensures prio == old(prio)[t := initPrio[t]] && mask == old(mask)[t := NumberMask(initPrio[t])]
      ensures stat == old(stat)[t := Ready]
      ensures Prio(initPrio[t]) in old(lists.contents)
      ensures lists.contents == Enqueue(old(lists.contents), initPrio[t], t)
      ensures WaitsKept(old(lists.contents), lists.contents)
    {
      hide WaitsKept, Agrees, Placed, Marked, OneRuns, TimersWait, WellLinked, Drop, OnList, Enqueue, AllDistinct, NumberMask;
      SetUp(t);
      EnqueueWaits(lists.contents, initPrio[t], t);
      var ok := Resume(t);
      assert armed == old(armed);
    }

    /** The assignments of rt_thread_startup before its rt_thread_resume; the thread is
        on no list, so each of them may be followed by other sections. */
    method SetUp(t: Thread)
      requires Valid() && t in threads && stat[t].Init?
      modifies `stat, `yielding, `prio, `mask
      ensures yielding == old(yielding) - {t}
      ensures Valid() && t != current && t !in armed && Drop(lists.contents, t) == lists.contents
      ensures prio == old(prio)[t := initPrio[t]] && mask == old(mask)[t := NumberMask(initPrio[t])]
      ensures stat == old(stat)[t := Suspended] && initPrio[t] < PRIORITIES && Prio(initPrio[t]) in lists.contents
    {
      hide Agrees, Placed, Marked, OneRuns, TimersWait, WellLinked, Drop, OnList, AllDistinct, NumberMask;
      StartupFacts(t);
      prio := prio[t := initPrio[t]];
      mask := mask[t := NumberMask(initPrio[t])];
      stat := stat[t := Suspended];
      yielding := yielding - {t};
    }

    lemma StartupFacts(t: Thread)
      requires Valid() && t in threads && stat[t].Init?
      ensures t in stat && t in prio && t in mask && t in initPrio && t !in armed && t != current
      ensures initPrio[t] < PRIORITIES && Prio(initPrio[t]) in lists.contents
      ensures Drop(lists.contents, t) == lists.contents
      ensures var stat', prio' := stat[t := Suspended], prio[t := initPrio[t]];
              && Placed(lists.contents, stat', prio') && Marked(threads, stat', prio', mask[t := NumberMask(initPrio[t])])
              && OneRuns(threads, stat', current) && TimersWait(threads, stat', armed)
    {
      hide WellLinked, Agrees, NumberMask, Drop, OnList, AllDistinct, Placed;
      Facts();
      InitAbsent(t);
      DropAbsent(lists.contents, t);
      PlacedPriority(lists.contents, stat, prio, t, initPrio[t]);
      PlacedAbsent(lists.contents, stat, prio[t := initPrio[t]], t);
    }

    lemma InitAbsent(t: Thread)
      requires Valid() && t in threads && stat[t].Init?
      ensures !OnList(lists.contents, t) && t !in armed && t != current
    {
    }

    /** What is left of Valid while thread t is being deleted: t may be READY and in no
        queue. */
    ghost predicate ValidBut(t: Thread)
      reads `current, `stat, `prio, `initPrio, `mask, `error, `group, `armed, `remaining, `slice, lists
    {
      && lists.Valid() && lists.elems == threads && t in threads
      && error.Keys == remaining.Keys == slice.Keys == initPrio.Keys == threads
      && (forall x :: x in threads ==> initPrio[x] < PRIORITIES && remaining[x] < WORD && slice[x] < WORD)
      && Marked(threads, stat, prio, mask)
      && PlacedBut(lists.contents, stat, prio, t)
      && Agrees(group, lists.contents)
      && OneRuns(threads, stat, current)
      && TimersWait(threads, stat, armed)
    }

    /** The first section of rt_thread_delete and rt_thread_detach of a started thread:
        every thread is still placed exactly when this one was not READY. */
    method Withdraw(t: Thread)
      requires Valid() && t in threads && Started(stat[t])
      modifies `group, lists
      ensures lists.contents == Drop(old(lists.contents), t) && !OnList(lists.contents, t)
      ensures ValidBut(t) && (Valid() <==> !stat[t].Ready?)
    {
      hide Agrees, Placed, PlacedBut, Marked, OneRuns, TimersWait, WellLinked, Drop, OnList, AllDistinct, NumberMask, Indexed, OnlyIn;
      Facts();
      IndexedNow(t);
      Withdrawn(lists.contents, stat, prio, t);
      RemoveThread(t);
    }

    /** The second: rt_timer_detach. */
    method StopTimer(t: Thread)
      requires ValidBut(t)
      modifies `armed
      ensures ValidBut(t) && armed == old(armed) - {t}
      ensures old(Valid()) ==> Valid()
    {
      hide Agrees, Placed, PlacedBut, Marked, OneRuns, WellLinked;
      armed := armed - {t};
    }

    /** The last: closed, and on the list of the dead unless it is a static thread
        without a cleanup function. With interrupts enabled before it, t may have been
        queued again by then: it must be on no list, with its timer stopped. */
    method Bury(t: Thread, defunct: bool)
      requires ValidBut(t) && !OnList(lists.contents, t) && t !in armed
      modifies `stat, `yielding, lists
      ensures Valid() && stat == old(stat)[t := Closed] && yielding == old(yielding) - {t} && Defunct in old(lists.contents)
      ensures var c := old(lists.contents); lists.contents == if defunct then c[Defunct := [t] + c[Defunct]] else c
    {
      hide Agrees, Placed, PlacedBut, Marked, OneRuns, TimersWait, WellLinked, OnList, NumberMask;
      BuryFacts(t);
      stat := stat[t := Closed];
      yielding := yielding - {t};
      if defunct {
        PlacedDefunct(lists.contents, stat, prio, t);
        AgreesDefunct(group, lists.contents, t);
        lists.InsertAfterHead(Defunct, t);
      }
    }

    lemma BuryFacts(t: Thread)
      requires ValidBut(t) && !OnList(lists.contents, t) && t !in armed
      ensures t in stat && t in prio && Defunct in lists.contents
      ensures Placed(lists.contents, stat[t := Closed], prio) && Marked(threads, stat[t := Closed], prio, mask)
      ensures OneRuns(threads, stat[t := Closed], current) && TimersWait(threads, stat[t := Closed], armed)
    {
      hide WellLinked, OnList, NumberMask, Bit, Agrees;
      PlacedClosed(lists.contents, stat, prio, t);
    }

    /** rt_thread_delete and rt_thread_detach with interrupts disabled throughout, or
        of a thread that is INIT or CLOSE. */
    method Close(t: Thread, defunct: bool)
      requires Valid() && t in threads
      modifies `stat, `yielding, `armed, `group, lists
      ensures Valid()
      ensures old(stat[t]).Closed? ==>
                && stat == old(stat) && yielding == old(yielding) && armed == old(armed)
                && lists.contents == old(lists.contents)
      ensures !old(stat[t]).Closed? ==>
                stat == old(stat)[t := Closed] && yielding == old(yielding) - {t} && armed == old(armed) - {t}
      ensures !old(stat[t]).Closed? ==> Defunct in Drop(old(lists.contents), t)
      ensures !old(stat[t]).Closed? ==> var d := Drop(old(lists.contents), t);
              lists.contents == if defunct then d[Defunct := [t] + d[Defunct]] else d
    {
      hide Valid, ValidBut, Drop, OnList;
      Named(t);
      if stat[t].Closed? { return; }
      if stat[t] != Init {
        Withdraw(t);
      } else {
        InitAbsent(t);
        DropAbsent(lists.contents, t);
        StillBut(t);
      }
      StopTimer(t);
      Bury(t, defunct);
    }

    lemma Named(t: Thread)
      requires Valid() && t in threads
      ensures t in stat
    {
      hide WellLinked, Agrees, Placed, OneRuns, TimersWait, NumberMask;
    }

    lemma StillBut(t: Thread)
      requires Valid() && t in threads
      ensures ValidBut(t)
    {
      hide WellLinked, Agrees, NumberMask;
    }

    /** rt_thread_exit of the running thread up to its rt_schedule. */
    method Exit(defunct: bool)
      requires Valid() && stat[current].Running?
      modifies `stat, `yielding, `armed, `group, lists
      ensures Valid() && stat == old(stat)[current := Closed] && yielding == old(yielding) - {current} && armed == old(armed)
      ensures Defunct in old(lists.contents)
      ensures lists.contents ==
              if defunct then old(lists.contents)[Defunct := [current] + old(lists.contents)[Defunct]] else old(lists.contents)
    {
      hide Agrees, Placed, Marked, OneRuns, WellLinked, Drop, OnList, Enqueue, AllDistinct, NumberMask, Indexed, OnlyIn, Bit;
      Facts();
      IndexedNow(current);
      DropAbsent(lists.contents, current);
      assert current !in armed;
      Close(current, defunct);
    }

    // ---- clock.c: the time slice ----------------------------------------------------

    /** The slice accounting of rt_tick_increase up to its rt_thread_yield: tells
        whether the slice of the current thread is over. */
    method Tick() returns (over: bool)
      requires Valid()
      modifies `remaining, `yielding
      ensures Valid()
      ensures over <==> old(remaining[current]) == 1
      ensures yielding == if over then old(yielding) + {current} else old(yielding)
      ensures remaining == old(remaining)[current := if over then slice[current] else (old(remaining[current]) - 1) % WORD]
    {
      hide Agrees, Placed, Marked, OneRuns, TimersWait, WellLinked, AllDistinct, Shaped;
      Facts();
      var left := (remaining[current] - 1) % WORD;
      over := left == 0;
      if !over {
        remaining := remaining[current := left];
        return;
      }
      remaining := remaining[current := slice[current]];
      yielding := yielding + {current};
    }

    /** rt_enter_critical */
    method EnterCritical()
      requires Valid()
      modifies `lockNest
      ensures Valid() && lockNest == old(lockNest) + 1
    {
      hide Valid;
      lockNest := lockNest + 1;
    }

    /** rt_exit_critical: tells whether it goes on to rt_schedule. */
    method ExitCritical() returns (unlocked: bool)
      requires Valid()
      modifies `lockNest
      ensures Valid() && lockNest == (if old(lockNest) == 0 then 0 else old(lockNest) - 1) && (unlocked <==> lockNest == 0)
    {
      hide Valid;
      unlocked := lockNest <= 1;
      lockNest := if unlocked then 0 else lockNest - 1;
    }

    // ---- the suspend-list helpers of ipc.c ---------------------------------------------

    /** Queues with thread t inserted in suspend list o at place j. */
    lemma WaitFacts(o: nat, j: nat, t: Thread)
      requires Valid() && t in threads && stat[t].Suspended? && !OnList(lists.contents, t)
      requires Wait(o) in lists.contents && j <= |lists.contents[Wait(o)]|
      ensures var c := lists.contents[Wait(o) := InsertAt(lists.contents[Wait(o)], j, t)];
              Placed(c, stat, prio) && Agrees(group, c)
    {
      hide WellLinked, Agrees, OnList, NumberMask, InsertAt;
      PlacedWait(lists.contents, stat, prio, o, j, t);
      AgreesWait(group, lists.contents, o, InsertAt(lists.contents[Wait(o)], j, t));
    }

    lemma NotThere(o: nat, t: Thread)
      requires Valid() && t in threads && !stat[t].Suspended? && Wait(o) in lists.contents
      ensures t in prio && t !in lists.contents[Wait(o)]
    {
      hide Agrees, Marked, OneRuns, TimersWait, WellLinked;
      Facts();
    }

    /** rt_ipc_list_suspend */
    method ListSuspend(o: nat, t: Thread, order: Order)
      requires Valid() && t in threads && Started(stat[t]) && !stat[t].Suspended? && Wait(o) in lists.contents
      modifies `stat, `armed, `group, lists
      ensures Valid() && stat == old(stat)[t := Suspended] && armed == old(armed) - {t}
      ensures Wait(o) in Drop(old(lists.contents), t)
      ensures var d := Drop(old(lists.contents), t); var s := d[Wait(o)];
              && s == old(lists.contents)[Wait(o)]
              && var j := if order.Fifo? then |s| else Slot(s, prio, prio[t]);
              && j <= |s| && lists.contents == d[Wait(o) := InsertAt(s, j, t)]
      ensures OnlyWait(old(lists.contents), lists.contents, o) && Wait(o) in lists.contents
    {
      hide Valid, Drop, OnList, InsertAt, Slot, OnlyWait, WaitsKept;
      NotThere(o, t);
      var ok := Suspend(t);
      DropKeys(old(lists.contents), t);
      ghost var s := lists.contents[Wait(o)];
      if order.Fifo? {
        OnlyOne(old(lists.contents), lists.contents, o, InsertAt(s, |s|, t));
        Enter(o, Head(Wait(o)), t, 0);
        return;
      }
      WaitersKnown(o);
      var l, j := FindSlot(o, prio[t]);
      OnlyOne(old(lists.contents), lists.contents, o, InsertAt(s, j, t));
      Enter(o, l, t, if j == |s| then 0 else j + 1);
    }

    /** rt_thread_suspend and rt_list_insert_after at a suspend list, as
        rt_mp_alloc does: the newest waiter comes first. */
    method SuspendFront(o: nat, t: Thread)
      requires Valid() && t in threads && Started(stat[t]) && !stat[t].Suspended? && Wait(o) in lists.contents
      modifies `stat, `armed, `group, lists
      ensures Valid() && stat == old(stat)[t := Suspended] && armed == old(armed) - {t}
      ensures OnlyWait(old(lists.contents), lists.contents, o) && Wait(o) in lists.contents
      ensures lists.contents[Wait(o)] == [t] + old(lists.contents)[Wait(o)]
    {
      hide Agrees, Placed, Marked, OneRuns, TimersWait, WellLinked, Drop, OnList, AllDistinct, NumberMask, Bit;
      Facts();
      NotWaiting(lists.contents, stat, prio, t);
      var ok := Suspend(t);
      DropKeys(old(lists.contents), t);
      ghost var c := lists.contents;
      WaitFacts(o, 0, t);
      lists.InsertAfterHead(Wait(o), t);
      assert InsertAt(c[Wait(o)], 0, t) == [t] + c[Wait(o)];
    }

    static lemma DropKeys(c: Queues, t: Thread)
      ensures Drop(c, t).Keys == c.Keys
      ensures forall q :: q in c && t !in c[q] ==> Drop(c, t)[q] == c[q]
    {
    }

    lemma WaitersKnown(o: nat)
      requires Valid() && Wait(o) in lists.contents
      ensures lists.Valid()
      ensures forall k :: 0 <= k < |lists.contents[Wait(o)]| ==> lists.contents[Wait(o)][k] in prio
    {
      hide WellLinked, Agrees, NumberMask;
      forall k | 0 <= k < |lists.contents[Wait(o)]| ensures lists.contents[Wait(o)][k] in prio {
        assert lists.contents[Wait(o)][k] in lists.contents[Wait(o)];
      }
    }

    /** rt_list_insert_before into a suspend list. */
    method Enter(o: nat, l: Node<Queue, Thread>, t: Thread, ghost j: nat)
      requires Valid() && t in threads && stat[t].Suspended? && !OnList(lists.contents, t) && Wait(o) in lists.contents
      requires j <= |lists.contents[Wait(o)]| && l == CycleOf(Wait(o), lists.contents[Wait(o)])[j]
      modifies lists
      ensures Valid()
      ensures var s := old(lists.contents)[Wait(o)];
              lists.contents == old(lists.contents)[Wait(o) := InsertAt(s, if j == 0 then |s| else j - 1, t)]
    {
      hide Agrees, Placed, Marked, OneRuns, TimersWait, WellLinked, OnList, NumberMask, InsertAt, Bit;
      WaitFacts(o, if j == 0 then |lists.contents[Wait(o)]| else j - 1, t);
      lists.InsertBefore(l, t, Wait(o), j);
    }

    /** The search loop: the node to insert before, or the head. */
    method FindSlot(o: nat, p: nat) returns (n: Node<Queue, Thread>, ghost j: nat)
      requires lists.Valid() && Wait(o) in lists.contents
      requires forall k :: 0 <= k < |lists.contents[Wait(o)]| ==> lists.contents[Wait(o)][k] in prio
      ensures j == Slot(lists.contents[Wait(o)], prio, p)
      ensures n == CycleOf(Wait(o), lists.contents[Wait(o)])[
                     if Slot(lists.contents[Wait(o)], prio, p) == |lists.contents[Wait(o)]| then 0
                     else Slot(lists.contents[Wait(o)], prio, p) + 1]
    {
      hide WellLinked;
      ghost var s := lists.contents[Wait(o)];
      n := lists.Next(Head(Wait(o)), Wait(o), 0);
      j := 0;
      while n != Head(Wait(o))
        invariant j <= |s| && n == CycleOf(Wait(o), s)[if j == |s| then 0 else j + 1]
        invariant forall k :: 0 <= k < j ==> prio[s[k]] <= p
        decreases |s| - j
      {
        if p < prio[n.e] {
          SlotIs(s, prio, p, j);
          return;
        }
        n := lists.Next(n, Wait(o), j + 1);
        j := j + 1;
      }
      SlotIs(s, prio, p, j);
    }

    /** What one round of rt_ipc_list_resume_all leaves in the lists. */
    lemma FirstWaiter(o: nat)
      requires Valid() && Wait(o) in lists.contents && lists.contents[Wait(o)] != []
      ensures var t := lists.contents[Wait(o)][0]; var w := Woken(lists.contents, prio, t, current);
              && t in threads && t in stat && t in error && t in prio && stat[t].Suspended?
              && FirstWoken(lists.contents, w, o, t, prio, current)
    {
      hide WellLinked, Agrees, Woken, NumberMask, AllDistinct, FirstWoken;
      Facts();
      assert lists.contents[Wait(o)][0] in lists.contents[Wait(o)];
      WokenFirst(lists.contents, prio, o, current);
    }

    /** rt_ipc_list_resume: wakes the first waiter. */
    method ListResume(o: nat) returns (t: Thread)
      requires Valid() && Wait(o) in lists.contents && lists.contents[Wait(o)] != []
      modifies `stat, `armed, `group, lists
      ensures Valid() && t == old(lists.contents)[Wait(o)][0] && t in threads && old(stat[t]).Suspended?
      ensures armed == old(armed) - {t} && stat == old(stat)[t := if t == current then Running else Ready]
      ensures lists.contents == Woken(old(lists.contents), prio, t, current)
      ensures FirstWoken(old(lists.contents), lists.contents, o, t, prio, current)
    {
      hide FirstWoken, Agrees, Marked, OneRuns, TimersWait, WellLinked, Drop, OnList, Enqueue, Woken, NumberMask;
      Facts();
      FirstWaiter(o);
      var n := lists.Next(Head(Wait(o)), Wait(o), 0);
      t := n.e;
      assert t in lists.contents[Wait(o)];
      var ok := Resume(t);
    }

    /** One round: the first waiter is woken with -RT_ERROR. */
    method ReleaseFirst(o: nat) returns (t: Thread)
      requires Valid() && Wait(o) in lists.contents && lists.contents[Wait(o)] != []
      modifies `stat, `armed, `error, `group, lists
      ensures Valid() && t in old(stat) && t in old(error)
      ensures armed == old(armed) - {t} && stat == old(stat)[t := if t == current then Running else Ready]
      ensures error == old(error)[t := Error]
      ensures t == old(lists.contents)[Wait(o)][0] && FirstWoken(old(lists.contents), lists.contents, o, t, prio, current)
    {
      hide Agrees, Placed, Marked, OneRuns, TimersWait, WellLinked, Woken, NumberMask, AllDistinct, FirstWoken;
      FirstWaiter(o);
      var n := lists.Next(Head(Wait(o)), Wait(o), 0);
      error := error[n.e := Error];
      t := ListResume(o);
    }

    /** rt_ipc_list_resume_all: every waiter is woken with error -RT_ERROR, in order. */
    method ListResumeAll(o: nat)
      requires Valid() && Wait(o) in lists.contents
      modifies `stat, `armed, `error, `group, lists
      ensures Valid() && Wait(o) in lists.contents && lists.contents[Wait(o)] == []
      ensures var s := old(lists.contents)[Wait(o)];
              && Drained(old(lists.contents), lists.contents, o, s, |s|, prio, current)
              && Released(s, old(stat), stat, old(error), error, old(armed), armed, current)
    {
      hide Valid, Released, Drained, FirstWoken;
      ghost var c, s, k := lists.contents, lists.contents[Wait(o)], 0;
      ghost var stat0, error0, armed0 := stat, error, armed;
      DrainedNone(c, o, prio, current);
      ReleasedNone(stat, error, armed, current);
      Rest(c, o, 0);
      var empty := lists.IsEmpty(Wait(o));
      while !empty
        invariant Valid() && Drained(c, lists.contents, o, s, k, prio, current)
        invariant k <= |s| && Wait(o) in lists.contents && lists.contents[Wait(o)] == s[k..] && (empty <==> k == |s|)
        invariant Released(s[..k], stat0, stat, error0, error, armed0, armed, current)
        decreases |s| - k
      {
        ghost var c1, stat1, error1, armed1 := lists.contents, stat, error, armed;
        var t := ReleaseFirst(o);
        ReleasedKeys(s[..k], stat0, stat1, error0, error1, armed0, armed1, current);
        ReleasedNext(s, k, stat0, stat1, error0, error1, armed0, armed1, current);
        DrainedNext(c, c1, lists.contents, o, s, k, prio, current);
        k := k + 1;
        Rest(c, o, k);
        empty := lists.IsEmpty(Wait(o));
      }
      assert s[..k] == s;
    }

    /** How far the wake-up loop is. */
    lemma Rest(c: Queues, o: nat, k: nat)
      requires Valid() && Wait(o) in c && Drained(c, lists.contents, o, c[Wait(o)], k, prio, current)
      ensures k <= |c[Wait(o)]| && lists.Valid() && Wait(o) in lists.contents
      ensures lists.contents[Wait(o)] == c[Wait(o)][k..]
    {
    }
  }
}
