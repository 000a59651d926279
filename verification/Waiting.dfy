/** Waiting on an object, and the accounting of wake-ups. */
module Waiting {
  // The suspend list of struct rt_ipc_object with its three helpers, and what mailboxes,
  // message queues and memory pools share: who was woken and has not run yet.

  import opened Kernel
  import opened Lists
  import opened Ordered
  import opened Rings

  // ---- wake-ups ------------------------------------------------------------------

  /** The threads suspended on an object, and those it has woken that have not run
      since. */
  datatype Line = Line(waiters: seq<Thread>, woken: set<Thread>)

  /** Nobody stays suspended beside unclaimed supply: while threads wait, at least
      as many woken threads are on their way as there are items. */
  ghost predicate NoLostWakeup(l: Line, supply: int) {
    && Distinct(l.waiters)
    && (forall t :: t in l.waiters ==> t !in l.woken)
    && (l.waiters != [] ==> |l.woken| >= supply)
  }

  /** One item was added: the first waiter, if any, is woken. */
  ghost function Granted(l: Line): Line {
    if l.waiters == [] then l else Line(l.waiters[1..], l.woken + {l.waiters[0]})
  }

  /** Thread t has run: it took an item or gave up. */
  ghost function Ran(l: Line, t: Thread): Line {
    l.(woken := l.woken - {t})
  }

  /** Thread t has run and waits at place j. */
  ghost function Joined(l: Line, j: nat, t: Thread): Line
    requires j <= |l.waiters|
  {
    Line(InsertAt(l.waiters, j, t), l.woken - {t})
  }

  /** Waiter t left on a timeout. */
  ghost function Left(l: Line, t: Thread): Line {
    l.(waiters := Without(l.waiters, t))
  }

  ghost function Flushed(l: Line): Line {
    l.(waiters := [])
  }

  lemma GrantedKeeps(l: Line, supply: nat)
    requires NoLostWakeup(l, supply)
    ensures NoLostWakeup(Granted(l), supply + 1)
  {
    if l.waiters != [] {
      DistinctRemove(l.waiters, 0);
      assert RemoveAt(l.waiters, 0) == l.waiters[1..];
      assert l.waiters[0] in l.waiters;
      forall t | t in l.waiters[1..] ensures t in l.waiters && t != l.waiters[0] {
        var i :| 0 < i < |l.waiters| && l.waiters[i] == t;
      }
    }
  }

  /** A thread that runs while there is supply takes one item. */
  lemma TookKeeps(l: Line, supply: nat, t: Thread)
    requires NoLostWakeup(l, supply) && supply > 0
    ensures NoLostWakeup(Ran(l, t), supply - 1)
  {
    if t in l.woken { assert |l.woken - {t}| == |l.woken| - 1; }
  }

  lemma GaveUpKeeps(l: Line, t: Thread)
    requires NoLostWakeup(l, 0)
    ensures NoLostWakeup(Ran(l, t), 0)
  {
  }

  lemma JoinedKeeps(l: Line, j: nat, t: Thread)
    requires NoLostWakeup(l, 0) && j <= |l.waiters| && t !in l.waiters
    ensures NoLostWakeup(Joined(l, j, t), 0)
  {
    DistinctInsert(l.waiters, j, t);
    InsertMembers(l.waiters, j, t);
  }

  lemma LeftKeeps(l: Line, supply: int, t: Thread)
    requires NoLostWakeup(l, supply)
    ensures NoLostWakeup(Left(l, t), supply)
  {
    WithoutMembers(l.waiters, t);
  }

  /** The consequence: if someone waits and something is there to take, a woken
      thread is about to take it. */
  lemma SomeoneComes(l: Line, supply: nat)
    requires NoLostWakeup(l, supply) && l.waiters != [] && supply > 0
    ensures exists t :: t in l.woken && t !in l.waiters
  {
    assert l.woken == {} ==> |l.woken| == 0;
    var t :| t in l.woken;
  }

  /** Who is on the way after a step, told from the suspend list: those it took off,
      unless by a timeout or a reset, and those who were before and have not run in it. */
  ghost function OnTheWay(was: seq<Thread>, now: seq<Thread>, before: set<Thread>, wakes: bool, ran: set<Thread>): set<Thread> {
    before - ran + if wakes then set t | t in was && t !in now else {}
  }

  lemma GrantedWay(l: Line)
    requires Distinct(l.waiters)
    ensures Granted(l).woken == OnTheWay(l.waiters, Granted(l).waiters, l.woken, true, {})
  {
    if l.waiters != [] {
      assert l.waiters[0] in l.waiters;
      forall t | t in l.waiters && t != l.waiters[0] ensures t in l.waiters[1..] { }
      forall t | t in l.waiters[1..] ensures t in l.waiters && t != l.waiters[0] {
        var i :| 0 < i < |l.waiters| && l.waiters[i] == t;
      }
    }
  }

  lemma RanWay(l: Line, t: Thread)
    ensures Ran(l, t).woken == OnTheWay(l.waiters, Ran(l, t).waiters, l.woken, true, {t})
  {
  }

  lemma JoinedWay(l: Line, j: nat, t: Thread)
    requires j <= |l.waiters|
    ensures Joined(l, j, t).woken == OnTheWay(l.waiters, Joined(l, j, t).waiters, l.woken, true, {t})
  {
    InsertMembers(l.waiters, j, t);
  }

  lemma SameWay(l: Line)
    ensures l.woken == OnTheWay(l.waiters, l.waiters, l.woken, true, {})
  {
  }

  // ---- the suspend list -------------------------------------------------------------

  /** Where rt_ipc_list_suspend puts a thread of priority p. */
  ghost function Place(s: seq<Thread>, prio: map<Thread, nat>, p: nat, order: Order): (j: nat)
    ensures j <= |s|
  {
    if order.Fifo? then |s| else Slot(s, prio, p)
  }

  class WaitList {
    const kernel: Kernel
    const list: nat
    const order: Order

    ghost predicate Valid()
      reads kernel, kernel.lists
    {
      kernel.Valid() && Wait(list) in kernel.lists.contents
    }

    ghost function Waiters(): seq<Thread>
      requires Wait(list) in kernel.lists.contents
      reads kernel, kernel.lists
    {
      kernel.lists.contents[Wait(list)]
    }

    constructor (system: Kernel, place: nat, flag: Order)
      requires system.Valid() && Wait(place) in system.lists.contents
      ensures Valid() && kernel == system && list == place && order == flag
    {
      kernel, list, order := system, place, flag;
    }

    /** The running thread, and what holds of it and of the waiters. */
    lemma Facts()
      requires Valid()
      ensures kernel.current in kernel.threads && kernel.current in kernel.stat && kernel.current in kernel.prio
      ensures kernel.error.Keys == kernel.threads
      ensures kernel.stat[kernel.current].Running? ==> kernel.current !in Waiters()
      ensures Distinct(Waiters()) && forall t :: t in Waiters() ==> t in kernel.threads && t in kernel.error
    {
      hide Kernel.Valid;
      kernel.Known();
    }

    method IsEmpty() returns (r: bool)
      requires Valid()
      ensures r <==> Waiters() == []
    {
      hide Kernel.Valid;
      kernel.Known();
      r := kernel.lists.IsEmpty(Wait(list));
    }

    /** rt_ipc_list_suspend of the running thread, with its timer if time > 0. */
    method Block(time: int)
      requires Valid() && kernel.current in kernel.stat && kernel.stat[kernel.current].Running?
      modifies kernel, kernel.lists
      ensures Valid() && kernel.current == old(kernel.current) && kernel.error == old(kernel.error)
      ensures kernel.prio == old(kernel.prio) && kernel.current in kernel.prio
      ensures kernel.stat == old(kernel.stat)[kernel.current := Suspended]
      ensures kernel.current in kernel.armed <==> time > 0
      ensures OnlyWait(old(kernel.lists.contents), kernel.lists.contents, list)
      ensures Wait(list) in old(kernel.lists.contents)
      ensures var s := old(Waiters()); var t := kernel.current;
              Waiters() == InsertAt(s, Place(s, kernel.prio, kernel.prio[t], order), t)
    {
      hide Kernel.Valid, OnlyWait, Drop, Slot;
      kernel.Known();
      var t := kernel.current;
      kernel.ListSuspend(list, t, order);
      if time > 0 {
        kernel.StartTimer(t);
      }
    }

    /** The same with the newest waiter first. */
    method BlockFront(time: int)
      requires Valid() && kernel.current in kernel.stat && kernel.stat[kernel.current].Running?
      modifies kernel, kernel.lists
      ensures Valid() && kernel.current == old(kernel.current) && kernel.error == old(kernel.error)
      ensures kernel.stat == old(kernel.stat)[kernel.current := Suspended]
      ensures kernel.current in kernel.armed <==> time > 0
      ensures OnlyWait(old(kernel.lists.contents), kernel.lists.contents, list)
      ensures Wait(list) in old(kernel.lists.contents)
      ensures Waiters() == [kernel.current] + old(Waiters())
    {
      hide Kernel.Valid, OnlyWait, Drop;
      kernel.Known();
      var t := kernel.current;
      kernel.SuspendFront(list, t);
      if time > 0 {
        kernel.StartTimer(t);
      }
    }

    /** rt_ipc_list_resume */
    method WakeFirst() returns (t: Thread)
      requires Valid() && Waiters() != []
      modifies kernel, kernel.lists
      ensures Valid() && kernel.current == old(kernel.current) && kernel.error == old(kernel.error)
      ensures Wait(list) in old(kernel.lists.contents)
      ensures t == old(Waiters())[0] && Waiters() == old(Waiters())[1..] && t in kernel.threads
      ensures t in old(kernel.stat) && old(kernel.stat[t]).Suspended?
      ensures kernel.stat == old(kernel.stat)[t := if t == kernel.current then Running else Ready]
      ensures OnlyWait(old(kernel.lists.contents), kernel.lists.contents, list)
    {
      hide Kernel.Valid, FirstWoken, OnlyWait, Woken;
      kernel.Known();
      ghost var c := kernel.lists.contents;
      t := kernel.ListResume(list);
      FirstOnly(c, kernel.lists.contents, t);
    }

    lemma FirstOnly(c: Queues, c': Queues, t: Thread)
      requires FirstWoken(c, c', list, t, kernel.prio, kernel.current)
      ensures Wait(list) in c && Wait(list) in c' && c[Wait(list)] != []
      ensures c'[Wait(list)] == c[Wait(list)][1..] && OnlyWait(c, c', list)
    {
    }

    /** rt_thread_resume of a waiter, wherever it is in the list. */
    method Wake(t: Thread)
      requires Valid() && t in Waiters()
      modifies kernel, kernel.lists
      ensures Valid() && kernel.current == old(kernel.current) && kernel.error == old(kernel.error)
      ensures Wait(list) in old(kernel.lists.contents)
      ensures Waiters() == Without(old(Waiters()), t)
      ensures OnlyWait(old(kernel.lists.contents), kernel.lists.contents, list)
    {
      hide Kernel.Valid, OnlyWait, Woken, WaitsLose;
      kernel.Known();
      ghost var c := kernel.lists.contents;
      WokenWaits(c, kernel.prio, t, kernel.current);
      var ok := kernel.Resume(t);
      kernel.Known();
      LosesHere(c, kernel.lists.contents, t);
      LosesOnly(c, kernel.lists.contents, t);
    }

    /** Leaving this list is leaving the only suspend list one is on. */
    lemma LosesOnly(c: Queues, c': Queues, t: Thread)
      requires WaitsLose(c, c', t) && Wait(list) in c && t in c[Wait(list)] && Disjoint(c)
      ensures OnlyWait(c, c', list)
    {
    }

    /** rt_ipc_list_resume_all */
    method WakeAll()
      requires Valid()
      modifies kernel, kernel.lists
      ensures Valid() && kernel.current == old(kernel.current) && Waiters() == []
      ensures kernel.error.Keys == old(kernel.error).Keys && Wait(list) in old(kernel.lists.contents)
      ensures forall t :: t in kernel.error ==> kernel.error[t] == if t in old(Waiters()) then Error else old(kernel.error)[t]
      ensures OnlyWait(old(kernel.lists.contents), kernel.lists.contents, list)
    {
      hide Kernel.Valid, Drained, OnlyWait;
      ghost var c := kernel.lists.contents;
      kernel.ListResumeAll(list);
      DrainedOnly(c, kernel.lists.contents);
    }

    lemma DrainedOnly(c: Queues, c': Queues)
      requires Wait(list) in c && Drained(c, c', list, c[Wait(list)], |c[Wait(list)]|, kernel.prio, kernel.current)
      ensures OnlyWait(c, c', list)
    {
    }

    /** A thread's timer fires. */
    method Expire(t: Thread)
      requires Valid() && t in kernel.armed
      modifies kernel, kernel.lists
      ensures Valid() && kernel.error == old(kernel.error)[t := Timeout] && Wait(list) in old(kernel.lists.contents)
      ensures Waiters() == Without(old(Waiters()), t) && kernel.current == old(kernel.current)
      ensures WaitsLose(old(kernel.lists.contents), kernel.lists.contents, t)
    {
      hide Kernel.Valid, WaitsLose;
      ghost var c := kernel.lists.contents;
      kernel.Expire(t);
      LosesHere(c, kernel.lists.contents, t);
    }

    lemma LosesHere(c: Queues, c': Queues, t: Thread)
      requires WaitsLose(c, c', t) && Wait(list) in c
      ensures Wait(list) in c' && c'[Wait(list)] == Without(c[Wait(list)], t)
    {
    }
  }

  // ---- objects with two suspend lists ------------------------------------------------

  /** Two suspend lists of one system, for threads that wait at the two ends of an
      object. */
  ghost predicate Paired(a: WaitList, b: WaitList)
    reads a.kernel, a.kernel.lists, b.kernel, b.kernel.lists
  {
    a.kernel == b.kernel && a.list != b.list && a.Valid() && b.Valid()
  }

  /** Nothing but the waiters of list a has changed. */
  lemma OtherList(a: WaitList, b: WaitList, c: Queues, c': Queues)
    requires OnlyWait(c, c', a.list) && a.list != b.list && Wait(b.list) in c
    ensures Wait(b.list) in c' && c'[Wait(b.list)] == c[Wait(b.list)]
  {
  }

  /** Wake the first waiter of a, if there is one; w is who was woken. */
  method WakeOne(a: WaitList, ghost b: WaitList) returns (ghost w: set<Thread>)
    requires Paired(a, b)
    modifies a.kernel, a.kernel.lists
    ensures Paired(a, b) && a.kernel.current == old(a.kernel.current) && a.kernel.error == old(a.kernel.error)
    ensures Wait(a.list) in old(a.kernel.lists.contents) && Wait(b.list) in old(a.kernel.lists.contents)
    ensures b.Waiters() == old(b.Waiters())
    ensures forall woken :: Line(a.Waiters(), woken + w) == Granted(Line(old(a.Waiters()), woken))
  {
    hide Kernel.Valid, OnlyWait;
    ghost var c := a.kernel.lists.contents;
    w := {};
    var empty := a.IsEmpty();
    if !empty {
      var t := a.WakeFirst();
      w := {t};
      OtherList(a, b, c, a.kernel.lists.contents);
    }
  }

  /** Suspend the running thread on a. */
  method BlockOn(a: WaitList, ghost b: WaitList, time: int) returns (ghost j: nat)
    requires Paired(a, b) && a.kernel.current in a.kernel.stat && a.kernel.stat[a.kernel.current].Running?
    modifies a.kernel, a.kernel.lists
    ensures Paired(a, b) && a.kernel.current == old(a.kernel.current) && a.kernel.error == old(a.kernel.error)
    ensures a.kernel.current in a.kernel.prio
    ensures Wait(a.list) in old(a.kernel.lists.contents) && Wait(b.list) in old(a.kernel.lists.contents)
    ensures b.Waiters() == old(b.Waiters())
    ensures j == Place(old(a.Waiters()), a.kernel.prio, a.kernel.prio[a.kernel.current], a.order)
    ensures a.Waiters() == InsertAt(old(a.Waiters()), j, a.kernel.current)
    ensures a.kernel.stat == old(a.kernel.stat)[a.kernel.current := Suspended]
    ensures a.kernel.current in a.kernel.armed <==> time > 0
  {
    hide Kernel.Valid, OnlyWait, Place;
    a.Facts();
    ghost var c := a.kernel.lists.contents;
    j := Place(a.Waiters(), a.kernel.prio, a.kernel.prio[a.kernel.current], a.order);
    a.Block(time);
    OtherList(a, b, c, a.kernel.lists.contents);
  }

  /** Wake everybody on both lists with -RT_ERROR. */
  method WakeBoth(a: WaitList, b: WaitList)
    requires Paired(a, b)
    modifies a.kernel, a.kernel.lists
    ensures Paired(a, b) && a.kernel.current == old(a.kernel.current) && a.Waiters() == [] && b.Waiters() == []
    ensures Wait(a.list) in old(a.kernel.lists.contents) && Wait(b.list) in old(a.kernel.lists.contents)
    ensures a.kernel.error.Keys == old(a.kernel.error).Keys
    ensures forall t :: t in a.kernel.error ==>
              a.kernel.error[t] == (if t in old(a.Waiters()) || t in old(b.Waiters()) then Error else old(a.kernel.error)[t])
  {
    hide Kernel.Valid, OnlyWait;
    ghost var c := a.kernel.lists.contents;
    a.WakeAll();
    OtherList(a, b, c, a.kernel.lists.contents);
    ghost var c1 := a.kernel.lists.contents;
    b.WakeAll();
    OtherList(b, a, c1, a.kernel.lists.contents);
  }

  /** The timer of a thread on either list, or on neither, fires. */
  method ExpireEither(a: WaitList, ghost b: WaitList, t: Thread)
    requires Paired(a, b) && t in a.kernel.armed
    modifies a.kernel, a.kernel.lists
    ensures Paired(a, b) && a.kernel.error == old(a.kernel.error)[t := Timeout]
    ensures Wait(a.list) in old(a.kernel.lists.contents) && Wait(b.list) in old(a.kernel.lists.contents)
    ensures a.Waiters() == Without(old(a.Waiters()), t) && b.Waiters() == Without(old(b.Waiters()), t)
  {
    hide Kernel.Valid, WaitsLose;
    ghost var c := a.kernel.lists.contents;
    a.Expire(t);
    b.LosesHere(c, a.kernel.lists.contents, t);
  }
}
