/** The counting semaphore of ipc.c. */
module Semaphores {
  import opened Chains
  import opened Kernel
  import opened Lists
  import opened Rings
  import opened Waiting

  const UINT16: nat := 65536

  /** What a section is answered: a take at once or when it returns, the others Done. */
  datatype Outcome = Taken | TimedOut | Blocked | Returned(e: Err) | Done

  /** A semaphore with its history since the last reset (initial, released,
      granted) and, per thread, how many of its takes blocked, how each of those was
      ended and what it returned; woken threads have not got to returning yet. */
  datatype State = State(
    value: nat,
    waiters: seq<Thread>,
    error: map<Thread, Err>,
    initial: nat,
    released: nat,
    granted: nat,
    blocks: map<Thread, nat>,
    ends: map<Thread, seq<Err>>,
    woken: set<Thread>,
    results: map<Thread, seq<Err>>)

  // ---- the transitions -----------------------------------------------------------

  /** rt_sem_take by t up to the point where it may wait, at place j. */
  ghost function TakeStep(s: State, t: Thread, wait: bool, j: nat): (State, Outcome)
    requires t in s.blocks && j <= |s.waiters|
  {
    if s.value > 0 then (s.(value := s.value - 1, granted := s.granted + 1), Taken)
    else if !wait then (s, TimedOut)
    else
      (s.(waiters := InsertAt(s.waiters, j, t), error := s.error[t := Ok], blocks := s.blocks[t := s.blocks[t] + 1]), Blocked)
  }

  /** rt_sem_release: the first waiter gets the unit, or the value grows. */
  ghost function ReleaseStep(s: State): State
    requires forall t :: t in s.waiters ==> t in s.ends
  {
    if s.waiters != [] then
      var w := s.waiters[0];
      s.(waiters := s.waiters[1..], released := s.released + 1, granted := s.granted + 1,
         ends := s.ends[w := s.ends[w] + [Ok]], woken := s.woken + {w})
    else
      s.(value := (s.value + 1) % UINT16, released := s.released + 1)
  }

  /** The timer of waiter t fires. */
  ghost function ExpireStep(s: State, t: Thread): State
    requires t in s.ends
  {
    if t in s.waiters then
      s.(waiters := Without(s.waiters, t), error := s.error[t := Timeout], ends := s.ends[t := s.ends[t] + [Timeout]],
         woken := s.woken + {t})
    else s
  }

  ghost function Failed(error: map<Thread, Err>, waiters: seq<Thread>): map<Thread, Err> {
    map t | t in error :: if t in waiters then Error else error[t]
  }

  ghost function Ended(ends: map<Thread, seq<Err>>, waiters: seq<Thread>): map<Thread, seq<Err>> {
    map t | t in ends :: if t in waiters then ends[t] + [Error] else ends[t]
  }

  /** rt_sem_control with RT_IPC_CMD_RESET. */
  ghost function ResetStep(s: State, v: nat): State {
    State(v % UINT16, [],
          Failed(s.error, s.waiters), v % UINT16, 0, 0, s.blocks, Ended(s.ends, s.waiters),
          s.woken + Members(s.waiters), s.results)
  }

  /** rt_sem_take by t behind its rt_schedule: it returns what its error says. */
  ghost function FinishStep(s: State, t: Thread): State
    requires t in s.error && t in s.results
  {
    s.(woken := s.woken - {t}, results := s.results[t := s.results[t] + [s.error[t]]])
  }

  /** Some other object, or the thread itself elsewhere, writes thread->error. */
  ghost function OtherStep(s: State, t: Thread, e: Err): State {
    s.(error := s.error[t := e])
  }

  // ---- the invariant ----------------------------------------------------------------

  /** Units are neither made nor lost, and nobody waits beside a free unit. */
  ghost predicate Conserved(s: State) {
    && s.value < UINT16
    && s.initial + s.released == s.value + s.granted
    && (s.value > 0 ==> s.waiters == [])
  }

  /** Every blocked take is still waiting or was ended exactly once, and it returns, or
      will return, the code of that end. */
  ghost predicate EndsOnce(s: State, t: Thread) {
    && t in s.blocks && t in s.ends && t in s.error && t in s.results
    && s.blocks[t] == |s.ends[t]| + (if t in s.waiters then 1 else 0)
    && (t in s.waiters ==> s.error[t] == Ok && t !in s.woken)
    && s.ends[t] == s.results[t] + (if t in s.woken then [s.error[t]] else [])
    && (forall i :: 0 <= i < |s.ends[t]| ==> s.ends[t][i] in {Ok, Timeout, Error})
  }

  ghost predicate Accounted(s: State) {
    && Distinct(s.waiters)
    && s.blocks.Keys == s.ends.Keys == s.error.Keys == s.results.Keys
    && (forall t :: t in s.waiters ==> t in s.ends)
    && (forall t :: t in s.ends ==> EndsOnce(s, t))
  }

  ghost predicate Inv(s: State) {
    Conserved(s) && Accounted(s)
  }

  ghost function Initial(v: nat, threads: set<Thread>): State {
    State(v, [], map t | t in threads :: Ok, v, 0, 0, map t | t in threads :: 0, map t | t in threads :: [],
          {}, map t | t in threads :: [])
  }

  lemma InitialInv(v: nat, threads: set<Thread>)
    requires v < UINT16
    ensures Inv(Initial(v, threads))
  {
  }

  lemma TakeKeeps(s: State, t: Thread, wait: bool, j: nat)
    requires Inv(s) && t in s.blocks && (wait ==> t !in s.waiters && t !in s.woken) && j <= |s.waiters|
    ensures Inv(TakeStep(s, t, wait, j).0)
  {
    var s' := TakeStep(s, t, wait, j).0;
    if wait {
      DistinctInsert(s.waiters, j, t);
      InsertMembers(s.waiters, j, t);
    }
    forall x | x in s'.ends ensures EndsOnce(s', x) { assert EndsOnce(s, x); }
  }

  lemma FirstLeaves(s: seq<Thread>)
    requires Distinct(s) && s != []
    ensures Distinct(s[1..]) && forall t :: t in s[1..] <==> t in s && t != s[0]
  {
    DistinctRemove(s, 0);
    RemoveMembers(s, 0);
    assert RemoveAt(s, 0) == s[1..];
  }

  lemma ReleaseAccounts(s: State)
    requires Accounted(s)
    ensures Accounted(ReleaseStep(s))
  {
    var s' := ReleaseStep(s);
    if s.waiters != [] { FirstLeaves(s.waiters); }
    forall x | x in s'.ends ensures EndsOnce(s', x) { assert EndsOnce(s, x); }
  }

  /** A release keeps the count exactly when it does not wrap a value of 65535. */
  lemma ReleaseKeeps(s: State)
    requires Inv(s)
    ensures Inv(ReleaseStep(s)) <==> s.waiters != [] || s.value + 1 < UINT16
  {
    ReleaseAccounts(s);
  }

  lemma ExpireKeeps(s: State, t: Thread)
    requires Inv(s) && t in s.ends
    ensures Inv(ExpireStep(s, t))
  {
    var s' := ExpireStep(s, t);
    WithoutMembers(s.waiters, t);
    forall x | x in s'.ends ensures EndsOnce(s', x) { assert EndsOnce(s, x); }
  }

  lemma ResetKeeps(s: State, v: nat)
    requires Inv(s)
    ensures Inv(ResetStep(s, v))
  {
    var s' := ResetStep(s, v);
    forall x | x in s'.ends ensures EndsOnce(s', x) { assert EndsOnce(s, x); }
  }

  lemma FinishKeeps(s: State, t: Thread)
    requires Inv(s) && t in s.woken && t in s.results
    ensures Inv(FinishStep(s, t))
  {
    var s' := FinishStep(s, t);
    forall x | x in s'.ends ensures EndsOnce(s', x) { assert EndsOnce(s, x); }
  }

  lemma OtherKeeps(s: State, t: Thread, e: Err)
    requires Inv(s) && t in s.error && t !in s.waiters && t !in s.woken
    ensures Inv(OtherStep(s, t, e))
  {
    var s' := OtherStep(s, t, e);
    forall x | x in s'.ends ensures EndsOnce(s', x) { assert EndsOnce(s, x); }
  }

  // ---- whole runs ----------------------------------------------------------------------

  datatype Event =
    | Take(t: Thread, wait: bool, j: nat)
    | Release
    | Expire(t: Thread)
    | Reset(v: nat)
    | Finish(t: Thread)
    | Other(t: Thread, e: Err)

  ghost predicate Allowed(s: State, e: Event) {
    match e
    case Take(t, wait, j) => t in s.blocks && (wait ==> t !in s.waiters && t !in s.woken) && j <= |s.waiters|
    case Release => (forall t :: t in s.waiters ==> t in s.ends) && (s.waiters != [] || s.value + 1 < UINT16)
    case Expire(t) => t in s.ends
    case Reset(_) => true
    case Finish(t) => t in s.woken && t in s.error && t in s.results
    case Other(t, _) => t in s.error && t !in s.waiters && t !in s.woken
  }

  ghost function Apply(s: State, e: Event): State
    requires Allowed(s, e)
  {
    match e
    case Take(t, wait, j) => TakeStep(s, t, wait, j).0
    case Release => ReleaseStep(s)
    case Expire(t) => ExpireStep(s, t)
    case Reset(v) => ResetStep(s, v)
    case Finish(t) => FinishStep(s, t)
    case Other(t, e) => OtherStep(s, t, e)
  }

  ghost function Answer(s: State, e: Event): Outcome
    requires Allowed(s, e)
  {
    match e
    case Take(t, wait, j) => TakeStep(s, t, wait, j).1
    case Finish(t) => Returned(s.error[t])
    case _ => Done
  }

  /** The events es, answered with rs, lead from s to s'. */
  ghost predicate Run(s: State, es: seq<Event>, rs: seq<Outcome>, s': State)
    decreases |es|
  {
    if es == [] then rs == [] && s' == s
    else rs != [] && Allowed(s, es[0]) && rs[0] == Answer(s, es[0]) && Run(Apply(s, es[0]), es[1..], rs[1..], s')
  }

  lemma StepKeeps(s: State, e: Event)
    requires Inv(s) && Allowed(s, e)
    ensures Inv(Apply(s, e))
  {
    hide Inv;
    match e {
      case Take(t, wait, j) => TakeKeeps(s, t, wait, j);
      case Release => ReleaseKeeps(s);
      case Expire(t) => ExpireKeeps(s, t);
      case Reset(v) => ResetKeeps(s, v);
      case Finish(t) => FinishKeeps(s, t);
      case Other(t, x) => OtherKeeps(s, t, x);
    }
  }

  lemma {:induction false} RunKeeps(s: State, es: seq<Event>, rs: seq<Outcome>, s': State)
    requires Inv(s) && Run(s, es, rs, s')
    ensures Inv(s') && |rs| == |es|
    decreases |es|
  {
    if es != [] {
      StepKeeps(s, es[0]);
      RunKeeps(Apply(s, es[0]), es[1..], rs[1..], s');
    }
  }

  lemma {:induction false} RunThreads(s: State, es: seq<Event>, rs: seq<Outcome>, s': State)
    requires Run(s, es, rs, s')
    ensures s'.ends.Keys == s.ends.Keys
    decreases |es|
  {
    if es != [] {
      RunThreads(Apply(s, es[0]), es[1..], rs[1..], s');
    }
  }

  // ---- the same, counted from the calls and their answers alone -------------------------

  /** The units there are, who waits for one, how many were released and how many were
      granted, at once or by a release that found somebody waiting. */
  datatype Ledger = Ledger(initial: nat, value: int, line: seq<Thread>, released: nat, granted: nat)

  ghost function Booked(l: Ledger, e: Event, r: Outcome): Ledger {
    match e
    case Take(t, _, j) =>
      if r == Taken then l.(value := l.value - 1, granted := l.granted + 1)
      else if r == Blocked && j <= |l.line| then l.(line := InsertAt(l.line, j, t))
      else l
    case Release =>
      if l.line != [] then l.(line := l.line[1..], released := l.released + 1, granted := l.granted + 1)
      else l.(value := l.value + 1, released := l.released + 1)
    case Expire(t) => l.(line := Without(l.line, t))
    case Reset(v) => Ledger(v % UINT16, v % UINT16, [], 0, 0)
    case _ => l
  }

  ghost function Account(es: seq<Event>, rs: seq<Outcome>, l: Ledger): Ledger
    requires |es| == |rs|
  {
    if es == [] then l else Account(es[1..], rs[1..], Booked(l, es[0], rs[0]))
  }

  /** The codes t's blocked takes have returned. */
  ghost function Returns(es: seq<Event>, rs: seq<Outcome>, t: Thread, acc: seq<Err>): seq<Err>
    requires |es| == |rs|
  {
    if es == [] then acc
    else Returns(es[1..], rs[1..], t, if es[0] == Finish(t) && rs[0].Returned? then acc + [rs[0].e] else acc)
  }

  ghost function Books(s: State): Ledger {
    Ledger(s.initial, s.value, s.waiters, s.released, s.granted)
  }

  lemma {:induction false} RunBooks(s: State, es: seq<Event>, rs: seq<Outcome>, s': State)
    requires Inv(s) && Run(s, es, rs, s')
    ensures |rs| == |es| && Books(s') == Account(es, rs, Books(s))
    ensures forall t :: t in s.results ==> t in s'.results && s'.results[t] == Returns(es, rs, t, s.results[t])
    decreases |es|
  {
    hide Inv, Apply, Answer, Allowed, Booked, Books;
    RunKeeps(s, es, rs, s');
    if es != [] {
      StepKeeps(s, es[0]);
      BookStep(s, es[0]);
      RunBooks(Apply(s, es[0]), es[1..], rs[1..], s');
    }
  }

  lemma BookStep(s: State, e: Event)
    requires Inv(s) && Allowed(s, e)
    ensures Books(Apply(s, e)) == Booked(Books(s), e, Answer(s, e))
    ensures forall t :: t in s.results ==>
              && t in Apply(s, e).results
              && if e == Finish(t) then Answer(s, e).Returned? && Apply(s, e).results[t] == s.results[t] + [Answer(s, e).e]
                 else Apply(s, e).results[t] == s.results[t]
  {
    hide EndsOnce, InsertAt, Ended, Failed;
  }

  /** How many takes of t were answered with a wait. */
  ghost function Waits(es: seq<Event>, rs: seq<Outcome>, t: Thread): nat
    requires |es| == |rs|
  {
    if es == [] then 0 else (if es[0].Take? && es[0].t == t && rs[0] == Blocked then 1 else 0) + Waits(es[1..], rs[1..], t)
  }

  /** How the waits of t were ended: by a release that found it first, by its timeout, by
      a reset. */
  ghost function Endings(es: seq<Event>, rs: seq<Outcome>, l: Ledger, t: Thread, acc: seq<Err>): seq<Err>
    requires |es| == |rs|
  {
    if es == [] then acc else Endings(es[1..], rs[1..], Booked(l, es[0], rs[0]), t, acc + Ending(l, es[0], t))
  }

  ghost function Ending(l: Ledger, e: Event, t: Thread): seq<Err> {
    if t !in l.line then []
    else
      match e
      case Release => if t == l.line[0] then [Ok] else []
      case Expire(x) => if t == x then [Timeout] else []
      case Reset(_) => [Error]
      case _ => []
  }

  lemma {:induction false} RunEnds(s: State, es: seq<Event>, rs: seq<Outcome>, s': State, t: Thread)
    requires Inv(s) && Run(s, es, rs, s') && t in s.ends && t in s.blocks
    ensures |rs| == |es| && t in s'.ends && t in s'.blocks
    ensures s'.ends[t] == Endings(es, rs, Books(s), t, s.ends[t])
    ensures s'.blocks[t] == s.blocks[t] + Waits(es, rs, t)
    decreases |es|
  {
    hide Inv, Apply, Answer, Allowed, Booked, Books, Ending;
    RunKeeps(s, es, rs, s');
    if es != [] {
      StepKeeps(s, es[0]);
      BookStep(s, es[0]);
      EndStep(s, es[0], t);
      RunEnds(Apply(s, es[0]), es[1..], rs[1..], s', t);
    }
  }

  lemma EndStep(s: State, e: Event, t: Thread)
    requires Inv(s) && Allowed(s, e) && t in s.ends && t in s.blocks
    ensures var u := Apply(s, e);
            && t in u.ends && t in u.blocks
            && u.ends[t] == s.ends[t] + Ending(Books(s), e, t)
            && u.blocks[t] == s.blocks[t] + if e.Take? && e.t == t && Answer(s, e) == Blocked then 1 else 0
  {
    hide EndsOnce, InsertAt, Failed;
    if s.waiters != [] { assert s.waiters[0] in s.waiters; }
  }

  /** From initialisation on, in any interleaving: the initial value plus the
      releases is the value plus the granted takes; a positive value means nobody
      waits; and every take that blocked was ended once, and the codes returned are
      those of the ends, whatever else writes the errors of threads meanwhile. */
  lemma EveryRun(v: nat, threads: set<Thread>, es: seq<Event>, rs: seq<Outcome>, s: State)
    requires v < UINT16 && Run(Initial(v, threads), es, rs, s)
    ensures s.initial + s.released == s.value + s.granted && (s.value > 0 ==> s.waiters == []) && |rs| == |es|
    ensures forall t :: t in threads ==>
              && t in s.results && t in s.ends && t in s.blocks && s.results[t] <= s.ends[t]
              && s.blocks[t] == |s.results[t]| + (if t in s.waiters || t in s.woken then 1 else 0)
              && s.results[t] == Returns(es, rs, t, []) && s.blocks[t] == Waits(es, rs, t)
              && s.ends[t] == Endings(es, rs, Ledger(v, v, [], 0, 0), t, [])
  {
    InitialInv(v, threads);
    RunKeeps(Initial(v, threads), es, rs, s);
    RunThreads(Initial(v, threads), es, rs, s);
    RunBooks(Initial(v, threads), es, rs, s);
    forall t | t in threads
      ensures EndsOnce(s, t) && s.blocks[t] == Waits(es, rs, t)
      ensures s.ends[t] == Endings(es, rs, Ledger(v, v, [], 0, 0), t, [])
    {
      RunEnds(Initial(v, threads), es, rs, s, t);
    }
  }

  /** So they decide the next answer: a take is granted exactly while units released or
      there from the start have not been granted, and every unit is either granted or
      there. */
  lemma NextAnswer(v: nat, threads: set<Thread>, es: seq<Event>, rs: seq<Outcome>, s: State, e: Event)
    requires v < UINT16 && Run(Initial(v, threads), es, rs, s) && Allowed(s, e)
    ensures |rs| == |es|
    ensures var l := Account(es, rs, Ledger(v, v, [], 0, 0));
            && l.initial + l.released == l.value + l.granted && (l.value > 0 ==> l.line == [])
            && (e.Take? ==> Answer(s, e) == if l.value > 0 then Taken else if e.wait then Blocked else TimedOut)
  {
    InitialInv(v, threads);
    RunBooks(Initial(v, threads), es, rs, s);
    RunKeeps(Initial(v, threads), es, rs, s);
  }

  /** How a waiting thread's take ends: by the release that finds it first, by its
      own timeout, by a reset; nothing else moves it or its error. */
  lemma EndOfWait(s: State, e: Event, t: Thread)
    requires Inv(s) && Allowed(s, e) && t in s.waiters
    ensures var s' := Apply(s, e);
            && (t in s'.waiters <==> !(e == Release && t == s.waiters[0]) && e != Expire(t) && !e.Reset?)
            && (t in s'.waiters ==> s'.error[t] == s.error[t])
            && (t !in s'.waiters ==> t in s'.woken)
            && (e == Release && t == s.waiters[0] ==> s'.error[t] == Ok && s'.granted == s.granted + 1)
            && (e == Expire(t) ==> s'.error[t] == Timeout && s'.granted == s.granted)
            && (e.Reset? ==> s'.error[t] == Error)
  {
    if s.waiters != [] { FirstLeaves(s.waiters); }
    if e.Take? { InsertMembers(s.waiters, e.j, e.t); }
    if e.Expire? { WithoutMembers(s.waiters, e.t); }
    assert EndsOnce(s, t);
  }

  // ---- the C functions --------------------------------------------------------------------

  class Semaphore {
    const queue: WaitList
    var value: nat
    ghost var initial: nat
    ghost var released: nat
    ghost var granted: nat
    ghost var blocks: map<Thread, nat>
    ghost var ends: map<Thread, seq<Err>>
    ghost var woken: set<Thread>
    ghost var results: map<Thread, seq<Err>>

    ghost predicate Valid()
      reads this, queue, queue.kernel, queue.kernel.lists
    {
      && queue.Valid() && value < UINT16
      && blocks.Keys == ends.Keys == results.Keys == queue.kernel.threads && woken <= queue.kernel.threads
    }

    ghost function Abs(): State
      requires Wait(queue.list) in queue.kernel.lists.contents
      reads this, queue, queue.kernel, queue.kernel.lists
    {
      State(value, queue.Waiters(), queue.kernel.error, initial, released, granted, blocks, ends, woken, results)
    }

    /** rt_sem_init on an empty suspend list. */
    constructor (list: WaitList, v: nat)
      requires list.Valid() && list.Waiters() == [] && v < UINT16
      ensures Valid() && queue == list && Inv(Abs()) && value == v && released == granted == 0
      ensures blocks == map t | t in list.kernel.threads :: 0
      ensures ends == results == map t | t in list.kernel.threads :: []
    {
      hide Kernel.Valid;
      list.Facts();
      queue := list;
      value, initial, released, granted := v, v, 0, 0;
      blocks := map t | t in list.kernel.threads :: 0;
      ends := map t | t in list.kernel.threads :: [];
      woken, results := {}, map t | t in list.kernel.threads :: [];
    }

    /** The locked section of rt_sem_take by the running thread. */
    method Take(time: int) returns (r: Outcome, ghost j: nat)
      requires Valid()
      requires time != 0 ==> queue.kernel.current in queue.kernel.stat && queue.kernel.stat[queue.kernel.current].Running?
      modifies this, queue.kernel, queue.kernel.lists
      ensures Valid() && queue.kernel.current == old(queue.kernel.current) && queue.kernel.current in old(blocks)
      ensures Wait(queue.list) in old(queue.kernel.lists.contents) && j <= |old(queue.Waiters())|
      ensures (Abs(), r) == TakeStep(old(Abs()), queue.kernel.current, time != 0, j)
      ensures r == Blocked ==> queue.kernel.current in queue.kernel.prio
      ensures r == Blocked ==>
                j == Place(old(queue.Waiters()), queue.kernel.prio, queue.kernel.prio[queue.kernel.current], queue.order)
      ensures r == Blocked ==> (queue.kernel.current in queue.kernel.armed <==> time > 0)
    {
      hide Kernel.Valid, Place, OnlyWait;
      queue.Facts();
      r, j := Taken, 0;
      if value > 0 {
        value := value - 1;
        granted := granted + 1;
        return;
      }
      if time == 0 {
        r := TimedOut;
        return;
      }
      r := Blocked;
      var t := queue.kernel.current;
      j := Place(queue.Waiters(), queue.kernel.prio, queue.kernel.prio[t], queue.order);
      queue.kernel.SetError(t, Ok);
      queue.Block(time);
      blocks := blocks[t := blocks[t] + 1];
    }

    /** The locked section of rt_sem_release. */
    method Release()
      requires Valid()
      modifies this, queue.kernel, queue.kernel.lists
      ensures Valid() && Wait(queue.list) in old(queue.kernel.lists.contents)
      ensures forall t :: t in old(queue.Waiters()) ==> t in old(ends)
      ensures Abs() == ReleaseStep(old(Abs()))
    {
      hide Kernel.Valid, OnlyWait, WaitsLose;
      queue.Facts();
      var empty := queue.IsEmpty();
      released := released + 1;
      if empty {
        value := (value + 1) % UINT16;
        return;
      }
      assert queue.Waiters()[0] in queue.Waiters();
      var w := queue.WakeFirst();
      granted := granted + 1;
      ends := ends[w := ends[w] + [Ok]];
      woken := woken + {w};
    }

    /** A waiter's timeout, seen from the semaphore. */
    method Expire(t: Thread)
      requires Valid() && t in queue.kernel.armed && t in queue.Waiters()
      modifies this, queue.kernel, queue.kernel.lists
      ensures Valid() && t in old(ends) && Wait(queue.list) in old(queue.kernel.lists.contents)
      ensures Abs() == ExpireStep(old(Abs()), t)
    {
      hide Kernel.Valid, OnlyWait, WaitsLose;
      queue.Facts();
      queue.Expire(t);
      ends := ends[t := ends[t] + [Timeout]];
      woken := woken + {t};
    }

    /** rt_sem_take behind its rt_schedule: the running thread returns its error. */
    method Finish() returns (r: Err)
      requires Valid() && queue.kernel.current in woken
      modifies `woken, `results
      ensures Valid() && queue.kernel.current in old(results) && queue.kernel.current in queue.kernel.error
      ensures Wait(queue.list) in old(queue.kernel.lists.contents)
      ensures Abs() == FinishStep(old(Abs()), queue.kernel.current) && r == queue.kernel.error[queue.kernel.current]
    {
      hide Kernel.Valid, OnlyWait, WaitsLose;
      queue.Facts();
      var t := queue.kernel.current;
      r := queue.kernel.error[t];
      woken := woken - {t};
      results := results[t := results[t] + [r]];
    }

    lemma EndedKeys(waiters: seq<Thread>)
      requires Valid() && waiters == queue.Waiters()
      ensures Ended(ends, waiters).Keys == ends.Keys && Members(waiters) <= queue.kernel.threads
    {
      queue.Facts();
    }

    static lemma FailedIs(error0: map<Thread, Err>, waiters: seq<Thread>, error: map<Thread, Err>)
      requires error.Keys == error0.Keys
      requires forall t :: t in error ==> error[t] == if t in waiters then Error else error0[t]
      ensures error == Failed(error0, waiters)
    {
    }

    /** rt_sem_control, RT_IPC_CMD_RESET, up to its rt_schedule. */
    method Reset(v: nat)
      requires Valid()
      modifies this, queue.kernel, queue.kernel.lists
      ensures Valid() && Wait(queue.list) in old(queue.kernel.lists.contents)
      ensures Abs() == ResetStep(old(Abs()), v)
    {
      hide Kernel.Valid, OnlyWait, WaitsLose, Ended, Failed, Members;
      EndedKeys(queue.Waiters());
      ends := Ended(ends, queue.Waiters());
      woken := woken + Members(queue.Waiters());
      ghost var waiters, error := queue.Waiters(), queue.kernel.error;
      queue.WakeAll();
      FailedIs(error, waiters, queue.kernel.error);
      value := v % UINT16;
      initial, released, granted := v % UINT16, 0, 0;
    }
  }
}
