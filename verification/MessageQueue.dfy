/** The message queue of ipc.c. */
module MessageQueues {
  // A cell leaves the free chain in one section, is filled or read with interrupts enabled,
  // and is linked or given back in another; in between it is in flight.

  import opened Chains
  import opened Kernel
  import opened Lists
  import opened Rings
  import opened Waiting

  const UINT16: nat := 65536

  type Cell = nat
  type Msg = seq<bv8>

  /** What the thread that took a cell is doing with it: filling it (for an urgent
      message, or before its link is cleared), ready to link it at the tail,
      reading it. */
  datatype Role = Filling | Cleared | Reading

  /** What a section ends with; those that cannot fail with Done. */
  datatype Outcome = Got(c: Cell) | Refused | Blocked | Done

  datatype State = State(
    cells: set<Cell>,
    queue: seq<Cell>,
    free: seq<Cell>,
    flight: map<Cell, Role>,
    data: map<Cell, Msg>,
    recv: Line,
    send: Line,
    log: Log)

  /** A message when it was linked: at the head or the tail, and how many had been
      received by then. */
  datatype Sent = Sent(m: Msg, front: bool, before: nat)

  /** What happened since the last reset: the messages linked, numbered from 0, the
      numbers of those received, in that order, with what was received, and the numbers
      of those in the queue. */
  datatype Log = Log(linked: seq<Sent>, taken: seq<nat>, received: seq<Msg>, marks: seq<nat>)

  const NOTHING := Log([], [], [], [])

  // ---- the transitions ------------------------------------------------------------

  /** A pass through the loop of rt_mq_send_wait by thread t. */
  ghost function AcquireStep(s: State, t: Thread, wait: bool, j: nat): (State, Outcome)
    requires j <= |s.send.waiters|
  {
    if s.free != [] then
      (s.(free := s.free[1..], flight := s.flight[s.free[0] := Filling], send := Ran(s.send, t)), Got(s.free[0]))
    else if wait then (s.(send := Joined(s.send, j, t)), Blocked)
    else (s.(send := Ran(s.send, t)), Refused)
  }

  ghost function FillStep(s: State, c: Cell, m: Msg): State {
    s.(data := s.data[c := m])
  }

  ghost function ClearStep(s: State, c: Cell): State {
    s.(flight := s.flight[c := Cleared])
  }

  /** The second section of a send: at the tail, or at the head for an urgent one. */
  ghost function LinkStep(s: State, c: Cell, front: bool): State
    requires c in s.data
  {
    s.(queue := if front then [c] + s.queue else s.queue + [c], flight := s.flight - {c},
       recv := Granted(s.recv), log := LogLink(s.log, s.data[c], front))
  }

  ghost function LogLink(g: Log, m: Msg, front: bool): Log {
    var n := |g.linked|;
    g.(linked := g.linked + [Sent(m, front, |g.taken|)], marks := if front then [n] + g.marks else g.marks + [n])
  }

  ghost function LogTake(g: Log, m: Msg): Log
    requires g.marks != []
  {
    g.(taken := g.taken + [g.marks[0]], received := g.received + [m], marks := g.marks[1..])
  }

  /** A pass through the loop of rt_mq_recv by thread t. */
  ghost function TakeStep(s: State, t: Thread, wait: bool, j: nat): (State, Outcome)
    requires j <= |s.recv.waiters| && |s.log.marks| == |s.queue| && forall c :: c in s.queue ==> c in s.data
  {
    if s.queue != [] then
      var c := s.queue[0];
      assert c in s.queue;
      (s.(queue := s.queue[1..], flight := s.flight[c := Reading], recv := Ran(s.recv, t), log := LogTake(s.log, s.data[c])),
       Got(c))
    else if wait then (s.(recv := Joined(s.recv, j, t)), Blocked)
    else (s.(recv := Ran(s.recv, t)), Refused)
  }

  /** The second section of a receive. */
  ghost function ReturnStep(s: State, c: Cell): State {
    s.(free := [c] + s.free, flight := s.flight - {c}, send := Granted(s.send))
  }

  ghost function ExpireStep(s: State, t: Thread): State {
    s.(recv := Left(s.recv, t), send := Left(s.send, t))
  }

  ghost function Reversed<T>(s: seq<T>): seq<T> {
    if s == [] then [] else Reversed(s[1..]) + [s[0]]
  }

  /** RT_IPC_CMD_RESET: the queued cells go to the free chain one by one. */
  ghost function ResetStep(s: State): State {
    s.(queue := [], free := Reversed(s.queue) + s.free, recv := Flushed(s.recv), send := Flushed(s.send),
       log := NOTHING)
  }

  // ---- the invariant -----------------------------------------------------------------

  /** Every cell is in the queue, free or in flight, and in one place only. */
  ghost predicate Partition(s: State) {
    && Distinct(s.queue) && Distinct(s.free)
    && (forall c :: c in s.cells <==> c in s.queue || c in s.free || c in s.flight)
    && (forall c :: c in s.queue ==> c !in s.free && c !in s.flight)
    && (forall c :: c in s.free ==> c !in s.flight)
    && s.data.Keys == s.cells
  }

  /** The numbers in the order the messages are received, past and to come. */
  ghost function Order(g: Log): seq<nat> {
    g.taken + g.marks
  }

  /** Of two messages the earlier linked one is received first, unless the later one was
      urgent and the earlier one still queued. */
  ghost predicate InTurn(g: Log, o: seq<nat>, i: nat, j: nat)
    requires i < |o| && j < |o| && o[j] < |g.linked|
  {
    i < j <==> !g.linked[o[j]].front || i < g.linked[o[j]].before
  }

  /** The messages at these numbers that were not urgent. */
  ghost function Ordinary(linked: seq<Sent>, o: seq<nat>): seq<Msg> {
    if o == [] then []
    else
      var n := o[|o| - 1];
      Ordinary(linked, o[..|o| - 1]) + if n < |linked| && !linked[n].front then [linked[n].m] else []
  }

  ghost function Upto(n: nat): seq<nat> {
    seq(n, i => i)
  }

  /** Every message linked is received once or in the queue once, the order is the
      promised one, and ordinary messages keep theirs. */
  ghost predicate Orderly(g: Log) {
    && |Order(g)| == |g.linked| && Distinct(Order(g)) && |g.received| == |g.taken|
    && (forall i :: 0 <= i < |Order(g)| ==> Order(g)[i] < |g.linked|)
    && (forall n :: 0 <= n < |g.linked| ==> g.linked[n].before <= |g.taken|)
    && (forall i: nat, j: nat :: i < |Order(g)| && j < |Order(g)| && Order(g)[i] < Order(g)[j] ==> InTurn(g, Order(g), i, j))
    && Ordinary(g.linked, Order(g)) == Ordinary(g.linked, Upto(|g.linked|))
  }

  /** What was received, and what the queue holds, are the messages of those numbers. */
  ghost predicate Delivers(s: State) {
    && Orderly(s.log) && |s.log.marks| == |s.queue|
    && (forall i :: 0 <= i < |s.log.taken| ==> ReceivedAs(s.log, i))
    && (forall i :: 0 <= i < |s.queue| ==> QueuedAs(s, i))
  }

  ghost predicate ReceivedAs(g: Log, i: nat) {
    i < |g.taken| && i < |g.received| && g.taken[i] < |g.linked| && g.received[i] == g.linked[g.taken[i]].m
  }

  ghost predicate QueuedAs(s: State, i: nat) {
    && i < |s.queue| && i < |s.log.marks| && s.log.marks[i] < |s.log.linked|
    && s.queue[i] in s.data && s.data[s.queue[i]] == s.log.linked[s.log.marks[i]].m
  }

  ghost predicate Inv(s: State) {
    Partition(s) && Delivers(s) && NoLostWakeup(s.recv, |s.queue|) && NoLostWakeup(s.send, |s.free|)
  }

  ghost function Initial(data: map<Cell, Msg>, free: seq<Cell>): State {
    State(data.Keys, [], free, map[], data, Line([], {}), Line([], {}), NOTHING)
  }

  lemma InitialInv(data: map<Cell, Msg>, free: seq<Cell>)
    requires Distinct(free) && forall c :: c in data <==> c in free
    ensures Inv(Initial(data, free))
  {
    NothingOrderly();
  }

  lemma NothingOrderly()
    ensures Orderly(NOTHING)
  {
    assert Order(NOTHING) == [] && Upto(0) == [];
  }

  lemma DeliversStill(s: State, s': State)
    requires Delivers(s) && s'.queue == s.queue && s'.log == s.log
    requires forall i :: 0 <= i < |s.queue| ==> s.queue[i] in s.data ==> s.queue[i] in s'.data && s'.data[s.queue[i]] == s.data[s.queue[i]]
    ensures Delivers(s')
  {
    hide Orderly;
    forall i | 0 <= i < |s.queue| ensures QueuedAs(s', i) { assert QueuedAs(s, i); }
  }

  lemma AcquireKeeps(s: State, t: Thread, wait: bool, j: nat)
    requires Inv(s) && j <= |s.send.waiters| && (wait ==> t !in s.send.waiters)
    ensures Inv(AcquireStep(s, t, wait, j).0)
  {
    hide Delivers, Partition, NoLostWakeup, Ran, Joined;
    DeliversStill(s, AcquireStep(s, t, wait, j).0);
    AcquirePartition(s, t, wait, j);
    if s.free != [] {
      TookKeeps(s.send, |s.free|, t);
    } else if wait {
      JoinedKeeps(s.send, j, t);
    } else {
      GaveUpKeeps(s.send, t);
    }
  }

  lemma AcquirePartition(s: State, t: Thread, wait: bool, j: nat)
    requires Partition(s) && j <= |s.send.waiters|
    ensures Partition(AcquireStep(s, t, wait, j).0)
  {
    hide Ran, Joined;
    if s.free != [] {
      DistinctHead(s.free);
      assert s.free[0] in s.free;
    }
  }

  /** Filling a cell in flight changes no queued message. */
  lemma FillKeeps(s: State, c: Cell, m: Msg)
    requires Inv(s) && c in s.flight
    ensures Inv(FillStep(s, c, m))
  {
    hide Delivers;
    DeliversStill(s, FillStep(s, c, m));
  }

  lemma ClearKeeps(s: State, c: Cell)
    requires Inv(s) && c in s.flight
    ensures Inv(ClearStep(s, c))
  {
    hide Delivers;
    DeliversStill(s, ClearStep(s, c));
  }

  lemma LinkKeeps(s: State, c: Cell, front: bool)
    requires Inv(s) && c in s.flight
    ensures c in s.data && Inv(LinkStep(s, c, front))
  {
    hide Orderly, Delivers, Distinct, LogLink;
    var s' := LinkStep(s, c, front);
    DistinctPush(s.queue, c);
    GrantedKeeps(s.recv, |s.queue|);
    LinkDelivers(s, c, front);
  }

  lemma {:induction false} OrdinaryMore(linked: seq<Sent>, x: Sent, o: seq<nat>)
    requires forall i :: 0 <= i < |o| ==> o[i] < |linked|
    ensures Ordinary(linked + [x], o) == Ordinary(linked, o)
  {
    if o != [] { OrdinaryMore(linked, x, o[..|o| - 1]); }
  }

  lemma {:induction false} OrdinarySplit(linked: seq<Sent>, a: seq<nat>, b: seq<nat>)
    ensures Ordinary(linked, a + b) == Ordinary(linked, a) + Ordinary(linked, b)
  {
    hide Ordinary;
    if b == [] {
      OrdinaryNone(linked);
      assert a + b == a && Ordinary(linked, a) + [] == Ordinary(linked, a);
    } else {
      var c, n := b[..|b| - 1], b[|b| - 1];
      OrdinarySplit(linked, a, c);
      OrdinaryLast(linked, a + c, n);
      OrdinaryLast(linked, c, n);
      assert a + b == (a + c) + [n] && b == c + [n];
    }
  }

  lemma OrdinaryNone(linked: seq<Sent>)
    ensures Ordinary(linked, []) == []
  {
  }

  lemma OrdinaryLast(linked: seq<Sent>, o: seq<nat>, n: nat)
    ensures Ordinary(linked, o + [n])
            == Ordinary(linked, o) + if n < |linked| && !linked[n].front then [linked[n].m] else []
  {
    assert (o + [n])[..|o + [n]| - 1] == o;
  }

  lemma OrdinaryOne(linked: seq<Sent>, n: nat)
    requires n < |linked|
    ensures Ordinary(linked, [n]) == if linked[n].front then [] else [linked[n].m]
  {
    assert [n][..0] == [];
  }

  /** An urgent message goes before all that is queued, another one behind it. */
  lemma LinkOrderly(g: Log, m: Msg, front: bool)
    requires Orderly(g)
    ensures Orderly(LogLink(g, m, front))
  {
    hide Ordinary;
    var g', n, o := LogLink(g, m, front), |g.linked|, Order(g);
    LinkTurns(g, m, front);
    LinkOrdinary(g, m, front);
    assert Distinct(Order(g')) by { LinkDistinct(g.taken, g.marks, n, front); }
  }

  lemma LinkDistinct(taken: seq<nat>, marks: seq<nat>, n: nat, front: bool)
    requires Distinct(taken + marks) && forall i :: 0 <= i < |taken + marks| ==> (taken + marks)[i] < n
    ensures Distinct(taken + if front then [n] + marks else marks + [n])
  {
    var a, b := taken + marks, taken + if front then [n] + marks else marks + [n];
    if front {
      assert forall i :: |taken| < i < |b| ==> b[i] == a[i - 1];
      assert forall i :: 0 <= i < |taken| ==> b[i] == a[i];
    } else {
      assert b == a + [n];
    }
  }

  lemma LinkTurns(g: Log, m: Msg, front: bool)
    requires Orderly(g)
    ensures var g' := LogLink(g, m, front); var o' := Order(g');
            && (forall i :: 0 <= i < |o'| ==> o'[i] < |g'.linked|)
            && forall i: nat, j: nat :: i < |o'| && j < |o'| && o'[i] < o'[j] ==> InTurn(g', o', i, j)
  {
    hide Ordinary, Distinct, InTurn;
    var g', n := LogLink(g, m, front), |g.linked|;
    var o, o', p := Order(g), Order(g'), if front then |g.taken| else |Order(g)|;
    LinkPlaces(g, m, front);
    forall i: nat, j: nat | i < |o'| && j < |o'| && o'[i] < o'[j] ensures InTurn(g', o', i, j) {
      if j == p {
        assert o'[j] == n;
        TurnLast(g', o', i, j);
      } else {
        assert i != p;
        var i0, j0 := OldPlace(p, i), OldPlace(p, j);
        assert o'[i] == o[i0] && o'[j] == o[j0] && InTurn(g, o, i0, j0);
        TurnKept(g, o, g', o', p, i, j);
      }
    }
  }

  ghost function OldPlace(p: nat, k: nat): nat
    requires k != p
  {
    if k > p then k - 1 else k
  }

  /** The new number enters at place p, the others keep their order. */
  lemma LinkPlaces(g: Log, m: Msg, front: bool)
    requires forall i :: 0 <= i < |Order(g)| ==> Order(g)[i] < |g.linked|
    ensures var o, o', p := Order(g), Order(LogLink(g, m, front)), if front then |g.taken| else |Order(g)|;
            && |o'| == |o| + 1 && o'[p] == |g.linked|
            && (forall k: nat :: k < |o'| && k != p ==> OldPlace(p, k) < |o| && o'[k] == o[OldPlace(p, k)])
            && (forall k :: 0 <= k < |o'| ==> o'[k] < |g.linked| + 1)
  {
    var o, o', p := Order(g), Order(LogLink(g, m, front)), if front then |g.taken| else |Order(g)|;
    forall k: nat | k < |o'| && k != p ensures OldPlace(p, k) < |o| && o'[k] == o[OldPlace(p, k)] { }
    forall k | 0 <= k < |o'| ensures o'[k] < |g.linked| + 1 {
      if k != p { assert o'[k] == o[OldPlace(p, k)]; }
    }
  }

  lemma TurnLast(g: Log, o: seq<nat>, i: nat, j: nat)
    requires i < |o| && j < |o| && i != j && o[j] < |g.linked|
    requires if g.linked[o[j]].front then g.linked[o[j]].before == j else i < j
    ensures InTurn(g, o, i, j)
  {
  }

  lemma TurnKept(g: Log, o: seq<nat>, g': Log, o': seq<nat>, p: nat, i: nat, j: nat)
    requires i < |o'| && j < |o'| && i != p && j != p
    requires OldPlace(p, i) < |o| && OldPlace(p, j) < |o| && o[OldPlace(p, j)] < |g.linked|
    requires InTurn(g, o, OldPlace(p, i), OldPlace(p, j))
    requires o'[j] < |g'.linked| && g'.linked[o'[j]] == g.linked[o[OldPlace(p, j)]] && g'.linked[o'[j]].before <= p
    ensures InTurn(g', o', i, j)
  {
  }

  lemma LinkOrdinary(g: Log, m: Msg, front: bool)
    requires Orderly(g)
    ensures var g' := LogLink(g, m, front); Ordinary(g'.linked, Order(g')) == Ordinary(g'.linked, Upto(|g'.linked|))
  {
    hide Ordinary, Distinct, InTurn;
    var g', n := LogLink(g, m, front), |g.linked|;
    var l := g'.linked;
    assert Upto(n + 1) == Upto(n) + [n];
    OrdinarySplit(l, Upto(n), [n]);
    OrdinaryOne(l, n);
    OrdinaryMore(g.linked, l[n], Upto(n));
    OrdinaryMore(g.linked, l[n], Order(g));
    OrdinarySplit(l, g.taken, g.marks);
    if front {
      OrdinarySplit(l, g.taken, [n] + g.marks);
      OrdinarySplit(l, [n], g.marks);
      assert [] + Ordinary(l, g.marks) == Ordinary(l, g.marks);
    } else {
      assert Order(g') == Order(g) + [n];
      OrdinarySplit(l, Order(g), [n]);
    }
  }

  lemma LinkDelivers(s: State, c: Cell, front: bool)
    requires Delivers(s) && c in s.data
    ensures Delivers(LinkStep(s, c, front))
  {
    hide Orderly;
    var s' := LinkStep(s, c, front);
    LinkOrderly(s.log, s.data[c], front);
    forall i | 0 <= i < |s.log.taken| ensures ReceivedAs(s'.log, i) { assert ReceivedAs(s.log, i); }
    forall i | 0 <= i < |s'.queue| ensures QueuedAs(s', i) {
      var k := if front then i - 1 else i;
      if 0 <= k < |s.queue| { assert QueuedAs(s, k); }
    }
  }

  lemma QueueKnown(s: State)
    requires Delivers(s)
    ensures |s.log.marks| == |s.queue| && forall c :: c in s.queue ==> c in s.data
  {
    hide Orderly;
    forall c | c in s.queue ensures c in s.data {
      var i :| 0 <= i < |s.queue| && s.queue[i] == c;
      assert QueuedAs(s, i);
    }
  }

  lemma TakeKeeps(s: State, t: Thread, wait: bool, j: nat)
    requires Inv(s) && j <= |s.recv.waiters| && (wait ==> t !in s.recv.waiters)
    ensures (forall c :: c in s.queue ==> c in s.data) && |s.log.marks| == |s.queue| && Inv(TakeStep(s, t, wait, j).0)
  {
    hide Orderly;
    QueueKnown(s);
    if s.queue != [] {
      assert s.queue[0] in s.queue;
      DistinctHead(s.queue);
      TookKeeps(s.recv, |s.queue|, t);
      TakeDelivers(s, t, wait, j);
    } else if wait {
      JoinedKeeps(s.recv, j, t);
      DeliversStill(s, TakeStep(s, t, wait, j).0);
    } else {
      GaveUpKeeps(s.recv, t);
      DeliversStill(s, TakeStep(s, t, wait, j).0);
    }
  }

  lemma TakeOrderly(g: Log, m: Msg)
    requires Orderly(g) && g.marks != []
    ensures Orderly(LogTake(g, m))
  {
    hide Ordinary, Distinct;
    assert Order(LogTake(g, m)) == Order(g);
    forall i: nat, j: nat | i < |Order(g)| && j < |Order(g)| && Order(g)[i] < Order(g)[j]
      ensures InTurn(LogTake(g, m), Order(g), i, j)
    {
      assert InTurn(g, Order(g), i, j);
    }
  }

  lemma ReceivedAll(g: Log)
    requires Orderly(g)
    ensures |g.received| == |g.taken|
  {
  }

  lemma TakeDelivers(s: State, t: Thread, wait: bool, j: nat)
    requires Delivers(s) && s.queue != [] && j <= |s.recv.waiters| && forall c :: c in s.queue ==> c in s.data
    ensures Delivers(TakeStep(s, t, wait, j).0)
  {
    hide Orderly;
    assert QueuedAs(s, 0) && |s.log.received| == |s.log.taken| by { ReceivedAll(s.log); }
    var s' := TakeStep(s, t, wait, j).0;
    TakeOrderly(s.log, s.data[s.queue[0]]);
    forall i | 0 <= i < |s'.log.taken| ensures ReceivedAs(s'.log, i) {
      if i < |s.log.taken| { assert ReceivedAs(s.log, i); }
    }
    forall i | 0 <= i < |s'.queue| ensures QueuedAs(s', i) { assert QueuedAs(s, i + 1); }
  }

  lemma ReturnKeeps(s: State, c: Cell)
    requires Inv(s) && c in s.flight
    ensures Inv(ReturnStep(s, c))
  {
    hide Delivers;
    DeliversStill(s, ReturnStep(s, c));
    DistinctPush(s.free, c);
    GrantedKeeps(s.send, |s.free|);
  }

  lemma ExpireKeeps(s: State, t: Thread)
    requires Inv(s)
    ensures Inv(ExpireStep(s, t))
  {
    hide Delivers;
    DeliversStill(s, ExpireStep(s, t));
    LeftKeeps(s.recv, |s.queue|, t);
    LeftKeeps(s.send, |s.free|, t);
  }

  lemma {:induction false} ReversedMembers<T>(s: seq<T>)
    ensures forall x :: x in Reversed(s) <==> x in s
    ensures |Reversed(s)| == |s|
    ensures Distinct(s) ==> Distinct(Reversed(s))
  {
    if s != [] {
      ReversedMembers(s[1..]);
      assert s == [s[0]] + s[1..];
      if Distinct(s) {
        DistinctHead(s);
        DistinctPush(Reversed(s[1..]), s[0]);
      }
    }
  }

  lemma ResetKeeps(s: State)
    requires Inv(s)
    ensures Inv(ResetStep(s)) && ResetStep(s).cells == s.cells && ResetStep(s).flight == s.flight
  {
    var s' := ResetStep(s);
    ReversedMembers(s.queue);
    assert Distinct(s'.free) by {
      forall i, j | 0 <= i < j < |s'.free| ensures s'.free[i] != s'.free[j] {
        if i < |s.queue| { assert Reversed(s.queue)[i] in s.queue; }
        if j >= |s.queue| { assert s.free[j - |s.queue|] in s.free; }
      }
    }
    NothingOrderly();
  }

  // ---- whole runs -----------------------------------------------------------------------

  datatype Event =
    | Acquire(t: Thread, wait: bool, j: nat)
    | Fill(c: Cell, m: Msg)
    | Clear(c: Cell)
    | Link(c: Cell, front: bool)
    | Take(t: Thread, wait: bool, j: nat)
    | Return(c: Cell)
    | Expire(t: Thread)
    | Reset

  ghost predicate Plays(s: State, c: Cell, roles: set<Role>) {
    c in s.flight && s.flight[c] in roles
  }

  ghost predicate Allowed(s: State, e: Event) {
    match e
    case Acquire(t, wait, j) => (wait ==> t !in s.send.waiters) && j <= |s.send.waiters|
    case Fill(c, _) => Plays(s, c, {Filling, Cleared})
    case Clear(c) => Plays(s, c, {Filling})
    case Link(c, front) => Plays(s, c, if front then {Filling} else {Cleared}) && c in s.data
    case Take(t, wait, j) =>
      && (wait ==> t !in s.recv.waiters) && j <= |s.recv.waiters|
      && |s.log.marks| == |s.queue| && forall c :: c in s.queue ==> c in s.data
    case Return(c) => Plays(s, c, {Reading})
    case Expire(_) => true
    case Reset => true
  }

  ghost function Apply(s: State, e: Event): State
    requires Allowed(s, e)
  {
    match e
    case Acquire(t, wait, j) => AcquireStep(s, t, wait, j).0
    case Fill(c, m) => FillStep(s, c, m)
    case Clear(c) => ClearStep(s, c)
    case Link(c, front) => LinkStep(s, c, front)
    case Take(t, wait, j) => TakeStep(s, t, wait, j).0
    case Return(c) => ReturnStep(s, c)
    case Expire(t) => ExpireStep(s, t)
    case Reset => ResetStep(s)
  }

  lemma StepKeeps(s: State, e: Event)
    requires Inv(s) && Allowed(s, e)
    ensures Inv(Apply(s, e)) && Apply(s, e).cells == s.cells
  {
    match e {
      case Acquire(t, wait, j) => AcquireKeeps(s, t, wait, j);
      case Fill(c, m) => FillKeeps(s, c, m);
      case Clear(c) => ClearKeeps(s, c);
      case Link(c, front) => LinkKeeps(s, c, front);
      case Take(t, wait, j) => TakeKeeps(s, t, wait, j);
      case Return(c) => ReturnKeeps(s, c);
      case Expire(t) => ExpireKeeps(s, t);
      case Reset => ResetKeeps(s);
    }
  }

  ghost function Answer(s: State, e: Event): Outcome
    requires Allowed(s, e)
  {
    match e
    case Acquire(t, wait, j) => AcquireStep(s, t, wait, j).1
    case Take(t, wait, j) => TakeStep(s, t, wait, j).1
    case _ => Done
  }

  /** The events es, answered with rs, lead from s to s'. */
  ghost predicate Run(s: State, es: seq<Event>, rs: seq<Outcome>, s': State)
    decreases |es|
  {
    if es == [] then rs == [] && s' == s
    else rs != [] && Allowed(s, es[0]) && rs[0] == Answer(s, es[0]) && Run(Apply(s, es[0]), es[1..], rs[1..], s')
  }

  /** All interleavings of senders, receivers, copies in progress, timeouts and
      resets conserve the cells and deliver the messages. */
  lemma {:induction false} RunKeeps(s: State, es: seq<Event>, rs: seq<Outcome>, s': State)
    requires Inv(s) && Run(s, es, rs, s')
    ensures Inv(s') && s'.cells == s.cells && |rs| == |es|
    decreases |es|
  {
    if es != [] {
      StepKeeps(s, es[0]);
      RunKeeps(Apply(s, es[0]), es[1..], rs[1..], s');
    }
  }

  /** Which receivers were woken and have not run since, told from the suspend list. */
  ghost function ReceiversComing(s: State, es: seq<Event>, w: set<Thread>): set<Thread>
    decreases |es|
  {
    if es == [] || !Allowed(s, es[0]) then w
    else
      var e, u := es[0], Apply(s, es[0]);
      ReceiversComing(u, es[1..], OnTheWay(s.recv.waiters, u.recv.waiters, w, Calls(e), if e.Take? then {e.t} else {}))
  }

  ghost function SendersComing(s: State, es: seq<Event>, w: set<Thread>): set<Thread>
    decreases |es|
  {
    if es == [] || !Allowed(s, es[0]) then w
    else
      var e, u := es[0], Apply(s, es[0]);
      SendersComing(u, es[1..], OnTheWay(s.send.waiters, u.send.waiters, w, Calls(e), if e.Acquire? then {e.t} else {}))
  }

  /** Not a timeout or a reset. */
  predicate Calls(e: Event) {
    !e.Expire? && !e.Reset?
  }

  lemma {:induction false} RunWoken(s: State, es: seq<Event>, rs: seq<Outcome>, s': State)
    requires Inv(s) && Run(s, es, rs, s')
    ensures s'.recv.woken == ReceiversComing(s, es, s.recv.woken)
    ensures s'.send.woken == SendersComing(s, es, s.send.woken)
    decreases |es|
  {
    hide Inv, Apply, Allowed, Answer, OnTheWay, Calls;
    if es != [] {
      StepKeeps(s, es[0]);
      WokenStep(s, es[0]);
      RunWoken(Apply(s, es[0]), es[1..], rs[1..], s');
    }
  }

  lemma WokenStep(s: State, e: Event)
    requires Inv(s) && Allowed(s, e)
    ensures var u := Apply(s, e);
            && u.recv.woken == OnTheWay(s.recv.waiters, u.recv.waiters, s.recv.woken, Calls(e), if e.Take? then {e.t} else {})
            && u.send.woken == OnTheWay(s.send.waiters, u.send.waiters, s.send.woken, Calls(e), if e.Acquire? then {e.t} else {})
  {
    SameWay(s.recv);
    SameWay(s.send);
    match e {
      case Acquire(t, wait, j) =>
        RanWay(s.send, t);
        JoinedWay(s.send, j, t);
      case Take(t, wait, j) =>
        RanWay(s.recv, t);
        JoinedWay(s.recv, j, t);
      case Link(_, _) => GrantedWay(s.recv);
      case Return(_) => GrantedWay(s.send);
      case _ =>
    }
  }

  /** While a receiver is suspended, the woken ones that have not run since number at least
      the queued messages, and dually for senders and free cells. */
  lemma NobodyForgotten(s: State, es: seq<Event>, rs: seq<Outcome>, s': State)
    requires Inv(s) && s.recv.woken == {} && s.send.woken == {} && Run(s, es, rs, s')
    ensures s'.recv.waiters != [] ==> |ReceiversComing(s, es, {})| >= |s'.queue|
    ensures s'.send.waiters != [] ==> |SendersComing(s, es, {})| >= |s'.free|
    ensures forall t :: t in s'.recv.waiters ==> t !in ReceiversComing(s, es, {})
    ensures forall t :: t in s'.send.waiters ==> t !in SendersComing(s, es, {})
  {
    RunKeeps(s, es, rs, s');
    RunWoken(s, es, rs, s');
  }

  /** In every run: the ordinary messages received and queued are the ordinary messages
      linked, in the order they were linked. */
  lemma OrdinaryFifo(s: State, es: seq<Event>, rs: seq<Outcome>, s': State)
    requires Inv(s) && Run(s, es, rs, s')
    ensures Ordinary(s'.log.linked, s'.log.taken) + Ordinary(s'.log.linked, s'.log.marks)
            == Ordinary(s'.log.linked, Upto(|s'.log.linked|))
  {
    hide Ordinary, InTurn;
    RunKeeps(s, es, rs, s');
    OrdinarySplit(s'.log.linked, s'.log.taken, s'.log.marks);
  }

  /** In every run, for two places i and j in the order of delivery: the message linked
      earlier is received first, unless the later one was urgent and the earlier one was
      still queued then; in that case the urgent one is. */
  lemma DeliveryOrder(s: State, es: seq<Event>, rs: seq<Outcome>, s': State, i: nat, j: nat)
    requires Inv(s) && Run(s, es, rs, s')
    requires var o := Order(s'.log); i < |o| && j < |o| && o[i] < o[j]
    ensures var o := Order(s'.log);
            && o[j] < |s'.log.linked|
            && var later := s'.log.linked[o[j]];
               && (i < j <==> !later.front || i < later.before)
               && (j < i <==> later.front && later.before <= i)
  {
    hide Ordinary;
    RunKeeps(s, es, rs, s');
    assert InTurn(s'.log, Order(s'.log), i, j);
    assert Distinct(Order(s'.log));
  }

  // ---- the history, from the events and their answers alone -----------------------------

  ghost function Contents(es: seq<Event>, data: map<Cell, Msg>): map<Cell, Msg> {
    if es == [] then data else Contents(es[1..], if es[0].Fill? then data[es[0].c := es[0].m] else data)
  }

  /** The cells somebody has acquired or taken and not yet linked or returned. */
  ghost function Flying(es: seq<Event>, rs: seq<Outcome>, f: set<Cell>): set<Cell>
    requires |es| == |rs|
  {
    if es == [] then f
    else
      Flying(es[1..], rs[1..],
             if es[0].Link? || es[0].Return? then f - {es[0].c} else if rs[0].Got? then f + {rs[0].c} else f)
  }

  /** The messages linked with what was filled in, and those taken. */
  ghost function Logged(es: seq<Event>, rs: seq<Outcome>, g: Log, data: map<Cell, Msg>): Log
    requires |es| == |rs|
  {
    if es == [] then g
    else
      var g' := match es[0]
                case Link(c, front) => if c in data then LogLink(g, data[c], front) else g
                case Take(_, _, _) => if rs[0].Got? && rs[0].c in data && g.marks != [] then LogTake(g, data[rs[0].c]) else g
                case Reset => NOTHING
                case _ => g;
      Logged(es[1..], rs[1..], g', Contents([es[0]], data))
  }

  lemma ContentsOne(e: Event, data: map<Cell, Msg>)
    ensures Contents([e], data) == if e.Fill? then data[e.c := e.m] else data
  {
    assert [e][1..] == [];
  }

  lemma HistoryStep(s: State, e: Event)
    requires Inv(s) && Allowed(s, e)
    ensures Apply(s, e).data == Contents([e], s.data)
    ensures Apply(s, e).flight.Keys == Flying([e], [Answer(s, e)], s.flight.Keys)
    ensures Apply(s, e).log == Logged([e], [Answer(s, e)], s.log, s.data)
  {
    hide Partition, Orderly, LogLink, LogTake;
    var r := Answer(s, e);
    assert [e][1..] == [] && [r][1..] == [];
    ContentsOne(e, s.data);
    if e.Take? && s.queue != [] { assert s.queue[0] in s.queue; }
  }

  /** Over every run, what the state records is what the events and their answers say. */
  lemma {:induction false} RunHistory(s: State, es: seq<Event>, rs: seq<Outcome>, s': State)
    requires Inv(s) && Run(s, es, rs, s')
    ensures |rs| == |es|
    ensures s'.log == Logged(es, rs, s.log, s.data) && s'.flight.Keys == Flying(es, rs, s.flight.Keys)
    ensures s'.data == Contents(es, s.data)
    decreases |es|
  {
    hide Inv, LogLink, LogTake;
    RunKeeps(s, es, rs, s');
    if es != [] {
      var e, r, u := es[0], rs[0], Apply(s, es[0]);
      StepKeeps(s, e);
      HistoryStep(s, e);
      ContentsOne(e, s.data);
      assert [e][1..] == [] && [r][1..] == [];
      RunHistory(u, es[1..], rs[1..], s');
    }
  }

  /** So they decide the next answer: a send gets a cell exactly while queued messages and
      cells in flight leave one, and one that is in neither place; a receive gets the next
      message of the delivery order exactly while there is one. */
  lemma NextAnswer(data: map<Cell, Msg>, free: seq<Cell>, es: seq<Event>, rs: seq<Outcome>, s: State, e: Event)
    requires Distinct(free) && (forall c :: c in data <==> c in free)
    requires Run(Initial(data, free), es, rs, s) && Allowed(s, e)
    ensures |rs| == |es|
    ensures var g, flying, now, r := Logged(es, rs, NOTHING, data), Flying(es, rs, {}), Contents(es, data), Answer(s, e);
            var queued := |g.linked| - |g.taken|;
            && queued >= 0 && queued + |flying| <= |data| && now.Keys == data.Keys
            && (e.Acquire? ==>
                  if queued + |flying| < |data| then r.Got? && r.c in data && r.c !in flying
                  else r == if e.wait then Blocked else Refused)
            && (e.Take? ==>
                  if queued > 0 then
                    && r.Got? && r.c in now && r.c !in flying
                    && |g.marks| > 0 && g.marks[0] < |g.linked| && now[r.c] == g.linked[g.marks[0]].m
                  else r == if e.wait then Blocked else Refused)
  {
    hide Partition, Orderly, LogLink, LogTake;
    InitialInv(data, free);
    RunKeeps(Initial(data, free), es, rs, s);
    RunHistory(Initial(data, free), es, rs, s);
    CellsAddUp(s);
    assert data.Keys == s.cells && |data| == |data.Keys|;
    AnswerNow(s, e);
  }

  lemma AnswerNow(s: State, e: Event)
    requires Inv(s) && Allowed(s, e)
    ensures |s.queue| == |s.log.linked| - |s.log.taken| && s.data.Keys == s.cells
    ensures var r := Answer(s, e);
            && (e.Acquire? ==>
                  if s.free != [] then r.Got? && r.c in s.cells && r.c !in s.flight
                  else r == if e.wait then Blocked else Refused)
            && (e.Take? ==>
                  if s.queue != [] then
                    && r.Got? && r.c in s.data && r.c !in s.flight
                    && |s.log.marks| > 0 && s.log.marks[0] < |s.log.linked|
                    && s.data[r.c] == s.log.linked[s.log.marks[0]].m
                  else r == if e.wait then Blocked else Refused)
  {
    Placing(s.log);
    if s.free != [] { assert s.free[0] in s.free; }
    if s.queue != [] { assert QueuedAs(s, 0) && s.queue[0] in s.queue; }
  }

  lemma Placing(g: Log)
    requires Orderly(g)
    ensures |g.taken| + |g.marks| == |g.linked|
  {
  }

  /** The cell given back last is the next one filled. */
  lemma LastReturnedFirst(s: State, c: Cell, t: Thread, wait: bool, j: nat)
    requires j <= |ReturnStep(s, c).send.waiters|
    ensures var s', r := AcquireStep(ReturnStep(s, c), t, wait, j).0, AcquireStep(ReturnStep(s, c), t, wait, j).1;
            r == Got(c) && s'.free == s.free && s'.queue == s.queue && s'.flight == s.flight[c := Filling]
  {
    assert ([c] + s.free)[1..] == s.free && (s.flight - {c})[c := Filling] == s.flight[c := Filling];
  }

  /** A cell being read keeps the message it was taken with, whatever the other
      threads do meanwhile. */
  lemma ReadIsStable(s: State, e: Event, c: Cell)
    requires Inv(s) && Allowed(s, e) && Plays(s, c, {Reading}) && e != Return(c)
    ensures c in s.data && c in Apply(s, e).data
    ensures Plays(Apply(s, e), c, {Reading}) && Apply(s, e).data[c] == s.data[c]
  {
    if e.Take? && s.queue != [] { assert s.queue[0] in s.queue; }
    if e.Acquire? && s.free != [] { assert s.free[0] in s.free; }
  }

  /** The cells in the three places add up to the pool. */
  lemma CellsAddUp(s: State)
    requires Inv(s)
    ensures |s.queue| + |s.free| + |s.flight| == |s.cells|
  {
    DistinctCount(s.queue);
    DistinctCount(s.free);
    Disjoint3(Members(s.queue), Members(s.free), s.flight.Keys);
    assert s.cells == Members(s.queue) + Members(s.free) + s.flight.Keys;
  }

  // ---- the cell chains -----------------------------------------------------------------

  /** The pointers of the queue and the free chain over the cells in each place. */
  ghost predicate Shape(next: map<Cell, Option<Cell>>, head: Option<Cell>, tail: Option<Cell>, free: Option<Cell>,
                        queue: seq<Cell>, freeList: seq<Cell>, flight: map<Cell, Role>)
  {
    && Chain(next, head, queue) && Chain(next, free, freeList) && tail == Last(queue)
    && (forall c :: c in flight ==> c in next)
    && (forall c :: c in flight && flight[c].Cleared? ==> next[c] == None)
  }

  ghost predicate Apart(queue: seq<Cell>, freeList: seq<Cell>, flight: map<Cell, Role>) {
    && Distinct(queue) && Distinct(freeList)
    && (forall c :: c in queue ==> c !in freeList && c !in flight)
    && (forall c :: c in freeList ==> c !in flight)
  }

  lemma ShapeAcquire(next: map<Cell, Option<Cell>>, head: Option<Cell>, tail: Option<Cell>, free: Option<Cell>,
                     queue: seq<Cell>, freeList: seq<Cell>, flight: map<Cell, Role>)
    requires Shape(next, head, tail, free, queue, freeList, flight) && freeList != []
    ensures free == Some(freeList[0]) && freeList[0] in next
    ensures Shape(next, head, tail, next[freeList[0]], queue, freeList[1..], flight[freeList[0] := Filling])
  {
    ChainPop(next, free, freeList);
  }

  lemma ShapeClear(next: map<Cell, Option<Cell>>, head: Option<Cell>, tail: Option<Cell>, free: Option<Cell>,
                   queue: seq<Cell>, freeList: seq<Cell>, flight: map<Cell, Role>, c: Cell)
    requires Shape(next, head, tail, free, queue, freeList, flight) && Apart(queue, freeList, flight) && c in flight
    ensures Shape(next[c := None], head, tail, free, queue, freeList, flight[c := Cleared])
  {
    ChainCells(next, head, queue);
    ChainCells(next, free, freeList);
    ChainFrame(next, next[c := None], head, queue);
    ChainFrame(next, next[c := None], free, freeList);
  }

  lemma ChainCells(next: map<Cell, Option<Cell>>, head: Option<Cell>, s: seq<Cell>)
    requires Chain(next, head, s)
    ensures forall c :: c in s ==> c in next
  {
    forall i | 0 <= i < |s| ensures s[i] in next { assert Follows(next, s, i); }
  }

  lemma ShapeLink(next: map<Cell, Option<Cell>>, head: Option<Cell>, tail: Option<Cell>, free: Option<Cell>,
                  queue: seq<Cell>, freeList: seq<Cell>, flight: map<Cell, Role>, c: Cell)
    requires Shape(next, head, tail, free, queue, freeList, flight) && Apart(queue, freeList, flight)
    requires c in flight && flight[c].Cleared?
    ensures var next' := if tail.Some? then next[tail.value := Some(c)] else next;
            Shape(next', if head.None? then Some(c) else head, Some(c), free, queue + [c], freeList, flight - {c})
  {
    var next' := if tail.Some? then next[tail.value := Some(c)] else next;
    ChainAppend(next, head, queue, c);
    ChainCells(next, free, freeList);
    if queue != [] { assert queue[|queue| - 1] in queue; }
    ChainFrame(next, next', free, freeList);
  }

  lemma ShapeUrgent(next: map<Cell, Option<Cell>>, head: Option<Cell>, tail: Option<Cell>, free: Option<Cell>,
                    queue: seq<Cell>, freeList: seq<Cell>, flight: map<Cell, Role>, c: Cell)
    requires Shape(next, head, tail, free, queue, freeList, flight) && Apart(queue, freeList, flight) && c in flight
    ensures Shape(next[c := head], Some(c), if tail.None? then Some(c) else tail, free, [c] + queue, freeList, flight - {c})
  {
    ChainPush(next, head, queue, c);
    ChainCells(next, free, freeList);
    ChainFrame(next, next[c := head], free, freeList);
  }

  lemma ShapeTake(next: map<Cell, Option<Cell>>, head: Option<Cell>, tail: Option<Cell>, free: Option<Cell>,
                  queue: seq<Cell>, freeList: seq<Cell>, flight: map<Cell, Role>)
    requires Shape(next, head, tail, free, queue, freeList, flight) && Distinct(queue) && queue != []
    ensures head == Some(queue[0]) && queue[0] in next
    ensures var c := queue[0];
            Shape(next, next[c], if tail == Some(c) then None else tail, free, queue[1..], freeList, flight[c := Reading])
  {
    ChainPop(next, head, queue);
  }

  lemma ShapeReturn(next: map<Cell, Option<Cell>>, head: Option<Cell>, tail: Option<Cell>, free: Option<Cell>,
                    queue: seq<Cell>, freeList: seq<Cell>, flight: map<Cell, Role>, c: Cell)
    requires Shape(next, head, tail, free, queue, freeList, flight) && Apart(queue, freeList, flight) && c in flight
    ensures Shape(next[c := free], head, tail, Some(c), queue, [c] + freeList, flight - {c})
  {
    ChainPush(next, free, freeList, c);
    ChainCells(next, head, queue);
    ChainFrame(next, next[c := free], head, queue);
  }

  /** One round of the reset loop: the first queued cell goes to the free chain. */
  lemma ShapeMove(next: map<Cell, Option<Cell>>, head: Option<Cell>, tail: Option<Cell>, free: Option<Cell>,
                  queue: seq<Cell>, freeList: seq<Cell>, flight: map<Cell, Role>)
    requires Shape(next, head, tail, free, queue, freeList, flight) && Apart(queue, freeList, flight) && queue != []
    ensures head == Some(queue[0]) && queue[0] in next
    ensures var c := queue[0];
            && Shape(next[c := free], next[c], if tail == Some(c) then None else tail, Some(c), queue[1..], [c] + freeList, flight)
            && Apart(queue[1..], [c] + freeList, flight)
  {
    var c := queue[0];
    assert c in queue;
    ChainPop(next, head, queue);
    DistinctHead(queue);
    DistinctPush(freeList, c);
    ChainPush(next, free, freeList, c);
    ChainCells(next, next[c], queue[1..]);
    ChainFrame(next, next[c := free], next[c], queue[1..]);
  }

  // ---- the C functions -------------------------------------------------------------------

  class MessageQueue {
    const kernel: Kernel
    const receivers: WaitList               // parent.suspend_thread
    const senders: WaitList                 // suspend_sender_thread
    const msgSize: nat
    var next: map<Cell, Option<Cell>>       // the cells of msg_pool
    var data: map<Cell, Msg>
    var head: Option<Cell>
    var tail: Option<Cell>
    var free: Option<Cell>
    var entry: nat
    ghost var queue: seq<Cell>
    ghost var freeList: seq<Cell>
    ghost var flight: map<Cell, Role>
    ghost var wokenRecv: set<Thread>
    ghost var wokenSend: set<Thread>
    ghost var log: Log

    ghost predicate Waits()
      reads this, kernel, kernel.lists
    {
      receivers.kernel == senders.kernel == kernel && Paired(receivers, senders)
    }

    ghost predicate Cells()
      reads `next, `data, `head, `tail, `free, `entry, `queue, `freeList, `flight
    {
      && Shape(next, head, tail, free, queue, freeList, flight) && Apart(queue, freeList, flight)
      && next.Keys == data.Keys && |next.Keys| < UINT16
      && (forall c :: c in next <==> c in queue || c in freeList || c in flight)
      && (forall c :: c in next ==> |data[c]| == msgSize)
      && entry == |queue|
    }

    ghost predicate Valid()
      reads this, kernel, kernel.lists
    {
      Waits() && Cells() && |log.marks| == |queue|
    }

    ghost function Abs(): State
      requires Waits()
      reads this, kernel, kernel.lists
    {
      State(next.Keys, queue, freeList, flight, data, Line(receivers.Waiters(), wokenRecv), Line(senders.Waiters(), wokenSend),
            log)
    }

    /** rt_mq_init: the loop chains the cells through the pool. */
    constructor (system: Kernel, recvList: WaitList, sendList: WaitList, size: nat, max: nat)
      requires recvList.kernel == sendList.kernel == system && Paired(recvList, sendList) && max < UINT16
      requires recvList.Waiters() == sendList.Waiters() == []
      ensures Valid() && msgSize == size && |next| == max && entry == 0 && |freeList| == max
      ensures Abs() == Initial(data, freeList) && Inv(Abs())
    {
      hide Kernel.Valid, Inv, Shape, Apart, Cells, Distinct;
      kernel, receivers, senders, msgSize := system, recvList, sendList, size;
      data, next := map[], map[];
      head, tail, free, entry := None, None, None, 0;
      queue, freeList, flight, wokenRecv, wokenSend := [], [], map[], {}, {};
      log := NOTHING;
      new;
      BuildChain(max);
      InitialInv(data, freeList);
    }

    method BuildChain(max: nat)
      requires next == map[] && data == map[] && free == None && freeList == [] && queue == [] && flight == map[]
      requires head == tail == None && entry == 0 && max < UINT16
      modifies `next, `data, `free, `freeList
      ensures Cells() && |freeList| == max == |next| && Distinct(freeList)
      ensures next.Keys == data.Keys && forall c :: c in next <==> c in freeList
    {
      hide Chain, Distinct, Shape, Apart;
      Start();
      var temp: Cell := 0;
      while temp < max
        invariant temp <= max && |freeList| == temp && next.Keys == data.Keys
        invariant Chain(next, free, freeList) && Distinct(freeList)
        invariant forall c :: c in freeList ==> c < temp
        invariant forall c :: c in next <==> c in freeList
        invariant forall c :: c in next ==> |data[c]| == msgSize
      {
        ChainPush(next, free, freeList, temp);
        DistinctPush(freeList, temp);
        next := next[temp := free];
        data := data[temp := seq(msgSize, _ => 0)];
        free := Some(temp);
        freeList := [temp] + freeList;
        temp := temp + 1;
      }
      Built();
    }

    lemma Start()
      requires next == map[] && free == None && freeList == []
      ensures Chain(next, free, freeList) && Distinct(freeList)
    {
    }

    lemma Built()
      requires Chain(next, free, freeList) && Distinct(freeList) && forall c :: c in next <==> c in freeList
      requires queue == [] && flight == map[] && head == tail == None
      ensures Shape(next, head, tail, free, queue, freeList, flight) && Apart(queue, freeList, flight)
      ensures |next| == |next.Keys| == |freeList|
    {
      DistinctCount(freeList);
      assert Members(freeList) == next.Keys;
    }

    /** A pass through the loop of rt_mq_send_wait (with timeout 0, also of
        rt_mq_send and rt_mq_urgent) up to the copy. */
    method Acquire(timeout: int, resumes: bool) returns (r: Outcome, ghost j: nat)
      requires Valid() && (timeout != 0 ==> kernel.current in kernel.stat && kernel.stat[kernel.current].Running?)
      modifies this, kernel, kernel.lists
      ensures Valid() && kernel.current == old(kernel.current) && j <= |old(Abs()).send.waiters|
      ensures (Abs(), r) == AcquireStep(old(Abs()), kernel.current, timeout != 0, j)
      ensures r == Blocked ==> kernel.current in kernel.prio
      ensures r == Blocked ==> j == Place(old(Abs()).send.waiters, kernel.prio, kernel.prio[kernel.current], senders.order)
      ensures r == Blocked ==> (kernel.current in kernel.armed <==> timeout > 0)
      ensures kernel.error ==
              if r.Got? || (r == Refused && !resumes) then old(kernel.error) else old(kernel.error)[kernel.current := Ok]
    {
      hide Kernel.Valid, Place, Cells, InsertAt;
      senders.Facts();
      j := 0;
      FreeIs();
      wokenSend := wokenSend - {kernel.current};
      if free == None {
        if timeout == 0 && !resumes { r := Refused; return; }
        kernel.SetError(kernel.current, Ok);
        if timeout == 0 { r := Refused; return; }
        j := BlockOn(senders, receivers, timeout);
        r := Blocked;
        return;
      }
      r := Got(free.value);
      PopFree();
    }

    method PopFree()
      requires Cells() && freeList != []
      modifies `free, `freeList, `flight
      ensures Cells() && freeList == old(freeList)[1..] && flight == old(flight)[old(freeList)[0] := Filling]
      ensures old(free) == Some(old(freeList)[0])
    {
      hide Shape, Apart;
      TakeFree();
      free := next[free.value];
      flight := flight[freeList[0] := Filling];
      freeList := freeList[1..];
    }

    lemma FreeIs()
      requires Cells()
      ensures free == None <==> freeList == []
      ensures entry == |queue| && forall c :: c in queue ==> c in data
    {
    }

    lemma TakeFree()
      requires Cells() && freeList != []
      ensures free == Some(freeList[0]) && freeList[0] in next
      ensures Shape(next, head, tail, next[freeList[0]], queue, freeList[1..], flight[freeList[0] := Filling])
      ensures Apart(queue, freeList[1..], flight[freeList[0] := Filling])
      ensures forall c :: c in freeList <==> c == freeList[0] || c in freeList[1..]
    {
      ShapeAcquire(next, head, tail, free, queue, freeList, flight);
      DistinctHead(freeList);
    }

    /** The copy into the cell, with interrupts enabled: size bytes of the buffer. */
    method Fill(c: Cell, buffer: Msg)
      requires Valid() && c in flight && flight[c] in {Filling, Cleared} && |buffer| <= msgSize
      modifies `data
      ensures Valid() && c in old(data) && |buffer| <= |old(data)[c]|
      ensures Abs() == FillStep(old(Abs()), c, buffer + old(data)[c][|buffer|..])
    {
      hide Kernel.Valid, Shape, Apart;
      data := data[c := buffer + data[c][|buffer|..]];
    }

    /** msg->next = RT_NULL, with interrupts enabled. */
    method Clear(c: Cell)
      requires Valid() && c in flight && flight[c].Filling?
      modifies `next, `flight
      ensures Valid() && Abs() == ClearStep(old(Abs()), c)
    {
      hide Kernel.Valid, Shape, Apart;
      ShapeClear(next, head, tail, free, queue, freeList, flight, c);
      ApartFlight(queue, freeList, flight, c, Cleared);
      next := next[c := None];
      flight := flight[c := Cleared];
    }

    static lemma ApartFlight(queue: seq<Cell>, freeList: seq<Cell>, flight: map<Cell, Role>, c: Cell, role: Role)
      requires Apart(queue, freeList, flight) && c in flight
      ensures Apart(queue, freeList, flight[c := role])
    {
    }

    /** The second section of rt_mq_send_wait. */
    method Link(c: Cell)
      requires Valid() && c in flight && flight[c].Cleared?
      modifies this, kernel, kernel.lists
      ensures Valid() && kernel.error == old(kernel.error) && c in old(data)
      ensures Abs() == LinkStep(old(Abs()), c, false)
    {
      hide Kernel.Valid, Cells;
      InPool(c);
      PushTail(c);
      log := LogLink(log, data[c], false);
      ghost var w := WakeOne(receivers, senders);
      wokenRecv := wokenRecv + w;
    }

    lemma InPool(c: Cell)
      requires Cells() && (c in flight || c in queue)
      ensures c in data
    {
    }

    lemma CellFacts()
      requires Cells()
      ensures next.Keys == data.Keys && |next.Keys| < UINT16 && entry == |queue|
      ensures forall c :: c in next <==> c in queue || c in freeList || c in flight
      ensures forall c :: c in next ==> |data[c]| == msgSize
    {
    }

    lemma CellsHold()
      requires Shape(next, head, tail, free, queue, freeList, flight) && Apart(queue, freeList, flight)
      requires next.Keys == data.Keys && |next.Keys| < UINT16 && entry == |queue|
      requires forall c :: c in next <==> c in queue || c in freeList || c in flight
      requires forall c :: c in next ==> |data[c]| == msgSize
      ensures Cells()
    {
    }

    method PushTail(c: Cell)
      requires Cells() && c in flight && flight[c].Cleared?
      modifies `next, `head, `tail, `entry, `queue, `flight
      ensures Cells() && queue == old(queue) + [c] && flight == old(flight) - {c} && next.Keys == old(next).Keys
    {
      hide Shape, Apart, Distinct, Cells;
      CellFacts();
      TailReady(c);
      if tail != None {
        next := next[tail.value := Some(c)];
      }
      tail := Some(c);
      if head == None {
        head := Some(c);
      }
      entry := (entry + 1) % UINT16;
      queue := queue + [c];
      flight := flight - {c};
      CellsHold();
    }

    method PushHead(c: Cell)
      requires Cells() && c in flight
      modifies `next, `head, `tail, `entry, `queue, `flight
      ensures Cells() && queue == [c] + old(queue) && flight == old(flight) - {c} && next.Keys == old(next).Keys
    {
      hide Shape, Apart, Distinct, Cells;
      CellFacts();
      HeadReady(c);
      next := next[c := head];
      head := Some(c);
      if tail == None {
        tail := Some(c);
      }
      entry := (entry + 1) % UINT16;
      queue := [c] + queue;
      flight := flight - {c};
      CellsHold();
    }

    lemma RoomForOne(c: Cell)
      requires Cells() && c in flight
      ensures c in next && |queue| + 1 < UINT16
      ensures Distinct(queue + [c]) && Distinct([c] + queue)
    {
      DistinctPush(queue, c);
      DistinctFits(queue + [c], next.Keys);
      ChainCells(next, head, queue);
    }

    lemma TailReady(c: Cell)
      requires Cells() && c in flight && flight[c].Cleared?
      ensures c in next && |queue| + 1 < UINT16
      ensures var next' := if tail.Some? then next[tail.value := Some(c)] else next;
              && next'.Keys == next.Keys
              && Shape(next', if head.None? then Some(c) else head, Some(c), free, queue + [c], freeList, flight - {c})
      ensures Apart(queue + [c], freeList, flight - {c})
      ensures forall x :: x in queue + [c] <==> x == c || x in queue
    {
      RoomForOne(c);
      ShapeLink(next, head, tail, free, queue, freeList, flight, c);
    }

    lemma HeadReady(c: Cell)
      requires Cells() && c in flight
      ensures c in next && |queue| + 1 < UINT16
      ensures Shape(next[c := head], Some(c), if tail.None? then Some(c) else tail, free, [c] + queue, freeList, flight - {c})
      ensures Apart([c] + queue, freeList, flight - {c})
      ensures forall x :: x in [c] + queue <==> x == c || x in queue
    {
      RoomForOne(c);
      ShapeUrgent(next, head, tail, free, queue, freeList, flight, c);
    }

    /** The second section of rt_mq_urgent. */
    method LinkUrgent(c: Cell)
      requires Valid() && c in flight && flight[c].Filling?
      modifies this, kernel, kernel.lists
      ensures Valid() && kernel.error == old(kernel.error) && c in old(data)
      ensures Abs() == LinkStep(old(Abs()), c, true)
    {
      hide Kernel.Valid, Cells;
      InPool(c);
      PushHead(c);
      log := LogLink(log, data[c], true);
      ghost var w := WakeOne(receivers, senders);
      wokenRecv := wokenRecv + w;
    }

    /** A pass through the loop of rt_mq_recv up to the copy. */
    method Take(timeout: int, resumes: bool) returns (r: Outcome, ghost j: nat)
      requires Valid() && (timeout != 0 ==> kernel.current in kernel.stat && kernel.stat[kernel.current].Running?)
      modifies this, kernel, kernel.lists
      ensures Valid() && kernel.current == old(kernel.current) && j <= |old(Abs()).recv.waiters|
      ensures forall c :: c in old(queue) ==> c in old(data)
      ensures (Abs(), r) == TakeStep(old(Abs()), kernel.current, timeout != 0, j)
      ensures r == Blocked ==> kernel.current in kernel.prio
      ensures r == Blocked ==> j == Place(old(Abs()).recv.waiters, kernel.prio, kernel.prio[kernel.current], receivers.order)
      ensures r == Blocked ==> (kernel.current in kernel.armed <==> timeout > 0)
      ensures kernel.error ==
              if r.Got? || (r == Refused && !resumes) then old(kernel.error)
              else old(kernel.error)[kernel.current := if r == Refused then Timeout else Ok]
    {
      hide Kernel.Valid, Place, Cells, InsertAt;
      receivers.Facts();
      j := 0;
      FreeIs();
      wokenRecv := wokenRecv - {kernel.current};
      if entry == 0 {
        if timeout == 0 && !resumes { r := Refused; return; }
        kernel.SetError(kernel.current, Ok);
        if timeout == 0 {
          kernel.SetError(kernel.current, Timeout);
          r := Refused;
          return;
        }
        j := BlockOn(receivers, senders, timeout);
        r := Blocked;
        return;
      }
      var c := PopHead();
      log := LogTake(log, data[c]);
      r := Got(c);
    }

    method PopHead() returns (c: Cell)
      requires Cells() && queue != []
      modifies `head, `tail, `entry, `queue, `flight
      ensures Cells() && c == old(queue)[0] && queue == old(queue)[1..] && flight == old(flight)[c := Reading] && c in data
    {
      hide Shape, Apart, Distinct;
      TakeFirst();
      c := head.value;
      head := next[c];
      if tail == Some(c) {
        tail := None;
      }
      entry := entry - 1;
      queue := queue[1..];
      flight := flight[c := Reading];
    }

    lemma TakeFirst()
      requires Cells() && queue != []
      ensures head == Some(queue[0]) && queue[0] in next
      ensures var c := queue[0];
              && Shape(next, next[c], if tail == Some(c) then None else tail, free, queue[1..], freeList, flight[c := Reading])
              && Apart(queue[1..], freeList, flight[c := Reading])
      ensures forall c :: c in queue <==> c == queue[0] || c in queue[1..]
    {
      ShapeTake(next, head, tail, free, queue, freeList, flight);
      DistinctHead(queue);
    }

    /** The copy out of the cell, with interrupts enabled. */
    method Read(c: Cell, size: nat) returns (buffer: Msg)
      requires Valid() && c in flight && flight[c].Reading?
      ensures c in data && buffer <= data[c] && |buffer| == if size > msgSize then msgSize else size
    {
      buffer := data[c][..if size > msgSize then msgSize else size];
    }

    /** The second section of rt_mq_recv. */
    method Return(c: Cell)
      requires Valid() && c in flight && flight[c].Reading?
      modifies this, kernel, kernel.lists
      ensures Valid() && kernel.error == old(kernel.error)
      ensures Abs() == ReturnStep(old(Abs()), c)
    {
      hide Kernel.Valid, Cells;
      PushFree(c);
      ghost var w := WakeOne(senders, receivers);
      wokenSend := wokenSend + w;
    }

    method PushFree(c: Cell)
      requires Cells() && c in flight
      modifies `next, `free, `freeList, `flight
      ensures Cells() && freeList == [c] + old(freeList) && flight == old(flight) - {c} && next.Keys == old(next).Keys
    {
      hide Shape, Apart, Distinct;
      ReturnReady(c);
      next := next[c := free];
      free := Some(c);
      freeList := [c] + freeList;
      flight := flight - {c};
    }

    lemma ReturnReady(c: Cell)
      requires Cells() && c in flight
      ensures c in next && Shape(next[c := free], head, tail, Some(c), queue, [c] + freeList, flight - {c})
      ensures Apart(queue, [c] + freeList, flight - {c})
      ensures forall x :: x in [c] + freeList <==> x == c || x in freeList
    {
      DistinctPush(freeList, c);
      ShapeReturn(next, head, tail, free, queue, freeList, flight, c);
    }

    method Expire(t: Thread)
      requires Valid() && t in kernel.armed
      modifies kernel, kernel.lists
      ensures Valid() && Abs() == ExpireStep(old(Abs()), t) && kernel.error == old(kernel.error)[t := Timeout]
    {
      hide Kernel.Valid, Shape, Apart;
      ExpireEither(receivers, senders, t);
    }

    /** rt_mq_control, RT_IPC_CMD_RESET, up to its rt_schedule. */
    method Reset()
      requires Valid()
      modifies this, kernel, kernel.lists
      ensures Valid() && Abs() == ResetStep(old(Abs()))
      ensures kernel.error.Keys == old(kernel.error).Keys
      ensures var s := old(Abs()); forall t :: t in kernel.error ==>
                kernel.error[t] == (if t in s.recv.waiters || t in s.send.waiters then Error else old(kernel.error)[t])
    {
      hide Kernel.Valid, Cells, Reversed;
      WakeBoth(receivers, senders);
      Empty();
      log := NOTHING;
    }

    ghost predicate AllCells()
      reads `next, `head, `tail, `free, `queue, `freeList, `flight
    {
      && Shape(next, head, tail, free, queue, freeList, flight) && Apart(queue, freeList, flight)
      && (forall c :: c in next <==> c in queue || c in freeList || c in flight)
    }

    /** The first message's cell goes back on the free chain. */
    method MoveOne()
      requires AllCells() && head != None && queue != []
      modifies `next, `head, `tail, `free, `queue, `freeList
      ensures AllCells() && next.Keys == old(next).Keys && queue == old(queue)[1..]
      ensures Reversed(queue) + freeList == Reversed(old(queue)) + old(freeList)
    {
      hide Shape, Apart;
      ShapeMove(next, head, tail, free, queue, freeList, flight);
      MoveMembers(queue, freeList);
      var msg := head.value;
      head := next[msg];
      if tail == Some(msg) {
        tail := None;
      }
      next := next[msg := free];
      free := Some(msg);
      queue, freeList := queue[1..], [msg] + freeList;
    }

    /** The loop of the reset, and the count set to zero. */
    method Empty()
      requires Cells()
      modifies `next, `head, `tail, `free, `queue, `freeList, `entry
      ensures Cells() && queue == [] && freeList == Reversed(old(queue)) + old(freeList) && next.Keys == old(next).Keys
    {
      hide Shape, Apart;
      ghost var q, f := queue, freeList;
      HeadIs();
      assert Reversed(queue) + freeList == Reversed(q) + f;
      while head != None
        invariant AllCells() && next.Keys == old(next).Keys && (head == None <==> queue == [])
        invariant Reversed(queue) + freeList == Reversed(q) + f
        decreases |queue|
      {
        MoveOne();
        HeadIs();
      }
      entry := 0;
      assert Reversed<Cell>([]) + freeList == freeList;
    }

    static lemma MoveMembers(queue: seq<Cell>, freeList: seq<Cell>)
      requires queue != []
      ensures forall c :: c in queue || c in freeList <==> c in queue[1..] || c in [queue[0]] + freeList
      ensures Reversed(queue) + freeList == Reversed(queue[1..]) + ([queue[0]] + freeList)
    {
      assert queue == [queue[0]] + queue[1..];
    }

    lemma HeadIs()
      requires Shape(next, head, tail, free, queue, freeList, flight)
      ensures head == None <==> queue == []
    {
    }
  }
}
