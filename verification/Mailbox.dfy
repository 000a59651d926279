/** The mailbox of ipc.c. */
module Mailboxes {
  // A ring of words with threads waiting at both ends.

  import opened Kernel
  import opened Lists
  import opened Rings
  import opened Waiting

  const UINT16: nat := 65536

  type Mail = nat

  /** What a pass through one of the loops ends with. */
  datatype Outcome = Done | Got(v: Mail) | Refused | Blocked

  // ---- the ring as a queue ---------------------------------------------------------

  /** Position i of a ring of `size` slots that starts at `out`. */
  function At(out: nat, i: nat, size: nat): (k: int)
    requires out < size && i <= size
    ensures 0 <= k < size
    ensures k == (out + i) % size
  {
    if out + i < size then out + i else out + i - size
  }

  /** The mails between out_offset and in_offset. */
  ghost function RingQueue(pool: seq<Mail>, out: nat, entry: nat): (q: seq<Mail>)
    requires entry <= |pool| && (out < |pool| || entry == 0)
    ensures |q| == entry
  {
    seq(entry, i requires 0 <= i < entry => pool[At(out, i, |pool|)])
  }

  lemma RingPut(pool: seq<Mail>, out: nat, entry: nat, v: Mail)
    requires entry < |pool| && out < |pool|
    ensures RingQueue(pool[At(out, entry, |pool|) := v], out, entry + 1) == RingQueue(pool, out, entry) + [v]
  {
    var a, b := RingQueue(pool[At(out, entry, |pool|) := v], out, entry + 1), RingQueue(pool, out, entry) + [v];
    forall i | 0 <= i < |a| ensures a[i] == b[i] { }
  }

  lemma RingGet(pool: seq<Mail>, out: nat, entry: nat)
    requires 0 < entry <= |pool| && out < |pool|
    ensures RingQueue(pool, out, entry)[0] == pool[out]
    ensures RingQueue(pool, At(out, 1, |pool|), entry - 1) == RingQueue(pool, out, entry)[1..]
    ensures At(At(out, 1, |pool|), entry - 1, |pool|) == At(out, entry, |pool|)
  {
    var a, b := RingQueue(pool, At(out, 1, |pool|), entry - 1), RingQueue(pool, out, entry)[1..];
    forall i | 0 <= i < |a| ensures a[i] == b[i] { }
  }

  // ---- the transitions --------------------------------------------------------------

  /** A mailbox and its two lines of threads. */
  datatype State = State(size: nat, queue: seq<Mail>, recv: Line, send: Line)

  ghost function Initial(size: nat): State {
    State(size, [], Line([], {}), Line([], {}))
  }

  /** One pass through the loop of rt_mb_send_wait by thread t. */
  ghost function SendStep(s: State, t: Thread, v: Mail, wait: bool, j: nat): (State, Outcome)
    requires j <= |s.send.waiters|
  {
    if |s.queue| != s.size then
      (s.(queue := s.queue + [v], send := Ran(s.send, t), recv := Granted(s.recv)), Done)
    else if wait then (s.(send := Joined(s.send, j, t)), Blocked)
    else (s.(send := Ran(s.send, t)), Refused)
  }

  /** One pass through the loop of rt_mb_recv by thread t. */
  ghost function RecvStep(s: State, t: Thread, wait: bool, j: nat): (State, Outcome)
    requires j <= |s.recv.waiters|
  {
    if s.queue != [] then
      (s.(queue := s.queue[1..], recv := Ran(s.recv, t), send := Granted(s.send)), Got(s.queue[0]))
    else if wait then (s.(recv := Joined(s.recv, j, t)), Blocked)
    else (s.(recv := Ran(s.recv, t)), Refused)
  }

  ghost function ExpireStep(s: State, t: Thread): State {
    s.(recv := Left(s.recv, t), send := Left(s.send, t))
  }

  ghost function ResetStep(s: State): State {
    State(s.size, [], Flushed(s.recv), Flushed(s.send))
  }

  /** No receiver sleeps beside an unclaimed mail and no sender beside an unclaimed
      slot. */
  ghost predicate Inv(s: State) {
    && |s.queue| <= s.size
    && NoLostWakeup(s.recv, |s.queue|)
    && NoLostWakeup(s.send, s.size - |s.queue|)
  }

  lemma SendKeeps(s: State, t: Thread, v: Mail, wait: bool, j: nat)
    requires Inv(s) && j <= |s.send.waiters| && (wait ==> t !in s.send.waiters)
    ensures Inv(SendStep(s, t, v, wait, j).0)
  {
    if |s.queue| != s.size {
      TookKeeps(s.send, s.size - |s.queue|, t);
      GrantedKeeps(s.recv, |s.queue|);
    } else if wait {
      JoinedKeeps(s.send, j, t);
    } else {
      GaveUpKeeps(s.send, t);
    }
  }

  lemma RecvKeeps(s: State, t: Thread, wait: bool, j: nat)
    requires Inv(s) && j <= |s.recv.waiters| && (wait ==> t !in s.recv.waiters)
    ensures Inv(RecvStep(s, t, wait, j).0)
  {
    if s.queue != [] {
      TookKeeps(s.recv, |s.queue|, t);
      GrantedKeeps(s.send, s.size - |s.queue|);
    } else if wait {
      JoinedKeeps(s.recv, j, t);
    } else {
      GaveUpKeeps(s.recv, t);
    }
  }

  lemma ExpireKeeps(s: State, t: Thread)
    requires Inv(s)
    ensures Inv(ExpireStep(s, t))
  {
    LeftKeeps(s.recv, |s.queue|, t);
    LeftKeeps(s.send, s.size - |s.queue|, t);
  }

  // ---- whole runs --------------------------------------------------------------------

  datatype Event =
    | Send(t: Thread, v: Mail, wait: bool, j: nat)
    | Recv(t: Thread, wait: bool, j: nat)
    | Expire(t: Thread)
    | Reset

  ghost predicate Allowed(s: State, e: Event) {
    match e
    case Send(t, _, wait, j) => (wait ==> t !in s.send.waiters) && j <= |s.send.waiters|
    case Recv(t, wait, j) => (wait ==> t !in s.recv.waiters) && j <= |s.recv.waiters|
    case _ => true
  }

  ghost function Apply(s: State, e: Event): State
    requires Allowed(s, e)
  {
    match e
    case Send(t, v, wait, j) => SendStep(s, t, v, wait, j).0
    case Recv(t, wait, j) => RecvStep(s, t, wait, j).0
    case Expire(t) => ExpireStep(s, t)
    case Reset => ResetStep(s)
  }

  /** What the call is answered; a timeout and a reset always succeed. */
  ghost function Answer(s: State, e: Event): Outcome
    requires Allowed(s, e)
  {
    match e
    case Send(t, v, wait, j) => SendStep(s, t, v, wait, j).1
    case Recv(t, wait, j) => RecvStep(s, t, wait, j).1
    case _ => Done
  }

  /** The events es, answered with rs, lead from s to s'. */
  ghost predicate Run(s: State, es: seq<Event>, rs: seq<Outcome>, s': State)
    decreases |es|
  {
    if es == [] then rs == [] && s' == s
    else rs != [] && Allowed(s, es[0]) && rs[0] == Answer(s, es[0]) && Run(Apply(s, es[0]), es[1..], rs[1..], s')
  }

  lemma StepKeeps(s: State, e: Event)
    requires Inv(s) && Allowed(s, e)
    ensures Inv(Apply(s, e)) && Apply(s, e).size == s.size
  {
    match e {
      case Send(t, v, wait, j) => SendKeeps(s, t, v, wait, j);
      case Recv(t, wait, j) => RecvKeeps(s, t, wait, j);
      case Expire(t) => ExpireKeeps(s, t);
      case Reset =>
    }
  }

  /** In every interleaving of sends, receives, their resumed continuations,
      timeouts and resets. */
  lemma {:induction false} RunKeeps(s: State, es: seq<Event>, rs: seq<Outcome>, s': State)
    requires Inv(s) && Run(s, es, rs, s')
    ensures Inv(s') && s'.size == s.size && |rs| == |es|
    decreases |es|
  {
    if es != [] {
      StepKeeps(s, es[0]);
      RunKeeps(Apply(s, es[0]), es[1..], rs[1..], s');
    }
  }

  /** Which receivers were woken and have not run since, told from the suspend list. */
  ghost function ReceiversComing(s: State, es: seq<Event>, w: set<Thread>): set<Thread>
    decreases |es|
  {
    if es == [] || !Allowed(s, es[0]) then w
    else
      var e, u := es[0], Apply(s, es[0]);
      ReceiversComing(u, es[1..], OnTheWay(s.recv.waiters, u.recv.waiters, w, Calls(e), if e.Recv? then {e.t} else {}))
  }

  ghost function SendersComing(s: State, es: seq<Event>, w: set<Thread>): set<Thread>
    decreases |es|
  {
    if es == [] || !Allowed(s, es[0]) then w
    else
      var e, u := es[0], Apply(s, es[0]);
      SendersComing(u, es[1..], OnTheWay(s.send.waiters, u.send.waiters, w, Calls(e), if e.Send? then {e.t} else {}))
  }

  /** Not a timeout or a reset. */
  predicate Calls(e: Event) {
    e.Send? || e.Recv?
  }

  lemma {:induction false} RunWoken(s: State, es: seq<Event>, rs: seq<Outcome>, s': State)
    requires Inv(s) && Run(s, es, rs, s')
    ensures s'.recv.woken == ReceiversComing(s, es, s.recv.woken)
    ensures s'.send.woken == SendersComing(s, es, s.send.woken)
    decreases |es|
  {
    hide Inv, Apply, Allowed, Answer, OnTheWay, Calls;
    if es != [] {
      StepKeeps(s, es[0]);
      WokenStep(s, es[0]);
      RunWoken(Apply(s, es[0]), es[1..], rs[1..], s');
    }
  }

  lemma WokenStep(s: State, e: Event)
    requires Inv(s) && Allowed(s, e)
    ensures var u := Apply(s, e);
            && u.recv.woken == OnTheWay(s.recv.waiters, u.recv.waiters, s.recv.woken, Calls(e), if e.Recv? then {e.t} else {})
            && u.send.woken == OnTheWay(s.send.waiters, u.send.waiters, s.send.woken, Calls(e), if e.Send? then {e.t} else {})
  {
    SameWay(s.recv);
    SameWay(s.send);
    match e {
      case Send(t, v, wait, j) =>
        RanWay(s.send, t);
        JoinedWay(s.send, j, t);
        GrantedWay(s.recv);
      case Recv(t, wait, j) =>
        RanWay(s.recv, t);
        JoinedWay(s.recv, j, t);
        GrantedWay(s.send);
      case _ =>
    }
  }

  /** No receiver sleeps through a mail: while one is suspended, the mails are at
      most as many as the woken receivers that have not run yet; and dually for senders
      and slots. */
  lemma NoReceiverForgotten(size: nat, es: seq<Event>, rs: seq<Outcome>, s: State)
    requires Run(Initial(size), es, rs, s)
    ensures s.recv.waiters != [] ==> |ReceiversComing(Initial(size), es, {})| >= |s.queue|
    ensures s.send.waiters != [] ==> |SendersComing(Initial(size), es, {})| >= s.size - |s.queue|
    ensures forall t :: t in s.recv.waiters ==> t !in ReceiversComing(Initial(size), es, {})
    ensures forall t :: t in s.send.waiters ==> t !in SendersComing(Initial(size), es, {})
  {
    RunKeeps(Initial(size), es, rs, s);
    RunWoken(Initial(size), es, rs, s);
  }

  // ---- the mails, counted from the calls and their answers alone -----------------------

  /** The mails whose send was answered with RT_EOK since the last reset, in order, behind
      those in acc. */
  ghost function Sent(es: seq<Event>, rs: seq<Outcome>, acc: seq<Mail>): seq<Mail>
    requires |es| == |rs|
  {
    if es == [] then acc
    else
      Sent(es[1..], rs[1..],
           if es[0].Reset? then [] else if es[0].Send? && rs[0] == Done then acc + [es[0].v] else acc)
  }

  /** The mails that were received. */
  ghost function Received(es: seq<Event>, rs: seq<Outcome>, acc: seq<Mail>): seq<Mail>
    requires |es| == |rs|
  {
    if es == [] then acc
    else Received(es[1..], rs[1..], if es[0].Reset? then [] else if rs[0].Got? then acc + [rs[0].v] else acc)
  }

  lemma {:induction false} SentReceived(s: State, es: seq<Event>, rs: seq<Outcome>, s': State, a: seq<Mail>, b: seq<Mail>)
    requires Run(s, es, rs, s') && |rs| == |es| && a == b + s.queue
    ensures Sent(es, rs, a) == Received(es, rs, b) + s'.queue
    decreases |es|
  {
    if es != [] {
      var e, r, u := es[0], rs[0], Apply(s, es[0]);
      var a' := if e.Reset? then [] else if e.Send? && r == Done then a + [e.v] else a;
      var b' := if e.Reset? then [] else if r.Got? then b + [r.v] else b;
      assert a' == b' + u.queue;
      SentReceived(u, es[1..], rs[1..], s', a', b');
    }
  }

  /** Over every run: what was sent is what was received, in that order, followed by what
      is stored; none is lost or doubled. */
  lemma MailsInOrder(size: nat, es: seq<Event>, rs: seq<Outcome>, s: State)
    requires Run(Initial(size), es, rs, s)
    ensures |rs| == |es| && Sent(es, rs, []) == Received(es, rs, []) + s.queue
    ensures s.size == size && |Sent(es, rs, [])| - |Received(es, rs, [])| <= size
  {
    RunKeeps(Initial(size), es, rs, s);
    SentReceived(Initial(size), es, rs, s, [], []);
  }

  /** So the calls so far and their answers decide the next answer: a send succeeds exactly
      while fewer than size mails are under way, a receive gives the first that is. */
  lemma NextAnswer(size: nat, es: seq<Event>, rs: seq<Outcome>, s: State, e: Event)
    requires Run(Initial(size), es, rs, s) && Allowed(s, e)
    ensures |rs| == |es|
    ensures var sent, received, r := Sent(es, rs, []), Received(es, rs, []), Answer(s, e);
            && |received| <= |sent| <= |received| + size
            && (e.Send? ==> r == if |sent| < |received| + size then Done else if e.wait then Blocked else Refused)
            && (e.Recv? ==> r == if |received| < |sent| then Got(sent[|received|]) else if e.wait then Blocked else Refused)
  {
    MailsInOrder(size, es, rs, s);
  }

  // ---- the C functions -----------------------------------------------------------------

  class Mailbox {
    const kernel: Kernel
    const receivers: WaitList     // parent.suspend_thread
    const senders: WaitList       // suspend_sender_thread
    const pool: array<Mail>       // msg_pool
    var entry: nat
    var inOffset: nat
    var outOffset: nat
    ghost var wokenRecv: set<Thread>
    ghost var wokenSend: set<Thread>

    ghost predicate Waits()
      reads this, kernel, kernel.lists
    {
      receivers.kernel == senders.kernel == kernel && Paired(receivers, senders)
    }

    ghost predicate Ring()
      reads this, pool
    {
      && pool.Length < UINT16 && entry <= pool.Length
      && (pool.Length == 0 ==> inOffset == outOffset == 0)
      && (pool.Length > 0 ==> outOffset < pool.Length && inOffset == At(outOffset, entry, pool.Length))
    }

    ghost predicate Valid()
      reads this, pool, kernel, kernel.lists
    {
      Waits() && Ring()
    }

    ghost function Queue(): seq<Mail>
      requires Ring()
      reads this, pool
    {
      RingQueue(pool[..], outOffset, entry)
    }

    ghost function Abs(): State
      requires Valid()
      reads this, pool, kernel, kernel.lists
    {
      State(pool.Length, Queue(), Line(receivers.Waiters(), wokenRecv), Line(senders.Waiters(), wokenSend))
    }

    /** rt_mb_init */
    constructor (system: Kernel, recvList: WaitList, sendList: WaitList, size: nat)
      requires recvList.kernel == sendList.kernel == system && recvList.list != sendList.list && size < UINT16
      requires recvList.Valid() && sendList.Valid() && recvList.Waiters() == sendList.Waiters() == []
      ensures Valid() && Abs() == Initial(size) && fresh(pool)
    {
      hide Kernel.Valid;
      kernel, receivers, senders := system, recvList, sendList;
      pool := new Mail[size];
      entry, inOffset, outOffset := 0, 0, 0;
      wokenRecv, wokenSend := {}, {};
    }

    /** The ring part of a send. */
    method Put(v: Mail)
      requires Ring() && entry < pool.Length
      modifies `entry, `inOffset, pool
      ensures Ring() && Queue() == old(Queue()) + [v]
    {
      RingPut(pool[..], outOffset, entry, v);
      ghost var p := pool[..];
      pool[inOffset] := v;
      assert pool[..] == p[inOffset := v];
      inOffset := inOffset + 1;
      if inOffset >= pool.Length {
        inOffset := 0;
      }
      entry := entry + 1;
    }

    /** The ring part of a receive. */
    method Get() returns (v: Mail)
      requires Ring() && entry > 0
      modifies `entry, `outOffset
      ensures Ring() && old(Queue()) == [v] + Queue()
    {
      RingGet(pool[..], outOffset, entry);
      v := pool[outOffset];
      outOffset := outOffset + 1;
      if outOffset >= pool.Length {
        outOffset := 0;
      }
      entry := entry - 1;
    }

    /** One pass through the loop of rt_mb_send_wait by the running thread, which
        resumes when it has slept before. */
    method Send(v: Mail, timeout: int, resumes: bool) returns (r: Outcome, ghost j: nat)
      requires Valid() && (timeout != 0 ==> kernel.current in kernel.stat && kernel.stat[kernel.current].Running?)
      modifies this, pool, kernel, kernel.lists
      ensures Valid() && kernel.current == old(kernel.current) && j <= |old(Abs()).send.waiters|
      ensures (Abs(), r) == SendStep(old(Abs()), kernel.current, v, timeout != 0, j)
      ensures r == Blocked ==> kernel.current in kernel.prio
      ensures r == Blocked ==> j == Place(old(Abs()).send.waiters, kernel.prio, kernel.prio[kernel.current], senders.order)
      ensures r == Blocked ==> (kernel.current in kernel.armed <==> timeout > 0)
      ensures kernel.error ==
              if r == Done || (r == Refused && !resumes) then old(kernel.error) else old(kernel.error)[kernel.current := Ok]
    {
      hide Kernel.Valid, RingQueue, At, Place, InsertAt;
      senders.Facts();
      j := 0;
      wokenSend := wokenSend - {kernel.current};
      if entry == pool.Length {
        if timeout == 0 && !resumes { r := Refused; return; }
        kernel.SetError(kernel.current, Ok);
        if timeout == 0 { r := Refused; return; }
        j := BlockOn(senders, receivers, timeout);
        r := Blocked;
        return;
      }
      r := Done;
      Put(v);
      ghost var w := WakeOne(receivers, senders);
      wokenRecv := wokenRecv + w;
    }

    /** One pass through the loop of rt_mb_recv. */
    method Recv(timeout: int, resumes: bool) returns (r: Outcome, ghost j: nat)
      requires Valid() && (timeout != 0 ==> kernel.current in kernel.stat && kernel.stat[kernel.current].Running?)
      modifies this, pool, kernel, kernel.lists
      ensures Valid() && kernel.current == old(kernel.current) && j <= |old(Abs()).recv.waiters|
      ensures (Abs(), r) == RecvStep(old(Abs()), kernel.current, timeout != 0, j)
      ensures r == Blocked ==> kernel.current in kernel.prio
      ensures r == Blocked ==> j == Place(old(Abs()).recv.waiters, kernel.prio, kernel.prio[kernel.current], receivers.order)
      ensures r == Blocked ==> (kernel.current in kernel.armed <==> timeout > 0)
      ensures kernel.error ==
              if r.Got? || (r == Refused && !resumes) then old(kernel.error)
              else old(kernel.error)[kernel.current := if r == Refused then Timeout else Ok]
    {
      hide Kernel.Valid, RingQueue, At, Place, InsertAt;
      receivers.Facts();
      j := 0;
      wokenRecv := wokenRecv - {kernel.current};
      if entry == 0 {
        if timeout == 0 && !resumes { r := Refused; return; }
        kernel.SetError(kernel.current, Ok);
        if timeout == 0 {
          kernel.SetError(kernel.current, Timeout);
          r := Refused;
          return;
        }
        j := BlockOn(receivers, senders, timeout);
        r := Blocked;
        return;
      }
      var v := Get();
      r := Got(v);
      ghost var w := WakeOne(senders, receivers);
      wokenSend := wokenSend + w;
    }

    /** A timeout of a thread that waits on either list. */
    method Expire(t: Thread)
      requires Valid() && t in kernel.armed
      modifies kernel, kernel.lists
      ensures Valid() && Abs() == ExpireStep(old(Abs()), t) && kernel.error == old(kernel.error)[t := Timeout]
    {
      hide Kernel.Valid, RingQueue, At;
      ExpireEither(receivers, senders, t);
    }

    /** rt_mb_control, RT_IPC_CMD_RESET, up to its rt_schedule. */
    method Reset()
      requires Valid()
      modifies this, kernel, kernel.lists
      ensures Valid() && Abs() == ResetStep(old(Abs()))
      ensures kernel.error.Keys == old(kernel.error).Keys
      ensures var s := old(Abs()); forall t :: t in kernel.error ==>
                kernel.error[t] == (if t in s.recv.waiters || t in s.send.waiters then Error else old(kernel.error)[t])
    {
      hide Kernel.Valid, At;
      WakeBoth(receivers, senders);
      entry, inOffset, outOffset := 0, 0, 0;
      RingStart();
    }

    lemma RingStart()
      requires pool.Length < UINT16 && entry == 0 && inOffset == 0 && outOffset == 0
      ensures Ring() && Queue() == []
    {
    }
  }
}
