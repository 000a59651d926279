/** mempool.c: fixed-size blocks on a free chain. */
module MemPools {
  // The chain runs through the block headers; threads wait when it is empty.

  import opened Chains
  import opened Kernel
  import opened Lists
  import opened Rings
  import opened Waiting

  const ALIGN: nat := 4          // RT_ALIGN_SIZE
  const LINK_SIZE: nat := 4        // sizeof(rt_uint8_t *)

  /** A block, by its place in the pool. */
  type Block = nat

  /** What a call is answered; those that cannot fail with Done. */
  datatype Outcome = Got(b: Block) | Refused | Blocked | Done

  /** The word before a block: the next free block, or the pool it belongs to while
      it is handed out. */
  datatype Header = Link(next: Option<Block>) | Owner

  // ---- the layout -----------------------------------------------------------------

  function AlignUp(n: nat): nat {
    (n + ALIGN - 1) / ALIGN * ALIGN
  }

  function AlignDown(n: nat): nat {
    n / ALIGN * ALIGN
  }

  /** block_total_count */
  function Count(size: nat, blockSize: nat): nat {
    AlignDown(size) / (AlignUp(blockSize) + LINK_SIZE)
  }

  /** The data of block b starts here, behind its header. */
  function Address(blockSize: nat, b: Block): nat {
    b * (AlignUp(blockSize) + LINK_SIZE) + LINK_SIZE
  }

  lemma MulOrder(a: nat, b: nat, k: nat)
    requires a < b
    ensures a * k + k <= b * k
  {
    var d := b - a;
    assert b == a + d && (a + d) * k == a * k + d * k;
    assert (d - 1) * k >= 0;
  }

  lemma Rounding(n: nat)
    ensures n <= AlignUp(n) && AlignUp(n) % ALIGN == 0 && AlignDown(n) <= n
  {
  }

  lemma Divided(n: nat, k: nat)
    requires k > 0
    ensures n / k * k <= n
  {
  }

  /** Blocks are aligned, at least as large as asked for, disjoint and inside. */
  lemma BlocksFit(size: nat, blockSize: nat, a: Block, b: Block)
    requires a < b < Count(size, blockSize)
    ensures Address(blockSize, a) + blockSize <= Address(blockSize, b) - LINK_SIZE
    ensures Address(blockSize, b) + blockSize <= size
    ensures Address(blockSize, a) % ALIGN == 0
  {
    hide AlignUp, AlignDown;
    var k := AlignUp(blockSize) + LINK_SIZE;
    Rounding(blockSize);
    Rounding(size);
    Divided(AlignDown(size), k);
    MulOrder(a, b, k);
    MulOrder(b, Count(size, blockSize), k);
    MulMod(a, k);
  }

  lemma MulMod(a: nat, k: nat)
    requires k % ALIGN == 0
    ensures (a * k) % ALIGN == 0
  {
    var q := k / ALIGN;
    assert a * k == (a * q) * ALIGN;
  }

  // ---- the transitions --------------------------------------------------------------

  datatype State = State(blocks: set<Block>, free: seq<Block>, out: set<Block>, line: Line)

  /** A pass through the loop of rt_mp_alloc; waiters queue at the front. */
  ghost function AllocStep(s: State, t: Thread, wait: bool): (State, Outcome) {
    if s.free != [] then
      (s.(free := s.free[1..], out := s.out + {s.free[0]}, line := Ran(s.line, t)), Got(s.free[0]))
    else if wait then (s.(line := Joined(s.line, 0, t)), Blocked)
    else (s.(line := Ran(s.line, t)), Refused)
  }

  /** rt_mp_free */
  ghost function FreeStep(s: State, b: Block): State {
    s.(free := [b] + s.free, out := s.out - {b}, line := Granted(s.line))
  }

  ghost function ExpireStep(s: State, t: Thread): State {
    s.(line := Left(s.line, t))
  }

  /** Each block is either chained or handed out, and no thread sleeps beside a
      free block nobody is coming for. */
  ghost predicate Inv(s: State) {
    && Distinct(s.free)
    && (forall b :: b in s.blocks <==> b in s.free || b in s.out)
    && (forall b :: b in s.free ==> b !in s.out)
    && NoLostWakeup(s.line, |s.free|)
  }

  lemma AllocKeeps(s: State, t: Thread, wait: bool)
    requires Inv(s) && (wait ==> t !in s.line.waiters)
    ensures Inv(AllocStep(s, t, wait).0)
    ensures var r := AllocStep(s, t, wait).1; r.Got? ==> r.b in s.blocks && r.b !in s.out
  {
    if s.free != [] {
      DistinctHead(s.free);
      TookKeeps(s.line, |s.free|, t);
    } else if wait {
      JoinedKeeps(s.line, 0, t);
    } else {
      GaveUpKeeps(s.line, t);
    }
  }

  lemma FreeKeeps(s: State, b: Block)
    requires Inv(s) && b in s.out
    ensures Inv(FreeStep(s, b))
  {
    DistinctPush(s.free, b);
    GrantedKeeps(s.line, |s.free|);
  }

  lemma ExpireKeeps(s: State, t: Thread)
    requires Inv(s)
    ensures Inv(ExpireStep(s, t))
  {
    LeftKeeps(s.line, |s.free|, t);
  }

  /** An allocation and a release undo each other, in either order: the block given back
      last is the next one given out. */
  lemma AllocFreeUndo(s: State, t: Thread, wait: bool, b: Block)
    requires Inv(s)
    ensures b in s.out ==>
              var s', r := AllocStep(FreeStep(s, b), t, wait).0, AllocStep(FreeStep(s, b), t, wait).1;
              r == Got(b) && s'.free == s.free && s'.out == s.out
    ensures AllocStep(s, t, wait).1 == Got(b) ==>
              var s' := FreeStep(AllocStep(s, t, wait).0, b); s'.free == s.free && s'.out == s.out
  {
    if b in s.out {
      assert ([b] + s.free)[1..] == s.free && s.out - {b} + {b} == s.out;
    }
    if AllocStep(s, t, wait).1 == Got(b) {
      assert [s.free[0]] + s.free[1..] == s.free && s.out + {b} - {b} == s.out;
    }
  }

  /** Of the waiting threads the one that came last is woken first, and the others keep
      their places. */
  lemma NewestFirst(s: State, t: Thread, b: Block)
    requires s.free == []
    ensures var s' := FreeStep(AllocStep(s, t, true).0, b);
            s'.line.waiters == s.line.waiters && t in s'.line.woken
  {
    assert InsertAt(s.line.waiters, 0, t) == [t] + s.line.waiters;
  }

  datatype Event = Alloc(t: Thread, wait: bool) | Free(b: Block) | Expire(t: Thread)

  ghost predicate Allowed(s: State, e: Event) {
    match e
    case Alloc(t, wait) => wait ==> t !in s.line.waiters
    case Free(b) => b in s.out
    case Expire(_) => true
  }

  ghost function Apply(s: State, e: Event): State {
    match e
    case Alloc(t, wait) => AllocStep(s, t, wait).0
    case Free(b) => FreeStep(s, b)
    case Expire(t) => ExpireStep(s, t)
  }

  ghost function Answer(s: State, e: Event): Outcome {
    if e.Alloc? then AllocStep(s, e.t, e.wait).1 else Done
  }

  /** The events es, answered with rs, lead from s to s'. */
  ghost predicate Run(s: State, es: seq<Event>, rs: seq<Outcome>, s': State)
    decreases |es|
  {
    if es == [] then rs == [] && s' == s
    else rs != [] && Allowed(s, es[0]) && rs[0] == Answer(s, es[0]) && Run(Apply(s, es[0]), es[1..], rs[1..], s')
  }

  lemma StepKeeps(s: State, e: Event)
    requires Inv(s) && Allowed(s, e)
    ensures Inv(Apply(s, e)) && Apply(s, e).blocks == s.blocks
  {
    match e {
      case Alloc(t, wait) => AllocKeeps(s, t, wait);
      case Free(b) => FreeKeeps(s, b);
      case Expire(t) => ExpireKeeps(s, t);
    }
  }

  /** In every interleaving of allocations, releases and timeouts: the free count
      is what is not handed out, and while a thread waits the woken ones that have
      not run number at least the free blocks. */
  lemma {:induction false} RunKeeps(s: State, es: seq<Event>, rs: seq<Outcome>, s': State)
    requires Inv(s) && Run(s, es, rs, s')
    ensures Inv(s') && s'.blocks == s.blocks && |rs| == |es|
    ensures |s'.free| + |s'.out| == |s'.blocks|
    ensures s'.line.waiters != [] ==> |s'.line.woken| >= |s'.free|
    decreases |es|
  {
    if es == [] {
      DistinctCount(s.free);
      Disjoint3(Members(s.free), s.out, {});
      assert s.blocks == Members(s.free) + s.out + {};
    } else {
      StepKeeps(s, es[0]);
      RunKeeps(Apply(s, es[0]), es[1..], rs[1..], s');
    }
  }

  /** Who was woken and has not run since, told from the suspend list. */
  ghost function Coming(s: State, es: seq<Event>, w: set<Thread>): set<Thread>
    decreases |es|
  {
    if es == [] then w
    else
      var e, u := es[0], Apply(s, es[0]);
      Coming(u, es[1..], OnTheWay(s.line.waiters, u.line.waiters, w, !e.Expire?, if e.Alloc? then {e.t} else {}))
  }

  lemma {:induction false} RunWoken(s: State, es: seq<Event>, rs: seq<Outcome>, s': State)
    requires Inv(s) && Run(s, es, rs, s')
    ensures s'.line.woken == Coming(s, es, s.line.woken)
    decreases |es|
  {
    hide Inv, Apply, Allowed, Answer, OnTheWay;
    if es != [] {
      StepKeeps(s, es[0]);
      WokenStep(s, es[0]);
      RunWoken(Apply(s, es[0]), es[1..], rs[1..], s');
    }
  }

  lemma WokenStep(s: State, e: Event)
    requires Inv(s) && Allowed(s, e)
    ensures var u := Apply(s, e);
            u.line.woken == OnTheWay(s.line.waiters, u.line.waiters, s.line.woken, !e.Expire?, if e.Alloc? then {e.t} else {})
  {
    match e {
      case Alloc(t, wait) =>
        RanWay(s.line, t);
        JoinedWay(s.line, 0, t);
      case Free(b) => GrantedWay(s.line);
      case Expire(t) =>
    }
  }

  /** While a thread waits, those taken off the list that have not run since number at
      least the free blocks. */
  lemma NobodyForgotten(s: State, es: seq<Event>, rs: seq<Outcome>, s': State)
    requires Inv(s) && s.line.woken == {} && Run(s, es, rs, s')
    ensures s'.line.waiters != [] ==> |Coming(s, es, {})| >= |s'.free|
    ensures forall t :: t in s'.line.waiters ==> t !in Coming(s, es, {})
  {
    RunKeeps(s, es, rs, s');
    RunWoken(s, es, rs, s');
  }

  /** The blocks given out and not given back, counted from the calls and their answers. */
  ghost function Out(es: seq<Event>, rs: seq<Outcome>, out: set<Block>): set<Block>
    requires |es| == |rs|
  {
    if es == [] then out
    else Out(es[1..], rs[1..], if es[0].Free? then out - {es[0].b} else if rs[0].Got? then out + {rs[0].b} else out)
  }

  lemma {:induction false} RunOut(s: State, es: seq<Event>, rs: seq<Outcome>, s': State)
    requires Run(s, es, rs, s')
    ensures |rs| == |es| && s'.out == Out(es, rs, s.out)
    decreases |es|
  {
    if es != [] { RunOut(Apply(s, es[0]), es[1..], rs[1..], s'); }
  }

  /** So they decide the next answer: an allocation gets a block, one that is not out,
      exactly while one is not out. */
  lemma NextAnswer(s: State, es: seq<Event>, rs: seq<Outcome>, s': State, e: Event)
    requires Inv(s) && Run(s, es, rs, s') && e.Alloc?
    ensures |rs| == |es|
    ensures var out, r := Out(es, rs, s.out), Answer(s', e);
            && out <= s.blocks
            && if out != s.blocks then r.Got? && r.b in s.blocks && r.b !in out
               else r == if e.wait then Blocked else Refused
  {
    RunKeeps(s, es, rs, s');
    RunOut(s, es, rs, s');
    if s'.free != [] { assert s'.free[0] in s'.free; }
  }

  // ---- the C functions ----------------------------------------------------------------

  ghost function Links(header: map<Block, Header>): map<Block, Option<Block>> {
    map b | b in header :: if header[b].Link? then header[b].next else None
  }

  ghost function HandedOut(header: map<Block, Header>): set<Block> {
    set b | b in header && header[b].Owner?
  }

  class MemPool {
    const queue: WaitList
    var header: map<Block, Header>
    var blockList: Option<Block>
    var freeCount: nat
    ghost var free: seq<Block>
    ghost var woken: set<Thread>

    ghost predicate Blocks()
      reads `header, `blockList, `freeCount, `free
    {
      && Chain(Links(header), blockList, free) && Distinct(free)
      && (forall b :: b in free ==> b in header && header[b].Link?)
      && (forall b :: b in header && b !in free ==> header[b].Owner?)
      && freeCount == |free|
    }

    ghost predicate Valid()
      reads this, queue, queue.kernel, queue.kernel.lists
    {
      queue.Valid() && Blocks()
    }

    ghost function Abs(): State
      requires Wait(queue.list) in queue.kernel.lists.contents
      reads this, queue, queue.kernel, queue.kernel.lists
    {
      State(header.Keys, free, HandedOut(header), Line(queue.Waiters(), woken))
    }

    /** rt_mp_init; a pool too small for one block would write before its start. */
    constructor (list: WaitList, size: nat, blockSize: nat)
      requires list.Valid() && list.Waiters() == [] && Count(size, blockSize) > 0
      ensures Valid() && freeCount == |header| == Count(size, blockSize)
      ensures forall b: Block :: b in header <==> b < Count(size, blockSize)
      ensures Inv(Abs()) && Abs().out == {} && Abs().line == Line([], {})
    {
      hide Kernel.Valid;
      queue := list;
      header, blockList, freeCount := map[], None, 0;
      free, woken := [], {};
      new;
      BuildChain(Count(size, blockSize));
      assert forall b :: b in header ==> header[b].Link?;
    }

    method BuildChain(n: nat)
      requires n > 0 && header == map[]
      modifies `header, `blockList, `freeCount, `free
      ensures Blocks() && freeCount == |header| == n && forall b :: b in header <==> b in free
      ensures forall b: Block :: b in header <==> b < n
    {
      var offset: Block := 0;
      freeCount := n;
      while offset < n
        invariant offset <= n && freeCount == n && (forall b: Block :: b in header <==> b < offset)
        invariant forall b :: 0 <= b < offset ==> header[b] == Link(Some(b + 1))
      {
        header := header[offset := Link(Some(offset + 1))];
        offset := offset + 1;
      }
      header := header[offset - 1 := Link(None)];
      blockList := Some(0);
      free := seq(n, i => i);
      ChainBuilt(n);
    }

    lemma ChainBuilt(n: nat)
      requires n > 0 && free == seq(n, i => i) && blockList == Some(0) && freeCount == n
      requires forall b: Block :: b in header <==> b < n
      requires forall b: Block :: b < n ==> header[b] == Link(if b + 1 < n then Some(b + 1) else None)
      ensures Blocks() && |header| == n && forall b :: b in header <==> b in free
    {
      forall b: Block | b < n ensures b in free { assert free[b] == b; }
      forall i | 0 <= i < n ensures Follows(Links(header), free, i) { }
      DistinctCount(free);
      assert Members(free) == header.Keys;
    }

    /** A pass through the loop of rt_mp_alloc, up to where interrupts are enabled. */
    method Alloc(time: int) returns (r: Outcome)
      requires Valid()
      requires time != 0 ==> queue.kernel.current in queue.kernel.stat && queue.kernel.stat[queue.kernel.current].Running?
      modifies this, queue.kernel, queue.kernel.lists
      ensures Valid() && queue.kernel.current == old(queue.kernel.current)
      ensures Wait(queue.list) in old(queue.kernel.lists.contents)
      ensures (Abs(), r) == AllocStep(old(Abs()), queue.kernel.current, time != 0)
      ensures r == Blocked ==> (queue.kernel.current in queue.kernel.armed <==> time > 0)
      ensures queue.kernel.error ==
              if r == Blocked then old(queue.kernel.error)[queue.kernel.current := Ok] else old(queue.kernel.error)
    {
      hide Kernel.Valid, Blocks, OnlyWait;
      queue.Facts();
      CountIs();
      woken := woken - {queue.kernel.current};
      if freeCount == 0 {
        if time == 0 { return Refused; }
        queue.kernel.SetError(queue.kernel.current, Ok);
        queue.BlockFront(time);
        assert InsertAt(old(queue.Waiters()), 0, queue.kernel.current) == [queue.kernel.current] + old(queue.Waiters());
        return Blocked;
      }
      var b := Pop();
      r := Got(b);
    }

    /** The rt_set_errno of a refused allocation, with interrupts enabled: in thread
        context it is the error of the running thread. */
    method Refuse(nested: bool)
      requires Valid()
      modifies queue.kernel
      ensures Valid() && Wait(queue.list) in old(queue.kernel.lists.contents) && Abs() == old(Abs())
      ensures queue.kernel.error ==
              if nested then old(queue.kernel.error) else old(queue.kernel.error)[queue.kernel.current := Timeout]
    {
      hide Kernel.Valid, Blocks, OnlyWait;
      queue.Facts();
      if !nested { queue.kernel.SetError(queue.kernel.current, Timeout); }
    }

    lemma CountIs()
      requires Blocks()
      ensures freeCount == |free|
    {
    }

    method Pop() returns (b: Block)
      requires Blocks() && free != []
      modifies `header, `blockList, `freeCount, `free
      ensures Blocks() && b == old(free)[0] && free == old(free)[1..] && header.Keys == old(header).Keys
      ensures HandedOut(header) == HandedOut(old(header)) + {b}
    {
      hide Chain;
      ChainPop(Links(header), blockList, free);
      DistinctHead(free);
      ghost var h := header;
      freeCount := freeCount - 1;
      b := blockList.value;
      blockList := header[b].next;
      header := header[b := Owner];
      free := free[1..];
      ChainFrame(Links(h), Links(header), blockList, free);
    }

    /** rt_mp_free of a block of this pool, or of NULL, up to its rt_schedule. */
    method Free(block: Option<Block>)
      requires Valid() && (block.Some? ==> block.value in header && header[block.value].Owner?)
      modifies this, queue.kernel, queue.kernel.lists
      ensures Valid() && Wait(queue.list) in old(queue.kernel.lists.contents)
      ensures block == None ==> Abs() == old(Abs()) && queue.kernel.error == old(queue.kernel.error)
      ensures block.Some? ==> Abs() == FreeStep(old(Abs()), block.value)
      ensures var s := old(queue.Waiters());
              queue.kernel.error == if block == None || s == [] then old(queue.kernel.error)
                                    else old(queue.kernel.error)[s[0] := Ok]
    {
      hide Kernel.Valid, Blocks, FreeStep;
      if block == None { return; }
      GiveBack(block.value);
    }

    method GiveBack(b: Block)
      requires Valid() && b in header && header[b].Owner?
      modifies this, queue.kernel, queue.kernel.lists
      ensures Valid() && Wait(queue.list) in old(queue.kernel.lists.contents)
      ensures Abs() == FreeStep(old(Abs()), b)
      ensures var s := old(queue.Waiters()); s == [] ==> queue.kernel.error == old(queue.kernel.error)
      ensures var s := old(queue.Waiters()); s != [] ==> queue.kernel.error == old(queue.kernel.error)[s[0] := Ok]
    {
      hide Kernel.Valid, Blocks, OnlyWait;
      queue.Facts();
      Push(b);
      var empty := queue.IsEmpty();
      if !empty {
        queue.Facts();
        assert queue.Waiters()[0] in queue.Waiters();
        var t := queue.WakeFirst();
        queue.kernel.SetError(t, Ok);
        woken := woken + {t};
      }
    }

    method Push(b: Block)
      requires Blocks() && b in header && header[b].Owner?
      modifies `header, `blockList, `freeCount, `free
      ensures Blocks() && free == [b] + old(free) && header.Keys == old(header).Keys
      ensures HandedOut(header) == HandedOut(old(header)) - {b}
    {
      hide Chain;
      assert b !in free;
      ChainPush(Links(header), blockList, free, b);
      DistinctPush(free, b);
      ghost var links := Links(header)[b := blockList];
      freeCount := freeCount + 1;
      header := header[b := Link(blockList)];
      blockList := Some(b);
      free := [b] + free;
      assert Links(header) == links;
    }

    method Expire(t: Thread)
      requires Valid() && t in queue.kernel.armed
      modifies queue.kernel, queue.kernel.lists
      ensures Valid() && Wait(queue.list) in old(queue.kernel.lists.contents)
      ensures Abs() == ExpireStep(old(Abs()), t)
      ensures queue.kernel.error == old(queue.kernel.error)[t := Timeout]
    {
      hide Kernel.Valid, Blocks, WaitsLose;
      queue.Expire(t);
    }
  }
}
