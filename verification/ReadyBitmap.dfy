/** The index of non-empty ready queues: __rt_ffs of kservice.c over one 32-bit
    word, and the two-level table the scheduler keeps when more than 32
    priorities are configured. */
module ReadyBitmap {

  /** One row of __lowest_bit_bitmap; rows differ in their first column only. */
  function Row(first: bv8, column: bv8): bv8 {
    match column
    case 0x0 => first
    case 0x1 => 0 case 0x2 => 1 case 0x3 => 0
    case 0x4 => 2 case 0x5 => 0 case 0x6 => 1 case 0x7 => 0
    case 0x8 => 3 case 0x9 => 0 case 0xa => 1 case 0xb => 0
    case 0xc => 2 case 0xd => 0 case 0xe => 1 case _ => 0
  }

  /** __lowest_bit_bitmap[v] */
  function LowestBit(v: bv8): bv8 {
    var c := v & 0xf;
    match v >> 4
    case 0x0 => Row(0, c) case 0x1 => Row(4, c) case 0x2 => Row(5, c) case 0x3 => Row(4, c)
    case 0x4 => Row(6, c) case 0x5 => Row(4, c) case 0x6 => Row(5, c) case 0x7 => Row(4, c)
    case 0x8 => Row(7, c) case 0x9 => Row(4, c) case 0xa => Row(5, c) case 0xb => Row(4, c)
    case 0xc => Row(6, c) case 0xd => Row(4, c) case 0xe => Row(5, c) case _ => Row(4, c)
  }

  /** __rt_ffs */
  function Ffs(value: bv32): bv8 {
    if value == 0 then 0
    else if value & 0xff != 0 then LowestBit((value & 0xff) as bv8) + 1
    else if value & 0xff00 != 0 then LowestBit(((value & 0xff00) >> 8) as bv8) + 9
    else if value & 0xff0000 != 0 then LowestBit(((value & 0xff0000) >> 16) as bv8) + 17
    else LowestBit(((value & 0xff000000) >> 24) as bv8) + 25
  }

  lemma TableCorrect(v: bv8)
    requires v != 0
    ensures LowestBit(v) < 8
    ensures v & (1 << LowestBit(v)) != 0 && v & ((1 << LowestBit(v)) - 1) == 0
  {
    if v & 1 != 0 { assert LowestBit(v) == 0; }
    else if v & 2 != 0 { assert LowestBit(v) == 1; }
    else if v & 4 != 0 { assert LowestBit(v) == 2; }
    else if v & 8 != 0 { assert LowestBit(v) == 3; }
    else if v & 16 != 0 { assert LowestBit(v) == 4; }
    else if v & 32 != 0 { assert LowestBit(v) == 5; }
    else if v & 64 != 0 { assert LowestBit(v) == 6; }
  }

  /** __rt_ffs finds the least significant set bit, counted from one. */
  lemma FfsCorrect(v: bv32)
    ensures v == 0 <==> Ffs(v) == 0
    ensures v != 0 ==> 1 <= Ffs(v) <= 32 && v & (1 << (Ffs(v) - 1)) != 0 && v & ((1 << (Ffs(v) - 1)) - 1) == 0
  {
    hide LowestBit;
    if v & 0xff != 0 {
      TableCorrect((v & 0xff) as bv8);
    } else if v & 0xff00 != 0 {
      TableCorrect(((v & 0xff00) >> 8) as bv8);
    } else if v & 0xff0000 != 0 {
      TableCorrect(((v & 0xff0000) >> 16) as bv8);
    } else if v != 0 {
      TableCorrect(((v & 0xff000000) >> 24) as bv8);
    }
  }

  // ---- words as sets of bit numbers -------------------------------------------

  /** The byte with value p. */
  function Byte(p: nat): bv8
    requires p < 256
  {
    if p == 0 then 0 else Byte(p - 1) + 1
  }

  lemma {:induction false} ByteRoundTrip(p: nat)
    requires p < 256
    ensures Byte(p) as nat == p
  {
    if p > 0 {
      ByteRoundTrip(p - 1);
      NextByte(Byte(p - 1));
    }
  }

  lemma NextByte(b: bv8)
    requires b as nat < 255
    ensures (b + 1) as nat == b as nat + 1
  {
  }

  lemma ByteOrder(a: bv8, b: bv8)
    ensures a < b <==> a as nat < b as nat
  {
  }

  lemma ByteLess(p: nat, q: nat)
    requires p < 256 && q < 256
    ensures Byte(p) < Byte(q) <==> p < q
    ensures Byte(p) == Byte(q) <==> p == q
  {
    hide Byte;
    ByteRoundTrip(p);
    ByteRoundTrip(q);
    ByteOrder(Byte(p), Byte(q));
  }

  /** The three operations the scheduler performs with number_mask. */
  function One(b: bv8): bv32
    requires b < 32
  {
    1 << b
  }

  predicate Meets(w: bv32, x: bv32) {
    w & x != 0
  }

  function OrWord(w: bv32, x: bv32): bv32 {
    w | x
  }

  function AndNot(w: bv32, x: bv32): bv32 {
    w & !x
  }

  predicate Test(word: bv32, b: bv8)
    requires b < 32
  {
    Meets(word, One(b))
  }

  function Set(word: bv32, b: bv8): bv32
    requires b < 32
  {
    OrWord(word, One(b))
  }

  function Clear(word: bv32, b: bv8): bv32
    requires b < 32
  {
    AndNot(word, One(b))
  }

  /** 1 << p: thread->number_mask for priority p */
  function NumberMask(p: nat): bv32
    requires p < 32
  {
    if Byte(p) < 32 then One(Byte(p)) else 0
  }

  /** The two assignments to the ready group. */
  function WithBit(group: bv32, mask: bv32): bv32 {
    OrWord(group, mask)
  }

  function WithoutBit(group: bv32, mask: bv32): bv32 {
    AndNot(group, mask)
  }

  /** They add and remove one priority. */
  lemma MaskOps(word: bv32, p: nat, q: nat)
    requires p < 32 && q < 32
    ensures Bit(WithBit(word, NumberMask(p)), q) <==> q == p || Bit(word, q)
    ensures Bit(WithoutBit(word, NumberMask(p)), q) <==> q != p && Bit(word, q)
  {
    hide Byte, NumberMask, WithBit, WithoutBit, Set, Clear, Test, Bit;
    MaskIs(word, p);
    BitAfter(word, p, q);
  }

  lemma MaskIs(word: bv32, p: nat)
    requires p < 32
    ensures Byte(p) < 32
    ensures WithBit(word, NumberMask(p)) == Set(word, Byte(p))
    ensures WithoutBit(word, NumberMask(p)) == Clear(word, Byte(p))
  {
    hide Byte, OrWord, AndNot, One;
    Below32(p);
  }

  lemma TestAfter(word: bv32, a: bv8, b: bv8)
    requires a < 32 && b < 32
    ensures Test(Set(word, a), b) <==> a == b || Test(word, b)
    ensures Test(Clear(word, a), b) <==> a != b && Test(word, b)
  {
    hide One, Meets, OrWord, AndNot;
    if a == b { TestSame(word, a); } else { TestDistinct(word, a, b); }
  }

  /** Two single-bit words meet only if they are the same. */
  lemma BitsMeet(a: bv8, b: bv8)
    requires a < 32 && b < 32
    ensures One(a) != 0 && (a != b ==> One(a) & One(b) == 0)
  {
  }

  lemma ApartWords(w: bv32, x: bv32, y: bv32)
    requires x & y == 0
    ensures (w | x) & y == w & y && (w & !x) & y == w & y
  {
    hide *;
  }

  lemma JoinedApart(w: bv32, x: bv32, y: bv32)
    requires x & y == 0
    ensures Meets(OrWord(w, x), y) <==> Meets(w, y)
    ensures Meets(AndNot(w, x), y) <==> Meets(w, y)
  {
    ApartWords(w, x, y);
  }

  lemma JoinedSame(w: bv32, x: bv32)
    requires x != 0
    ensures Meets(OrWord(w, x), x) && !Meets(AndNot(w, x), x)
  {
  }

  lemma TestDistinct(word: bv32, a: bv8, b: bv8)
    requires a < 32 && b < 32 && a != b
    ensures Meets(OrWord(word, One(a)), One(b)) <==> Meets(word, One(b))
    ensures Meets(AndNot(word, One(a)), One(b)) <==> Meets(word, One(b))
  {
    hide One, Meets, OrWord, AndNot;
    BitsMeet(a, b);
    JoinedApart(word, One(a), One(b));
  }

  lemma TestSame(word: bv32, a: bv8)
    requires a < 32
    ensures Meets(OrWord(word, One(a)), One(a)) && !Meets(AndNot(word, One(a)), One(a))
  {
    hide One, Meets, OrWord, AndNot;
    BitsMeet(a, a);
    JoinedSame(word, One(a));
  }

  lemma TestFfs(word: bv32, b: bv8)
    requires b < 32
    ensures word == 0 ==> !Test(word, b)
    ensures word != 0 ==> 1 <= Ffs(word) <= 32 && Test(word, Ffs(word) - 1) && (Test(word, b) ==> Ffs(word) - 1 <= b)
  {
    hide Ffs, Test, Meets, One;
    FfsCorrect(word);
    TestIs(word, b);
    if word != 0 {
      TestIs(word, Ffs(word) - 1);
      if b < Ffs(word) - 1 { BelowClear(word, Ffs(word) - 1, b); }
    }
  }

  lemma TestIs(word: bv32, b: bv8)
    requires b < 32
    ensures Test(word, b) <==> word & (1 << b) != 0
    ensures word == 0 ==> !Test(word, b)
  {
  }

  lemma BelowClear(word: bv32, f: bv8, b: bv8)
    requires b < f < 32 && word & ((1 << f) - 1) == 0
    ensures word & (1 << b) == 0
  {
  }

  /** Bit p of a word, for a priority p. */
  ghost predicate Bit(word: bv32, p: nat)
    requires p < 32
  {
    Byte(p) < 32 && Test(word, Byte(p))
  }

  lemma Below32(p: nat)
    requires p < 32
    ensures Byte(p) < 32
  {
    ByteLess(p, 32);
    ByteUp(32);
  }

  lemma BitAfter(word: bv32, p: nat, q: nat)
    requires p < 32 && q < 32
    ensures Byte(p) < 32
    ensures Bit(Set(word, Byte(p)), q) <==> q == p || Bit(word, q)
    ensures Bit(Clear(word, Byte(p)), q) <==> q != p && Bit(word, q)
  {
    hide Byte, Test, Set, Clear;
    Below32(p);
    Below32(q);
    ByteLess(p, q);
    TestAfter(word, Byte(p), Byte(q));
  }

  lemma NoBit(q: nat)
    requires q < 32
    ensures !Bit(0, q)
  {
  }

  /** __rt_ffs(group) - 1 is the least set bit; group is 0 iff there is none. */
  lemma FfsLeast(word: bv32, q: nat)
    requires q < 32
    ensures word == 0 ==> !Bit(word, q)
    ensures word != 0 ==> var p := Ffs(word) as nat - 1; 0 <= p < 32 && Bit(word, p) && (Bit(word, q) ==> p <= q)
  {
    hide Byte, Test, Ffs;
    Below32(q);
    TestFfs(word, Byte(q));
    if word != 0 {
      var b := Ffs(word) - 1;
      PredByte(Ffs(word));
      ByteUp(b);
      ByteRoundTrip(q);
      ByteOrder(Byte(q), b);
    }
  }

  lemma PredByte(f: bv8)
    requires 1 <= f
    ensures f as nat >= 1 && (f - 1) as nat == f as nat - 1
  {
  }

  lemma ByteUp(b: bv8)
    ensures Byte(b as nat) == b
    ensures b < 32 ==> b as nat < 32
  {
    ByteOrder(b, 32);
    ByteRoundTrip(b as nat);
    ByteOrder(Byte(b as nat), b);
    ByteOrder(b, Byte(b as nat));
  }

  // ---- the table for up to 256 priorities ---------------------------------------

  /** The same operations with high_mask on one byte of the table. */
  predicate TestHigh(t: bv8, b: bv8)
    requires b < 8
  {
    t & (1 << b) != 0
  }

  function SetHigh(t: bv8, b: bv8): bv8
    requires b < 8
    ensures SetHigh(t, b) != 0
  {
    t | (1 << b)
  }

  function ClearHigh(t: bv8, b: bv8): bv8
    requires b < 8
    ensures t == 0 ==> ClearHigh(t, b) == 0
  {
    t & !(1 << b)
  }

  lemma TestHighAfter(t: bv8, a: bv8, b: bv8)
    requires a < 8 && b < 8
    ensures TestHigh(SetHigh(t, a), b) <==> a == b || TestHigh(t, b)
    ensures TestHigh(ClearHigh(t, a), b) <==> a != b && TestHigh(t, b)
  {
  }

  lemma TestHighFfs(t: bv8, b: bv8)
    requires b < 8
    ensures t == 0 ==> !TestHigh(t, b)
    ensures t != 0 ==> var f := Ffs(t as bv32); 1 <= f <= 8 && TestHigh(t, f - 1) && (TestHigh(t, b) ==> f - 1 <= b)
  {
    if t != 0 {
      assert (t as bv32) & 0xff != 0 && ((t as bv32) & 0xff) as bv8 == t;
      assert Ffs(t as bv32) == LowestBit(t) + 1;
      TableCorrect(t);
      if b < LowestBit(t) { BelowHighClear(t, LowestBit(t), b); }
    }
  }

  lemma BelowHighClear(t: bv8, f: bv8, b: bv8)
    requires b < f < 8 && t & ((1 << f) - 1) == 0
    ensures t & (1 << b) == 0
  {
  }

  /** Bit b of a byte of the table, b a number. */
  ghost predicate BitHigh(t: bv8, b: nat)
    requires b < 8
  {
    Byte(b) < 8 && TestHigh(t, Byte(b))
  }

  lemma Below8(b: nat)
    requires b < 8
    ensures Byte(b) < 8
  {
    ByteLess(b, 8);
    ByteUp(8);
  }

  lemma BitHighAfter(t: bv8, a: nat, b: nat)
    requires a < 8 && b < 8
    ensures Byte(a) < 8
    ensures BitHigh(SetHigh(t, Byte(a)), b) <==> a == b || BitHigh(t, b)
    ensures BitHigh(ClearHigh(t, Byte(a)), b) <==> a != b && BitHigh(t, b)
  {
    hide Byte, TestHigh, SetHigh, ClearHigh;
    Below8(a);
    Below8(b);
    ByteLess(a, b);
    TestHighAfter(t, Byte(a), Byte(b));
  }

  lemma BitHighFfs(t: bv8, b: nat)
    requires b < 8
    ensures t == 0 ==> !BitHigh(t, b)
    ensures t != 0 ==> var p := Ffs(t as bv32) as nat - 1; 0 <= p < 8 && BitHigh(t, p) && (BitHigh(t, b) ==> p <= b)
  {
    hide Byte, TestHigh, Ffs;
    Below8(b);
    TestHighFfs(t, Byte(b));
    if t != 0 {
      var f := Ffs(t as bv32);
      PredByte(f);
      ByteUp(f - 1);
      ByteOrder(f - 1, 8);
      ByteRoundTrip(b);
      ByteOrder(Byte(b), f - 1);
    }
  }

  /** thread->number; the exponent of thread->high_mask is p % 8. */
  function Number(p: nat): (n: nat)
    requires p < 256
    ensures n < 32
  {
    p / 8
  }

  /** Bit p is set in the table. */
  ghost predicate InTable(table: seq<bv8>, p: nat)
    requires |table| == 32 && p < 256
  {
    BitHigh(table[Number(p)], p % 8)
  }

  /** group names the bytes of the table that are not zero. */
  ghost predicate Indexed(group: bv32, table: seq<bv8>) {
    |table| == 32 && forall n: nat :: n < 32 ==> (Bit(group, n) <==> table[n] != 0)
  }

  ghost predicate Holds(table: seq<bv8>, ready: set<nat>)
    requires |table| == 32
  {
    && (forall p: nat :: p < 256 ==> (p in ready <==> InTable(table, p)))
    && (forall p :: p in ready ==> p < 256)
  }

  lemma TableAfter(t: seq<bv8>, p: nat, q: nat)
    requires |t| == 32 && p < 256 && q < 256
    ensures Byte(p % 8) < 8
    ensures InTable(t[Number(p) := SetHigh(t[Number(p)], Byte(p % 8))], q) <==> q == p || InTable(t, q)
    ensures InTable(t[Number(p) := ClearHigh(t[Number(p)], Byte(p % 8))], q) <==> q != p && InTable(t, q)
  {
    hide Byte, BitHigh, SetHigh, ClearHigh;
    BitHighAfter(t[Number(p)], p % 8, q % 8);
  }

  lemma InsertKeeps(group: bv32, table: seq<bv8>, ready: set<nat>, p: nat)
    requires Indexed(group, table) && Holds(table, ready) && p < 256
    ensures Byte(p % 8) < 8 && Byte(Number(p)) < 32
    ensures var t := table[Number(p) := SetHigh(table[Number(p)], Byte(p % 8))];
            Indexed(Set(group, Byte(Number(p))), t) && Holds(t, ready + {p})
  {
    hide Number, InTable, SetHigh, Bit, Set, Byte;
    TableAfter(table, p, p);
    Below32(Number(p));
    var i := Number(p);
    var t, g := table[i := SetHigh(table[i], Byte(p % 8))], Set(group, Byte(i));
    forall q: nat | q < 256 ensures InTable(t, q) <==> q == p || InTable(table, q) {
      TableAfter(table, p, q);
    }
    forall n: nat | n < 32 ensures Bit(g, n) <==> t[n] != 0 {
      BitAfter(group, i, n);
    }
  }

  lemma RemoveKeeps(group: bv32, table: seq<bv8>, ready: set<nat>, p: nat)
    requires Indexed(group, table) && Holds(table, ready) && p < 256
    ensures Byte(p % 8) < 8 && Byte(Number(p)) < 32
    ensures var b := ClearHigh(table[Number(p)], Byte(p % 8)); var t := table[Number(p) := b];
            Indexed(if b == 0 then Clear(group, Byte(Number(p))) else group, t) && Holds(t, ready - {p})
  {
    hide Number, InTable, ClearHigh, Bit, Clear, Byte;
    TableAfter(table, p, p);
    Below32(Number(p));
    var i := Number(p);
    var b := ClearHigh(table[i], Byte(p % 8));
    var t := table[i := b];
    forall q: nat | q < 256 ensures InTable(t, q) <==> q != p && InTable(table, q) {
      TableAfter(table, p, q);
    }
    forall n: nat | n < 32 ensures Bit(if b == 0 then Clear(group, Byte(i)) else group, n) <==> t[n] != 0 {
      BitAfter(group, i, n);
    }
  }

  /** __rt_ffs of the group and of a byte of the table, as places. */
  function First(word: bv32): nat {
    Ffs(word) as nat
  }

  function Lead(t: bv8): nat {
    Ffs(t as bv32) as nat
  }

  lemma FirstLeast(word: bv32, q: nat)
    requires q < 32
    ensures word == 0 ==> !Bit(word, q)
    ensures word != 0 ==>
              && 1 <= First(word) <= 32 && Bit(word, First(word) - 1)
              && (Bit(word, q) ==> First(word) - 1 <= q)
  {
    hide Ffs, Bit;
    FfsLeast(word, q);
  }

  lemma LeadLeast(t: bv8, b: nat)
    requires b < 8
    ensures t == 0 ==> !BitHigh(t, b)
    ensures t != 0 ==> 1 <= Lead(t) <= 8 && BitHigh(t, Lead(t) - 1) && (BitHigh(t, b) ==> Lead(t) - 1 <= b)
  {
    hide Ffs, BitHigh;
    BitHighFfs(t, b);
  }

  class TwoLevel {
    var group: bv32           // rt_thread_ready_priority_group
    var table: seq<bv8>       // rt_thread_ready_table
    ghost var ready: set<nat> // the priorities whose queue is not empty

    ghost predicate Valid()
      reads this
    {
      Indexed(group, table) && Holds(table, ready)
    }

    constructor ()
      ensures Valid() && ready == {}
    {
      hide Bit, BitHigh;
      group, table, ready := 0, seq(32, _ => 0), {};
      new;
      forall n: nat | n < 32 ensures !Bit(0, n) { NoBit(n); }
      forall p: nat | p < 256 ensures !InTable(table, p) {
        BitHighFfs(0, p % 8);
      }
    }

    /** The bitmap part of rt_schedule_insert_thread. */
    method Insert(p: nat)
      requires Valid() && p < 256
      modifies this
      ensures Valid() && ready == old(ready) + {p}
    {
      hide Indexed, Holds, Number, SetHigh, Set, Byte;
      InsertKeeps(group, table, ready, p);
      assert |table| == 32 by { TableSize(); }
      table := table[Number(p) := SetHigh(table[Number(p)], Byte(p % 8))];
      group := Set(group, Byte(Number(p)));
      ready := ready + {p};
    }

    /** The bitmap part of rt_schedule_remove_thread, once queue p is empty. */
    method Remove(p: nat)
      requires Valid() && p < 256
      modifies this
      ensures Valid() && ready == old(ready) - {p}
    {
      hide Indexed, Holds, Number, ClearHigh, Clear, Byte;
      RemoveKeeps(group, table, ready, p);
      TableSize();
      table := table[Number(p) := ClearHigh(table[Number(p)], Byte(p % 8))];
      if table[Number(p)] == 0 {
        group := Clear(group, Byte(Number(p)));
      }
      ready := ready - {p};
    }

    lemma TableSize()
      requires Valid()
      ensures |table| == 32
    {
    }

    /** The lookup of _get_highest_priority_thread: the least priority whose
        queue is not empty. */
    method Highest() returns (p: nat)
      requires Valid() && ready != {}
      ensures p in ready && forall q :: q in ready ==> p <= q
    {
      hide First, Lead, Bit, BitHigh, Indexed, Holds;
      ghost var some :| some in ready;
      SomeByte(some);
      FirstLeast(group, 0);
      var number := First(group) - 1;
      RowSet(number);
      LeadLeast(table[number], 0);
      var low := Lead(table[number]) - 1;
      p := number * 8 + low;
      InReady(number, low);
      forall q | q in ready ensures p <= q {
        SomeByte(q);
        FirstLeast(group, Number(q));
        LeadLeast(table[number], q % 8);
      }
    }

    lemma RowSet(n: nat)
      requires Valid() && n < 32 && Bit(group, n)
      ensures |table| == 32 && table[n] != 0
    {
      hide Bit, BitHigh;
    }

    lemma InReady(n: nat, b: nat)
      requires Valid() && n < 32 && b < 8 && |table| == 32 && BitHigh(table[n], b)
      ensures n * 8 + b in ready
    {
      hide Bit, BitHigh, Indexed;
      PlaceOf(n, b);
      assert InTable(table, n * 8 + b);
    }

    lemma SomeByte(q: nat)
      requires Valid() && q in ready
      ensures q < 256 && BitHigh(table[Number(q)], q % 8)
      ensures group != 0 && Bit(group, Number(q))
    {
      hide Bit, BitHigh, Number;
      assert InTable(table, q);
      BitHighFfs(table[Number(q)], q % 8);
      if group == 0 { NoBit(Number(q)); }
    }
  }

  lemma PlaceOf(n: nat, b: nat)
    requires n < 32 && b < 8
    ensures n * 8 + b < 256 && Number(n * 8 + b) == n && (n * 8 + b) % 8 == b
  {
  }
}
