/** pow2gt of cJSON.c, which sizes a grown print buffer. */
module PowerOfTwo {
  // The smearing of the bits of a 32-bit word finds the least power of two that is not
  // below a number.

  import opened Words

  function Smear(x: bv32): bv32 {
    var a := x | (x >> 1);
    var b := a | (a >> 2);
    var c := b | (b >> 4);
    var d := c | (c >> 8);
    d | (d >> 16)
  }

  function Pow2gt(x: bv32): bv32 {
    Smear(x - 1) + 1
  }

  const TOP: nat := 0x4000_0000       // 2^30
  const INT_MAX: nat := 0x7fff_ffff

  /** The least power of two that is not below n. */
  function Grown(n: nat, from: nat): (r: nat)
    requires 0 < from
    ensures r >= n && (from <= r) && (r == from || r / 2 < n)
    decreases n - from
  {
    if from >= n then from else Grown(n, 2 * from)
  }

  // ---- words and the numbers they stand for -------------------------------------------

  function Half(x: bv32): bv32 {
    x >> 1
  }

  function Up(h: bv32): bv32 {
    h << 1
  }

  function UpOne(h: bv32): bv32 {
    (h << 1) | 1
  }

  function PowWord(x: bv32): bool {
    x != 0 && x & (x - 1) == 0
  }

  function Nat(x: bv32): nat {
    x as nat
  }

  /** The int a word stands for. */
  function Signed(w: bv32): int {
    if w <= 0x7fff_ffff then Nat(w) else Nat(w) - 0x1_0000_0000
  }

  predicate Less(x: bv32, y: bv32) {
    x < y
  }

  lemma UpIs(h: bv32)
    requires h <= 0x7fff_ffff
    ensures Nat(Up(h)) == 2 * Nat(h) && Nat(UpOne(h)) == 2 * Nat(h) + 1
  {
    DoublingNat(h);
  }

  lemma HalfShape(x: bv32)
    ensures Half(x) <= 0x7fff_ffff && (x == Up(Half(x)) || x == UpOne(Half(x)))
  {
  }

  lemma OrderHalves(x: bv32, y: bv32)
    requires Less(x, y)
    ensures Less(Half(x), Half(y)) || Half(x) == Half(y)
  {
    HalvingKeepsOrder(x, y);
  }

  lemma UpBelow(h: bv32)
    requires h <= 0x7fff_ffff
    ensures !Less(UpOne(h), Up(h)) && !Less(Up(h), Up(h)) && !Less(UpOne(h), UpOne(h))
  {
  }

  lemma HalvesOrder(x: bv32, y: bv32)
    requires Less(x, y)
    ensures Less(Half(x), Half(y)) || (Half(x) == Half(y) && x == Up(Half(x)) && y == UpOne(Half(y)))
  {
    hide Half, Up, UpOne, Less;
    OrderHalves(x, y);
    HalfShape(x);
    HalfShape(y);
    UpBelow(Half(y));
  }

  lemma HalfNat(x: bv32)
    ensures Nat(Half(x)) == Nat(x) / 2
    ensures x == Up(Half(x)) ==> Nat(x) == 2 * Nat(Half(x))
    ensures x == UpOne(Half(x)) ==> Nat(x) == 2 * Nat(Half(x)) + 1
  {
    hide Half, Up, UpOne, Nat;
    HalfShape(x);
    UpIs(Half(x));
  }

  lemma SmallNat(x: bv32)
    ensures x == 0 ==> Nat(x) == 0
    ensures x == 1 ==> Nat(x) == 1
    ensures x != 0 ==> Nat(x) > 0
    ensures forall w: bv32 :: Less(w, x) ==> x != 0
  {
  }

  /** Words compare as the numbers do. */
  lemma {:induction false} Order(x: bv32, y: bv32)
    requires Less(x, y)
    ensures Nat(x) < Nat(y)
    decreases Nat(y)
  {
    hide Half, Up, UpOne, Nat, Less;
    HalvesOrder(x, y);
    HalfNat(x);
    HalfNat(y);
    SmallNat(y);
    if Less(Half(x), Half(y)) { Order(Half(x), Half(y)); }
  }

  // ---- powers of two --------------------------------------------------------------------

  ghost predicate IsPow(n: nat) {
    n == 1 || (n > 1 && n % 2 == 0 && IsPow(n / 2))
  }

  lemma PowHalves(x: bv32)
    requires PowWord(x)
    ensures x != 0 && (x == 1 || (PowWord(Half(x)) && Half(x) != 0 && x == Up(Half(x))))
  {
  }

  lemma {:induction false} PowNat(x: bv32)
    requires PowWord(x)
    ensures IsPow(Nat(x))
    decreases Nat(x)
  {
    hide Half, Up, UpOne, PowWord, Nat;
    PowHalves(x);
    SmallNat(x);
    HalfNat(x);
    if x != 1 {
      SmallNat(Half(x));
      PowNat(Half(x));
    }
  }

  lemma {:induction false} PowGap(a: nat, b: nat)
    requires IsPow(a) && IsPow(b) && a < b
    ensures 2 * a <= b
  {
    if a > 1 { PowGap(a / 2, b / 2); }
  }

  lemma {:induction false} GrownIsPow(n: nat, from: nat)
    requires IsPow(from)
    ensures IsPow(Grown(n, from))
    decreases n - from
  {
    if from < n {
      assert 2 * from / 2 == from;
      GrownIsPow(n, 2 * from);
    }
  }

  /** Up to 2^30, pow2gt is the least power of two that is not below x, ... */
  lemma Pow2gtWord(x: bv32)
    requires 1 <= x <= 0x4000_0000
    ensures var p := Pow2gt(x);
            && (x == p || Less(x, p)) && PowWord(p)
            && (if x == 1 then p == 1 else Less(Half(p), x))
  {
  }

  /** ... which as a number is what the buffer grows to. */
  lemma Pow2gtCorrect(x: bv32)
    requires 1 <= x <= 0x4000_0000
    ensures Pow2gt(x) as nat == Grown(x as nat, 1)
  {
    Pow2gtNat(x);
  }

  lemma Pow2gtNat(x: bv32)
    requires 1 <= x <= 0x4000_0000
    ensures Nat(Pow2gt(x)) == Grown(Nat(x), 1)
  {
    hide Pow2gt, PowWord, Half, Grown, Nat, Less, IsPow;
    var p := Pow2gt(x);
    Pow2gtWord(x);
    PowNat(p);
    OneIsPow();
    GrownIsPow(Nat(x), 1);
    HalfNat(p);
    SmallNat(p);
    if x != p { Order(x, p); }
    if x != 1 { Order(Half(p), x); }
    LeastPow(Nat(x), Nat(p));
  }

  /** For every positive int, pow2gt gives a positive int exactly up to 2^30; beyond it
      gives the least int. */
  lemma Pow2gtSign(x: bv32)
    requires 1 <= x <= 0x7fff_ffff
    ensures Pow2gt(x) <= 0x7fff_ffff <==> x <= 0x4000_0000
    ensures x > 0x4000_0000 ==> Pow2gt(x) == 0x8000_0000
  {
  }

  /** The first argument with a negative result. */
  lemma Pow2gtOverflows()
    ensures Pow2gt(0x4000_0001) == 0x8000_0000 && Signed(Pow2gt(0x4000_0001)) < 0
  {
  }

  /** The size ensure asks for to hold n characters: the least power of two that is not
      below n, as long as that is an int. */
  function NewSize(n: nat): (r: int)
    requires 1 <= n <= INT_MAX
    ensures n <= TOP ==> n <= r <= TOP
    ensures n > TOP ==> r < 0
  {
    if n <= TOP then GrownFits(n); Grown(n, 1) else -0x8000_0000
  }

  lemma GrownFits(n: nat)
    requires 1 <= n <= TOP
    ensures n <= Grown(n, 1) <= TOP
  {
    hide Nat, PowWord, Grown;
    TopIsPow();
    OneIsPow();
    GrownIsPow(n, 1);
    if Grown(n, 1) > TOP { PowGap(TOP, Grown(n, 1)); }
  }

  /** pow2gt computes it, for every positive int. */
  lemma Pow2gtExact(x: bv32)
    requires 1 <= x <= 0x7fff_ffff
    ensures Nat(x) <= INT_MAX && Signed(Pow2gt(x)) == NewSize(Nat(x))
    ensures Signed(Pow2gt(x)) == Grown(Nat(x), 1) <==> x <= 0x4000_0000
  {
    hide Pow2gt, Nat, Grown;
    Pow2gtSign(x);
    Bounds(x);
    LeastInt();
    if x <= 0x4000_0000 { Pow2gtNat(x); }
  }

  lemma Bounds(x: bv32)
    requires 1 <= x <= 0x7fff_ffff
    ensures 1 <= Nat(x) <= INT_MAX && (Nat(x) <= TOP <==> x <= 0x4000_0000)
  {
  }

  lemma LeastInt()
    ensures Nat(0x8000_0000) == 0x8000_0000
  {
  }

  lemma TopIsPow()
    ensures IsPow(TOP)
  {
    PowNat(0x4000_0000);
  }

  lemma OneIsPow()
    ensures IsPow(1)
  {
  }

  lemma LeastPow(n: nat, p: nat)
    requires IsPow(p) && IsPow(Grown(n, 1)) && n <= p && (p == 1 || p / 2 < n)
    ensures p == Grown(n, 1)
  {
    hide IsPow;
    var g := Grown(n, 1);
    if p < g { PowGap(p, g); }
    if g < p { PowGap(g, p); }
  }
}
