/** 64-bit words: single bits, the lowest bit, and masks. */
module BitWords {
  type Word = bv64

  const WIDTH: nat := 64

  // ---- the operations, one name each ------------------------------------------------------------

  predicate Tested(w: Word, i: bv7) requires i < 64 { w & (1 << i) != 0 }

  function OrOne(w: Word, i: bv7): Word requires i < 64 { w | (1 << i) }

  function AndNot(w: Word, i: bv7): Word requires i < 64 { w & !(1 << i) }

  function Masked(w: Word, n: bv7): Word requires n < 64 { w & ((1 << n) - 1) }

  function Lowered(w: Word): Word { w & (w - 1) }

  function Halved(w: Word): Word { w >> 1 }

  function Doubled(w: Word): Word { w << 1 }

  predicate Odd(w: Word) { w & 1 == 1 }

  function Full(): Word { 0xFFFF_FFFF_FFFF_FFFF }

  // ---- words and their bits ---------------------------------------------------------------------

  /** A shift amount. */
  function Amount(i: nat): (a: bv7)
    requires i < WIDTH
    ensures a < 64
  {
    i as bv7
  }

  /** Bit i is set. */
  predicate Has(w: Word, i: nat) { i < WIDTH && Tested(w, Amount(i)) }

  function SetAt(w: Word, i: nat): (r: Word)
    requires i < WIDTH
    ensures forall j: nat :: Has(r, j) <==> Has(w, j) || j == i
  {
    WithBits(w, i);
    OrOne(w, Amount(i))
  }

  function ClearAt(w: Word, i: nat): (r: Word)
    requires i < WIDTH
    ensures forall j: nat :: Has(r, j) <==> Has(w, j) && j != i
  {
    WithoutBits(w, i);
    AndNot(w, Amount(i))
  }

  /** The bits below n < 64. */
  function KeepBelow(w: Word, n: nat): (r: Word)
    requires n < WIDTH
    ensures forall j: nat :: Has(r, j) <==> Has(w, j) && j < n
  {
    BelowBits(w, n);
    Masked(w, Amount(n))
  }

  /** The position of the lowest set bit. */
  function TrailingZeros(w: Word): nat
    requires w != 0
    decreases w
  {
    if Odd(w) then 0 else
      EvenHalf(w);
      1 + TrailingZeros(Halved(w))
  }

  lemma {:induction false} TrailingStep(w: Word)
    requires w != 0
    ensures Odd(w) ==> TrailingZeros(w) == 0
    ensures !Odd(w) ==> Halved(w) != 0 && Halved(w) < w && TrailingZeros(w) == 1 + TrailingZeros(Halved(w))
  {
    hide Odd, Halved;
    if !Odd(w) {
      EvenHalf(w);
    }
  }

  lemma {:induction false} LowestBit(w: Word)
    requires w != 0
    ensures IsLowest(w, TrailingZeros(w))
    decreases TrailingZeros(w)
  {
    hide *;
    TrailingStep(w);
    FirstOdd(w);
    if !Odd(w) {
      LowestBit(Halved(w));
      FirstBit(w, TrailingZeros(Halved(w)));
    }
  }

  predicate IsLowest(w: Word, n: nat) { n < WIDTH && Has(w, n) && forall j: nat | j < n :: !Has(w, j) }

  lemma {:induction false} FirstOdd(w: Word)
    ensures Odd(w) ==> IsLowest(w, 0)
  {
    hide Has, Odd;
    EdgeBits(w);
  }

  /** Taking away the lowest bit, as w & (w - 1). */
  lemma {:induction false} ClearLowest(w: Word)
    requires w != 0
    ensures ClearsAt(w, TrailingZeros(w))
    decreases TrailingZeros(w)
  {
    hide *;
    TrailingStep(w);
    ClearsOdd(w);
    if !Odd(w) {
      ClearLowest(Halved(w));
      LowestBit(w);
      ClearsEven(w, TrailingZeros(Halved(w)));
    }
  }

  predicate ClearsAt(w: Word, n: nat) { n < WIDTH && Lowered(w) == AndNot(w, Amount(n)) }

  lemma {:induction false} ClearsOdd(w: Word)
    ensures Odd(w) ==> ClearsAt(w, 0)
  {
    if Odd(w) {
      OddClears(w);
      ZeroAmount();
      hide Lowered, AndNot, Amount;
    }
  }

  lemma {:induction false} ClearsEven(w: Word, n: nat)
    requires !Odd(w) && ClearsAt(Halved(w), n) && IsLowest(w, n + 1)
    ensures ClearsAt(w, n + 1)
  {
    hide Lowered, AndNot, Amount, Halved, Doubled, Odd, Has;
    NextAmount(n);
    EvenClears(w);
    EvenWithout(w, Amount(n));
  }

  /** w & (w - 1) takes away exactly the lowest bit. */
  lemma {:induction false} LowestCleared(w: Word)
    requires w != 0
    ensures IsLowest(w, TrailingZeros(w))
    ensures forall j: nat :: Has(Lowered(w), j) <==> Has(w, j) && j != TrailingZeros(w)
  {
    hide Has, Lowered, AndNot, Amount, TrailingZeros;
    LowestBit(w);
    ClearLowest(w);
    WithoutBits(w, TrailingZeros(w));
  }

  lemma {:induction false} InWidth(w: Word)
    ensures forall i: nat | Has(w, i) :: i < WIDTH
  {
  }

  ghost function BitsOf(w: Word): set<nat> { set i: nat | i < WIDTH && Has(w, i) }

  lemma {:induction false} NoBits()
    ensures forall i: nat :: !Has(0, i)
  {
    forall i: nat | i < WIDTH ensures !Has(0, i) {
      ZeroBit(Amount(i));
      hide Tested;
    }
  }

  lemma {:induction false} AllBits()
    ensures forall i: nat :: Has(Full(), i) <==> i < WIDTH
  {
    forall i: nat | i < WIDTH ensures Has(Full(), i) {
      FullBit(Amount(i));
      hide Tested;
    }
  }

  lemma {:induction false} WithBits(w: Word, i: nat)
    requires i < WIDTH
    ensures forall j: nat :: Has(OrOne(w, Amount(i)), j) <==> Has(w, j) || j == i
  {
    hide Tested, OrOne, Amount;
    forall j: nat | j < WIDTH ensures Has(OrOne(w, Amount(i)), j) <==> Has(w, j) || j == i {
      Amounts(i, j);
      OrBit(w, Amount(i), Amount(j));
    }
  }

  lemma {:induction false} WithoutBits(w: Word, i: nat)
    requires i < WIDTH
    ensures forall j: nat :: Has(AndNot(w, Amount(i)), j) <==> Has(w, j) && j != i
  {
    hide Tested, AndNot, Amount;
    forall j: nat | j < WIDTH ensures Has(AndNot(w, Amount(i)), j) <==> Has(w, j) && j != i {
      Amounts(i, j);
      AndNotBit(w, Amount(i), Amount(j));
    }
  }

  lemma {:induction false} BelowBits(w: Word, n: nat)
    requires n < WIDTH
    ensures forall j: nat :: Has(Masked(w, Amount(n)), j) <==> Has(w, j) && j < n
  {
    hide Tested, Masked, Amount;
    forall j: nat | j < WIDTH ensures Has(Masked(w, Amount(n)), j) <==> Has(w, j) && j < n {
      Amounts(n, j);
      MaskBit(w, Amount(n), Amount(j));
    }
  }

  /** Halving moves every bit down by one. */
  lemma {:induction false} HalfHas(w: Word, i: nat)
    requires 0 < i < WIDTH
    ensures Has(w, i) <==> Has(Halved(w), i - 1)
  {
    hide Tested, Halved, Amount;
    NextAmount(i - 1);
    HalfBit(w, Amount(i - 1));
  }

  lemma {:induction false} EdgeBits(w: Word)
    ensures (Has(w, 0) <==> Odd(w)) && !Has(Halved(w), 63)
  {
    ZeroAmount();
    hide Amount;
    LowBit(w);
    HighBit(w);
  }

  lemma {:induction false} FirstBit(w: Word, n: nat)
    requires IsLowest(Halved(w), n) && !Odd(w)
    ensures IsLowest(w, n + 1)
  {
    hide Has, Odd, Halved;
    EdgeBits(w);
    assert n < 63;
    HalfHas(w, n + 1);
    forall j: nat | j < n + 1 ensures !Has(w, j) {
      if j > 0 {
        HalfHas(w, j);
      }
    }
  }

  // ---- shift amounts ------------------------------------------------------------------------------

  lemma {:induction false} Returns(i: nat)
    requires i < WIDTH
    ensures Amount(i) as nat == i
  {
  }

  lemma {:induction false} Amounts(i: nat, j: nat)
    requires i < WIDTH && j < WIDTH
    ensures Amount(i) == Amount(j) <==> i == j
    ensures Amount(i) < Amount(j) <==> i < j
  {
    Returns(i);
    Returns(j);
  }

  lemma {:induction false} ZeroAmount()
    ensures Amount(0) == 0 && Amount(63) == 63
  {
  }

  lemma {:induction false} NextAmount(i: nat)
    requires i < 63
    ensures Amount(i) < 63 && Amount(i + 1) == Amount(i) + 1
  {
    Returns(i);
  }

  // ---- one operation each -------------------------------------------------------------------------

  lemma {:induction false} TestedIs(w: Word, i: bv7)
    requires i < 64
    ensures Tested(w, i) <==> w & (1 << i) != 0
  {
  }

  lemma {:induction false} OrBit(w: Word, z: bv7, i: bv7)
    requires z < 64 && i < 64
    ensures Tested(OrOne(w, z), i) <==> Tested(w, i) || i == z
  {
    OrAt(w, z, i);
    TestedIs(w, i);
    TestedIs(w | (1 << z), i);
    hide Tested;
  }

  lemma {:induction false} AndNotBit(w: Word, z: bv7, i: bv7)
    requires z < 64 && i < 64
    ensures Tested(AndNot(w, z), i) <==> Tested(w, i) && i != z
  {
    AndNotAt(w, z, i);
    TestedIs(w, i);
    TestedIs(w & !(1 << z), i);
    hide Tested;
  }

  lemma {:induction false} ZeroBit(i: bv7)
    requires i < 64
    ensures !Tested(0, i)
  {
  }

  lemma {:induction false} FullBit(i: bv7)
    requires i < 64
    ensures Tested(Full(), i)
  {
  }

  lemma {:induction false} LowBit(w: Word)
    ensures Tested(w, 0) <==> Odd(w)
  {
  }

  lemma {:induction false} HighBit(w: Word)
    ensures !Tested(Halved(w), 63)
  {
  }

  lemma {:induction false} MaskBit(w: Word, n: bv7, i: bv7)
    requires n < 64 && i < 64
    ensures Tested(Masked(w, n), i) <==> Tested(w, i) && i < n
  {
    MaskAt(w, n, i);
    TestedIs(w, i);
    TestedIs(w & ((1 << n) - 1), i);
    hide Tested;
  }

  lemma {:induction false} OrAt(w: Word, z: bv7, i: bv7)
    requires z < 64 && i < 64
    ensures (w | (1 << z)) & (1 << i) != 0 <==> w & (1 << i) != 0 || i == z
  {
  }

  lemma {:induction false} AndNotAt(w: Word, z: bv7, i: bv7)
    requires z < 64 && i < 64
    ensures (w & !(1 << z)) & (1 << i) != 0 <==> w & (1 << i) != 0 && i != z
  {
    NotPlace(z, i);
    ThroughMask(w, !(1 << z), 1 << i);
  }

  lemma {:induction false} MaskAt(w: Word, n: bv7, i: bv7)
    requires n < 64 && i < 64
    ensures (w & ((1 << n) - 1)) & (1 << i) != 0 <==> w & (1 << i) != 0 && i < n
  {
    MaskPlace(n, i);
    ThroughMask(w, (1 << n) - 1, 1 << i);
  }

  lemma {:induction false} NotPlace(z: bv7, i: bv7)
    requires z < 64 && i < 64
    ensures !(1 as Word << z) & (1 << i) == if i != z then 1 << i else 0
  {
  }

  lemma {:induction false} MaskPlace(n: bv7, i: bv7)
    requires n < 64 && i < 64
    ensures ((1 as Word << n) - 1) & (1 << i) == if i < n then 1 << i else 0
  {
  }

  lemma {:induction false} ThroughMask(w: Word, m: Word, q: Word)
    ensures m & q == q ==> (w & m) & q == w & q
    ensures m & q == 0 ==> (w & m) & q == 0
  {
  }

  lemma {:induction false} EvenHalf(w: Word)
    requires w != 0 && !Odd(w)
    ensures Halved(w) != 0 && Halved(w) < w
  {
  }

  lemma {:induction false} OddClears(w: Word)
    requires Odd(w)
    ensures Lowered(w) == AndNot(w, 0)
  {
  }

  lemma {:induction false} EvenClears(w: Word)
    requires !Odd(w)
    ensures Lowered(w) == Doubled(Lowered(Halved(w)))
  {
  }

  lemma {:induction false} EvenWithout(w: Word, i: bv7)
    requires !Odd(w) && i < 63
    ensures AndNot(w, i + 1) == Doubled(AndNot(Halved(w), i))
  {
  }

  lemma {:induction false} HalfBit(w: Word, i: bv7)
    requires i < 63
    ensures Tested(w, i + 1) <==> Tested(Halved(w), i)
  {
    DoubleOne(i);
    HalfAnd(w, 1 << i);
  }

  lemma {:induction false} DoubleOne(i: bv7)
    requires i < 63
    ensures 1 as Word << (i + 1) == (1 as Word << i) << 1 && (1 as Word << i) < 0x8000_0000_0000_0000
  {
  }

  lemma {:induction false} HalfAnd(w: Word, q: Word)
    requires q < 0x8000_0000_0000_0000
    ensures w & (q << 1) != 0 <==> (w >> 1) & q != 0
  {
  }
}
