/** One 32-bit word of a slot map: a set bit is a free slot.  Single bits, and the
    population count that adds them up field by field. */
module SlotMap {

  const M1: bv32 := 0x55555555
  const M2: bv32 := 0x33333333
  const M4: bv32 := 0x0F0F0F0F

  function Index(i: nat): (r: bv6)
    requires i < 32
    ensures r < 32
  {
    Bounded(i);
    i as bv6
  }

  lemma Bounded(i: nat)
    requires i < 32
    ensures i as bv6 < 32
  {
  }

  lemma IndexIsInjective(i: nat, j: nat)
    requires i < 32 && j < 32
    ensures Index(i) == Index(j) <==> i == j
  {
  }

  function Mask(i: bv6): bv32
    requires i < 32
  {
    1 << i
  }

  predicate BitAt(w: bv32, i: bv6)
    requires i < 32
  {
    (w >> i) & 1 == 1
  }

  lemma TestBit(w: bv32, i: bv6)
    requires i < 32
    ensures w & Mask(i) != 0 <==> BitAt(w, i)
  {
  }

  /** Whether slot `i` of the word is free. */
  predicate Bit(w: bv32, i: nat)
    requires i < 32
  {
    BitAt(w, Index(i))
  }

  lemma ClearBit(w: bv32, i: nat, j: nat)
    requires i < 32 && j < 32
    ensures Bit(w & !Mask(Index(i)), j) <==> Bit(w, j) && i != j
  {
    IndexIsInjective(i, j);
    ClearBitAt(w, Index(i), Index(j));
  }

  lemma ClearBitAt(w: bv32, i: bv6, j: bv6)
    requires i < 32 && j < 32
    ensures BitAt(w & !Mask(i), j) <==> BitAt(w, j) && i != j
  {
  }

  lemma SetBit(w: bv32, i: nat, j: nat)
    requires i < 32 && j < 32
    ensures Bit(w | Mask(Index(i)), j) <==> Bit(w, j) || i == j
  {
    IndexIsInjective(i, j);
    SetBitAt(w, Index(i), Index(j));
  }

  lemma SetBitAt(w: bv32, i: bv6, j: bv6)
    requires i < 32 && j < 32
    ensures BitAt(w | Mask(i), j) <==> BitAt(w, j) || i == j
  {
  }

  lemma AllOrNone(i: nat)
    requires i < 32
    ensures Bit(0xFFFF_FFFF, i) && !Bit(0, i)
  {
    AllOrNoneAt(Index(i));
  }

  lemma AllOrNoneAt(i: bv6)
    requires i < 32
    ensures BitAt(0xFFFF_FFFF, i) && !BitAt(0, i)
  {
  }

  // ----- the population count -----

  /** How many of the first `n` slots are free. */
  function Ones(w: bv32, n: nat): nat
    requires n <= 32
  {
    if n == 0 then 0 else Ones(w, n - 1) + if Bit(w, n - 1) then 1 else 0
  }

  // The rounds of the population count: fields of 2, 4 and 8 bits come to hold the
  // number of bits set in them, and then the four bytes are added up.
  function Pairs(w: bv32): bv32 { w - ((w >> 1) & M1) }
  function Fours(w: bv32): bv32 { (w & M2) + ((w >> 2) & M2) }
  function Eights(w: bv32): bv32 { (w + (w >> 4)) & M4 }
  function Total(w: bv32): bv32 {
    var h := w + (w >> 8);
    (h + (h >> 16)) & 0x7f
  }

  function Count(w: bv32): bv32 { Eights(Fours(Pairs(w))) }

  function Value(x: bv32): nat { x as nat }

  method PopulationCount(word: bv32) returns (hw: bv32)
    ensures Value(hw) == Ones(word, 32)
  {
    hide *;
    hw := word;
    hw := Pairs(hw);
    hw := Fours(hw);
    hw := Eights(hw);
    hw := Total(hw);
    TotalIsOnes(word);
  }

  function Byte(w: bv32, i: bv6): (b: bv32)
    requires i < 32
    ensures b <= 255
  {
    (w >> i) & 255
  }

  // No round carries from one byte into the next.

  lemma PairsStayApart(w: bv32)
    ensures Byte(Pairs(w), 0) == Pairs(Byte(w, 0))
    ensures Byte(Pairs(w), 8) == Pairs(Byte(w, 8))
    ensures Byte(Pairs(w), 16) == Pairs(Byte(w, 16))
    ensures Byte(Pairs(w), 24) == Pairs(Byte(w, 24))
  {
  }

  lemma FoursStayApart(w: bv32)
    ensures Byte(Fours(w), 0) == Fours(Byte(w, 0))
    ensures Byte(Fours(w), 8) == Fours(Byte(w, 8))
    ensures Byte(Fours(w), 16) == Fours(Byte(w, 16))
    ensures Byte(Fours(w), 24) == Fours(Byte(w, 24))
  {
  }

  predicate BelowEight(w: bv32) { w & 0x88888888 == 0 }

  lemma FoursBelowEight(w: bv32)
    ensures BelowEight(Fours(Pairs(w)))
  {
  }

  lemma EightsStayApart(w: bv32)
    requires BelowEight(w)
    ensures Byte(Eights(w), 0) == Eights(Byte(w, 0))
    ensures Byte(Eights(w), 8) == Eights(Byte(w, 8))
    ensures Byte(Eights(w), 16) == Eights(Byte(w, 16))
    ensures Byte(Eights(w), 24) == Eights(Byte(w, 24))
  {
  }

  lemma CountStaysApart(w: bv32)
    ensures Byte(Count(w), 0) == Count(Byte(w, 0))
    ensures Byte(Count(w), 8) == Count(Byte(w, 8))
    ensures Byte(Count(w), 16) == Count(Byte(w, 16))
    ensures Byte(Count(w), 24) == Count(Byte(w, 24))
  {
    PairsStayApart(w);
    FoursStayApart(Pairs(w));
    FoursBelowEight(w);
    EightsStayApart(Fours(Pairs(w)));
  }

  lemma TotalAddsBytes(w: bv32)
    requires Byte(w, 0) <= 8 && Byte(w, 8) <= 8 && Byte(w, 16) <= 8 && Byte(w, 24) <= 8
    ensures Total(w) == (Byte(w, 0) + Byte(w, 8)) + (Byte(w, 16) + Byte(w, 24))
  {
  }

  // The count of one byte, as a number.

  function BitValue(w: bv32, i: bv6): nat
    requires i < 32
  {
    if BitAt(w, i) then 1 else 0
  }

  function BitsFrom(w: bv32, i: bv6): nat
    requires i <= 24
  {
    BitValue(w, i) + BitValue(w, i + 1) + BitValue(w, i + 2) + BitValue(w, i + 3)
    + BitValue(w, i + 4) + BitValue(w, i + 5) + BitValue(w, i + 6) + BitValue(w, i + 7)
  }

  lemma CountOfByte(b: bv32)
    requires b <= 255
    ensures Value(Count(b)) == BitsFrom(b, 0)
    ensures Count(b) <= 8
  {
  }

  lemma BitsOfByte(w: bv32)
    ensures BitsFrom(Byte(w, 0), 0) == BitsFrom(w, 0)
    ensures BitsFrom(Byte(w, 8), 0) == BitsFrom(w, 8)
    ensures BitsFrom(Byte(w, 16), 0) == BitsFrom(w, 16)
    ensures BitsFrom(Byte(w, 24), 0) == BitsFrom(w, 24)
  {
  }

  lemma AddSmall(a: bv32, b: bv32)
    requires a <= 16 && b <= 16
    ensures Value(a + b) == Value(a) + Value(b)
    ensures a <= 8 && b <= 8 ==> a + b <= 16
  {
  }

  lemma AddFour(a: bv32, b: bv32, c: bv32, d: bv32)
    requires a <= 8 && b <= 8 && c <= 8 && d <= 8
    ensures Value((a + b) + (c + d)) == Value(a) + Value(b) + Value(c) + Value(d)
  {
    hide Value;
    AddSmall(a, b);
    AddSmall(c, d);
    AddSmall(a + b, c + d);
  }

  lemma CountOfBytes(w: bv32)
    ensures Byte(Count(w), 0) <= 8 && Value(Byte(Count(w), 0)) == BitsFrom(w, 0)
    ensures Byte(Count(w), 8) <= 8 && Value(Byte(Count(w), 8)) == BitsFrom(w, 8)
    ensures Byte(Count(w), 16) <= 8 && Value(Byte(Count(w), 16)) == BitsFrom(w, 16)
    ensures Byte(Count(w), 24) <= 8 && Value(Byte(Count(w), 24)) == BitsFrom(w, 24)
  {
    hide *;
    CountStaysApart(w);
    CountOfByte(Byte(w, 0));
    CountOfByte(Byte(w, 8));
    CountOfByte(Byte(w, 16));
    CountOfByte(Byte(w, 24));
    BitsOfByte(w);
  }

  lemma TotalIsBits(w: bv32)
    ensures Value(Total(Count(w))) == BitsFrom(w, 0) + BitsFrom(w, 8) + BitsFrom(w, 16) + BitsFrom(w, 24)
  {
    hide *;
    CountOfBytes(w);
    TotalAddsBytes(Count(w));
    AddFour(Byte(Count(w), 0), Byte(Count(w), 8), Byte(Count(w), 16), Byte(Count(w), 24));
  }

  lemma IndexNext(n: nat)
    requires n < 31
    ensures Index(n + 1) == Index(n) + 1
  {
  }

  lemma OnesGrow(w: bv32, n: nat, i: bv6)
    requires n <= 24 && i <= 24 && Index(n) == i
    ensures Ones(w, n + 8) == Ones(w, n) + BitsFrom(w, i)
  {
    hide Index, BitAt;
    IndexNext(n); IndexNext(n + 1); IndexNext(n + 2); IndexNext(n + 3);
    IndexNext(n + 4); IndexNext(n + 5); IndexNext(n + 6);
    assert Ones(w, n + 2) == Ones(w, n) + BitValue(w, i) + BitValue(w, i + 1);
    assert Ones(w, n + 4) == Ones(w, n + 2) + BitValue(w, i + 2) + BitValue(w, i + 3);
    assert Ones(w, n + 6) == Ones(w, n + 4) + BitValue(w, i + 4) + BitValue(w, i + 5);
    assert Ones(w, n + 8) == Ones(w, n + 6) + BitValue(w, i + 6) + BitValue(w, i + 7);
  }

  lemma TotalIsOnes(w: bv32)
    ensures Value(Total(Eights(Fours(Pairs(w))))) == Ones(w, 32)
  {
    hide BitsFrom, Total, Eights, Fours, Pairs, Value;
    TotalIsBits(w);
    OnesGrow(w, 0, 0);
    OnesGrow(w, 8, 8);
    OnesGrow(w, 16, 16);
    OnesGrow(w, 24, 24);
  }
}
