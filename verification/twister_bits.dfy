/** MT19937 bit by bit: what seeding, one step of the recurrence and tempering do to the bits of words. */
module TwisterBits {
  import opened Twister

  /** Bit `i` of a word; bit 0 is the last. */
  predicate Bit(x: Word, i: nat) {
    if i == 0 then Odd(x) else Bit(Half(x), i - 1)
  }

  // ---------------------------------------------------------------- operations on bits

  lemma HalfXor(a: Word, b: Word)
    ensures Half(Xor(a, b)) == Xor(Half(a), Half(b))
  {
  }

  lemma HalfAnd(a: Word, b: Word)
    ensures Half(And(a, b)) == And(Half(a), Half(b))
  {
  }

  lemma HalfOr(a: Word, b: Word)
    ensures Half(Or(a, b)) == Or(Half(a), Half(b))
  {
  }

  lemma OddOf(a: Word, b: Word)
    ensures Odd(Xor(a, b)) <==> Odd(a) != Odd(b)
    ensures Odd(And(a, b)) <==> Odd(a) && Odd(b)
    ensures Odd(Or(a, b)) <==> Odd(a) || Odd(b)
  {
  }

  lemma {:induction false} BitOf(a: Word, b: Word, i: nat)
    ensures Bit(Xor(a, b), i) <==> Bit(a, i) != Bit(b, i)
    ensures Bit(And(a, b), i) <==> Bit(a, i) && Bit(b, i)
    ensures Bit(Or(a, b), i) <==> Bit(a, i) || Bit(b, i)
    decreases i
  {
    hide Half, Odd, Xor, And, Or;
    if i == 0 {
      OddOf(a, b);
    } else {
      HalfXor(a, b);
      HalfAnd(a, b);
      HalfOr(a, b);
      BitOf(Half(a), Half(b), i - 1);
    }
  }

  /** Nothing but zeros from bit `k` on. */
  predicate Fits(x: Word, k: nat)
    decreases k
  {
    if k == 0 then x == 0 else Fits(Half(x), k - 1)
  }

  lemma {:induction false} NoBit(x: Word, k: nat, i: nat)
    requires Fits(x, k) && i >= k
    ensures !Bit(x, i)
    decreases i
  {
    hide Half, Odd;
    if k > 0 {
      NoBit(Half(x), k - 1, i - 1);
    } else if i > 0 {
      ZeroHalf();
      NoBit(Half(x), 0, i - 1);
    } else {
      ZeroHalf();
    }
  }

  lemma ZeroHalf()
    ensures Half(0) == 0 && !Odd(0)
  {
  }

  // ---------------------------------------------------------------- shifts

  function Up(x: Word): Word { x << 1 }
  function Down4(x: Word): Word { x >> 4 }
  function Up4(x: Word): Word { x << 4 }

  lemma FourHalves(x: Word)
    ensures Down4(x) == Half(Half(Half(Half(x))))
    ensures Up4(x) == Up(Up(Up(Up(x))))
  {
  }

  lemma Down4Bit(x: Word, i: nat)
    ensures Bit(Down4(x), i) <==> Bit(x, i + 4)
  {
    hide Half, Odd, Down4;
    FourHalves(x);
    assert Bit(x, i + 4) == Bit(Half(x), i + 3) == Bit(Half(Half(x)), i + 2) == Bit(Half(Half(Half(x))), i + 1);
  }

  lemma Down4Fits(x: Word, k: nat)
    ensures Fits(x, k + 4) <==> Fits(Down4(x), k)
  {
    hide Half, Down4;
    FourHalves(x);
    assert Fits(x, k + 4) == Fits(Half(x), k + 3) == Fits(Half(Half(x)), k + 2) == Fits(Half(Half(Half(x))), k + 1);
  }

  lemma DownAway(x: Word)
    requires Small(x)
    ensures Down4(Down4(Down4(Down4(Down4(Down4(Down4(Down4(x)))))))) == 0
  {
  }

  lemma ZeroFits(x: Word)
    requires x == 0
    ensures Fits(x, 0)
  {
  }

  /** Words of 32 bits have no bits from 32 on. */
  lemma SmallFits(x: Word)
    requires Small(x)
    ensures Fits(x, 32)
  {
    DownAway(x);
    hide Half, Down4, Fits, Small;
    var x4 := Down4(x);
    var x8 := Down4(x4);
    var x12 := Down4(x8);
    var x16 := Down4(x12);
    var x20 := Down4(x16);
    var x24 := Down4(x20);
    var x28 := Down4(x24);
    ZeroFits(Down4(x28));
    Down4Fits(x28, 0);
    Down4Fits(x24, 4);
    Down4Fits(x20, 8);
    Down4Fits(x16, 12);
    Down4Fits(x12, 16);
    Down4Fits(x8, 20);
    Down4Fits(x4, 24);
    Down4Fits(x, 28);
  }

  /** Ones below `k` and zeros from there on. */
  predicate OnesBelow(x: Word, k: nat)
    decreases k
  {
    if k == 0 then x == 0 else Odd(x) && OnesBelow(Half(x), k - 1)
  }

  lemma {:induction false} OnesBit(x: Word, k: nat, i: nat)
    requires OnesBelow(x, k)
    ensures Bit(x, i) <==> i < k
    decreases i
  {
    hide Half, Odd;
    if k == 0 {
      NoBit(x, 0, i);
    } else if i > 0 {
      OnesBit(Half(x), k - 1, i - 1);
    }
  }

  /** A one at `k` and nothing else. */
  predicate Alone(x: Word, k: nat)
    decreases k
  {
    if k == 0 then x == 1 else !Odd(x) && Alone(Half(x), k - 1)
  }

  lemma {:induction false} AloneBit(x: Word, k: nat, i: nat)
    requires Alone(x, k)
    ensures Bit(x, i) <==> i == k
    decreases i
  {
    OneHalf();
    hide Half, Odd;
    if k == 0 && i > 0 {
      NoBit(0, 0, i - 1);
    } else if i > 0 {
      AloneBit(Half(x), k - 1, i - 1);
    }
  }

  lemma OneHalf()
    ensures Half(1) == 0 && Odd(1)
  {
  }

  predicate FourOdd(x: Word) {
    Odd(x) && Odd(Half(x)) && Odd(Half(Half(x))) && Odd(Half(Half(Half(x))))
  }

  predicate FourEven(x: Word) {
    !Odd(x) && !Odd(Half(x)) && !Odd(Half(Half(x))) && !Odd(Half(Half(Half(x))))
  }

  lemma FourOnes(x: Word, k: nat)
    requires FourOdd(x) && OnesBelow(Down4(x), k)
    ensures OnesBelow(x, k + 4)
  {
    hide Half, Odd, Down4;
    FourHalves(x);
    assert OnesBelow(Half(Half(Half(x))), k + 1) && OnesBelow(Half(Half(x)), k + 2) && OnesBelow(Half(x), k + 3);
  }

  lemma FourZeros(x: Word, k: nat)
    requires FourEven(x) && Alone(Down4(x), k)
    ensures Alone(x, k + 4)
  {
    hide Half, Odd, Down4;
    FourHalves(x);
    assert Alone(Half(Half(Half(x))), k + 1) && Alone(Half(Half(x)), k + 2) && Alone(Half(x), k + 3);
  }

  const ALL_BUT_TOP: Word := 0x7fff_ffff_ffff_ffff

  lemma LowerOnes()
    ensures OnesBelow(0x7fff_ffff, 31)
  {
    assert OnesBelow(7, 3);
    hide OnesBelow;
    FourOnes(0x7f, 3);
    FourOnes(0x7ff, 7);
    FourOnes(0x7fff, 11);
    FourOnes(0x7_ffff, 15);
    FourOnes(0x7f_ffff, 19);
    FourOnes(0x7ff_ffff, 23);
    FourOnes(0x7fff_ffff, 27);
  }

  lemma AllOnes()
    ensures OnesBelow(ALL_BUT_TOP, 63)
  {
    LowerOnes();
    hide OnesBelow;
    FourOnes(0x7_ffff_ffff, 31);
    FourOnes(0x7f_ffff_ffff, 35);
    FourOnes(0x7ff_ffff_ffff, 39);
    FourOnes(0x7fff_ffff_ffff, 43);
    FourOnes(0x7_ffff_ffff_ffff, 47);
    FourOnes(0x7f_ffff_ffff_ffff, 51);
    FourOnes(0x7ff_ffff_ffff_ffff, 55);
    FourOnes(ALL_BUT_TOP, 59);
  }

  lemma UpperAlone()
    ensures Alone(0x8000_0000, 31)
  {
    assert Alone(8, 3);
    hide Alone;
    FourZeros(0x80, 3);
    FourZeros(0x800, 7);
    FourZeros(0x8000, 11);
    FourZeros(0x8_0000, 15);
    FourZeros(0x80_0000, 19);
    FourZeros(0x800_0000, 23);
    FourZeros(0x8000_0000, 27);
  }

  lemma HalfUp(x: Word)
    ensures Half(Up(x)) == And(x, ALL_BUT_TOP) && !Odd(Up(x))
  {
  }

  lemma UpBit(x: Word, i: nat)
    requires i <= 63
    ensures Bit(Up(x), i) <==> i > 0 && Bit(x, i - 1)
  {
    HalfUp(x);
    AllOnes();
    hide Half, Up, Odd, And;
    if i > 0 {
      BitOf(x, ALL_BUT_TOP, i - 1);
      OnesBit(ALL_BUT_TOP, 63, i - 1);
    }
  }

  lemma Up4Bit(x: Word, i: nat)
    requires i <= 63
    ensures Bit(Up4(x), i) <==> i >= 4 && Bit(x, i - 4)
  {
    FourHalves(x);
    hide Half, Up, Odd, Up4, Bit;
    UpBit(Up(Up(Up(x))), i);
    if i > 0 {
      UpBit(Up(Up(x)), i - 1);
    }
    if i > 1 {
      UpBit(Up(x), i - 2);
    }
    if i > 2 {
      UpBit(x, i - 3);
    }
  }

  // ---------------------------------------------------------------- the recurrence

  lemma TwistParts(first: Word, second: Word, middle: Word)
    ensures var y := Or(And(first, 0x8000_0000), And(second, 0x7fff_ffff));
            Twist(first, second, middle) == Xor(Xor(middle, Half(y)), if Odd(y) then 0x9908_b0df else 0)
  {
    hide Xor, And, Or, Half, Odd;
  }

  /** The joined word has the top bit of the first and all the others of the second. */
  lemma JoinedBit(first: Word, second: Word, j: nat)
    ensures Bit(Or(And(first, 0x8000_0000), And(second, 0x7fff_ffff)), j)
            <==> if j == 31 then Bit(first, 31) else j < 31 && Bit(second, j)
  {
    UpperAlone();
    LowerOnes();
    hide And, Or, Bit, Alone, OnesBelow;
    BitOf(And(first, 0x8000_0000), And(second, 0x7fff_ffff), j);
    BitOf(first, 0x8000_0000, j);
    BitOf(second, 0x7fff_ffff, j);
    AloneBit(0x8000_0000, 31, j);
    OnesBit(0x7fff_ffff, 31, j);
  }

  lemma TwistBit(first: Word, second: Word, middle: Word, i: nat)
    ensures var joined := if i == 30 then Bit(first, 31) else i < 30 && Bit(second, i + 1);
            Bit(Twist(first, second, middle), i)
            <==> ((Bit(middle, i) != joined) != (Bit(second, 0) && Bit(0x9908_b0df, i)))
  {
    var y := Or(And(first, 0x8000_0000), And(second, 0x7fff_ffff));
    TwistParts(first, second, middle);
    hide Twist, Xor, And, Or, Half, Odd;
    var matrix: Word := if Odd(y) then 0x9908_b0df else 0;
    JoinedBit(first, second, 0);
    JoinedBit(first, second, i + 1);
    assert Bit(y, 0) == Odd(y) && Bit(y, i + 1) == Bit(Half(y), i);
    hide Bit;
    ZeroBits(i);
    BitOf(middle, Half(y), i);
    BitOf(Xor(middle, Half(y)), matrix, i);
  }

  lemma ZeroBits(i: nat)
    ensures !Bit(0, i)
  {
    NoBit(0, 0, i);
  }

  /** One step of the recurrence, bit by bit.  The last 31 bits of a word and the first one of the word before it,
      joined, are moved one down; the bit that drops out decides whether the constant is added. */
  lemma StepBits(seed: Word, n: nat, i: nat)
    requires i < 32
    ensures var joined := if i == 31 then false else if i == 30 then Bit(X(seed, n), 31)
                          else Bit(X(seed, n + 1), i + 1);
            Bit(X(seed, n + 624), i)
            <==> ((Bit(X(seed, n + 397), i) != joined) != (Bit(X(seed, n + 1), 0) && Bit(0x9908_b0df, i)))
  {
    hide Twist, Bit;
    assert X(seed, n + 624) == Twist(X(seed, n), X(seed, n + 1), X(seed, n + 397));
    hide X;
    TwistBit(X(seed, n), X(seed, n + 1), X(seed, n + 397), i);
  }

  // ---------------------------------------------------------------- tempering

  lemma DownBits(y: Word, i: nat)
    ensures Bit(ShiftU(y), i) <==> Bit(y, i + 11)
    ensures Bit(ShiftL(y), i) <==> Bit(y, i + 18)
  {
    var y8 := Down4(Down4(y));
    var y16 := Down4(Down4(y8));
    DownParts(y);
    hide ShiftU, ShiftL, Down4, Half, Odd;
    assert Bit(Half(Half(Half(y8))), i) == Bit(Half(Half(y8)), i + 1) == Bit(Half(y8), i + 2) == Bit(y8, i + 3);
    assert Bit(Half(Half(y16)), i) == Bit(Half(y16), i + 1) == Bit(y16, i + 2);
    hide Bit;
    Down4Bit(Down4(y), i + 3);
    Down4Bit(y, i + 7);
    Down4Bit(Down4(y8), i + 2);
    Down4Bit(y8, i + 6);
    Down4Bit(Down4(y), i + 10);
    Down4Bit(y, i + 14);
  }

  lemma DownParts(y: Word)
    ensures ShiftU(y) == Half(Half(Half(Down4(Down4(y)))))
    ensures ShiftL(y) == Half(Half(Down4(Down4(Down4(Down4(y))))))
  {
  }

  lemma UpParts(y: Word)
    ensures ShiftS(y) == Up(Up(Up(Up4(y))))
    ensures ShiftT(y) == Up4(Up4(ShiftS(y)))
  {
  }

  lemma ShiftSBit(y: Word, i: nat)
    requires i <= 63
    ensures Bit(ShiftS(y), i) <==> i >= 7 && Bit(y, i - 7)
  {
    UpParts(y);
    hide Up, Up4, ShiftS, ShiftT, Bit;
    UpBit(Up(Up(Up4(y))), i);
    if i > 0 {
      UpBit(Up(Up4(y)), i - 1);
    }
    if i > 1 {
      UpBit(Up4(y), i - 2);
    }
    if i > 2 {
      Up4Bit(y, i - 3);
    }
  }

  lemma ShiftTBit(y: Word, i: nat)
    requires i <= 63
    ensures Bit(ShiftT(y), i) <==> i >= 15 && Bit(y, i - 15)
  {
    UpParts(y);
    hide Up, Up4, ShiftS, ShiftT, Bit;
    Up4Bit(Up4(ShiftS(y)), i);
    if i >= 4 {
      Up4Bit(ShiftS(y), i - 4);
    }
    if i >= 8 {
      ShiftSBit(y, i - 8);
    }
  }

  predicate AfterU(y: Word, i: nat) {
    Bit(y, i) != Bit(y, i + 11)
  }

  predicate AfterS(y: Word, i: nat) {
    AfterU(y, i) != (i >= 7 && AfterU(y, i - 7) && Bit(0x9d2c_5680, i))
  }

  predicate AfterT(y: Word, i: nat) {
    AfterS(y, i) != (i >= 15 && AfterS(y, i - 15) && Bit(0xefc6_0000, i))
  }

  lemma BitU(y: Word, i: nat)
    ensures Bit(StageU(y), i) <==> AfterU(y, i)
  {
    DownBits(y, i);
    hide Bit, Xor, ShiftU;
    BitOf(y, ShiftU(y), i);
  }

  lemma StageParts(y: Word)
    ensures StageS(y) == Xor(y, And(ShiftS(y), 0x9d2c_5680))
    ensures StageT(y) == Xor(y, And(ShiftT(y), 0xefc6_0000))
  {
    hide Xor, And, ShiftS, ShiftT;
  }

  lemma BitS(y: Word, i: nat)
    requires i <= 63
    ensures Bit(StageS(StageU(y)), i) <==> AfterS(y, i)
  {
    var z := StageU(y);
    StageParts(z);
    hide Bit, Xor, And, ShiftS, ShiftT, StageS, StageT, StageU, AfterU;
    BitOf(z, And(ShiftS(z), 0x9d2c_5680), i);
    BitOf(ShiftS(z), 0x9d2c_5680, i);
    ShiftSBit(z, i);
    BitU(y, i);
    if i >= 7 {
      BitU(y, i - 7);
    }
  }

  lemma BitT(y: Word, i: nat)
    requires i <= 63
    ensures Bit(StageT(StageS(StageU(y))), i) <==> AfterT(y, i)
  {
    var z := StageS(StageU(y));
    StageParts(z);
    hide Bit, Xor, And, ShiftS, ShiftT, StageS, StageT, StageU, AfterU, AfterS;
    BitOf(z, And(ShiftT(z), 0xefc6_0000), i);
    BitOf(ShiftT(z), 0xefc6_0000, i);
    ShiftTBit(z, i);
    BitS(y, i);
    if i >= 15 {
      BitS(y, i - 15);
    }
  }

  /** Tempering, bit by bit: the word is added to itself moved 11 down, then 7 up under the first mask, 15 up under
      the second, and 18 down. */
  lemma TemperBits(y: Word, i: nat)
    requires i < 32
    ensures Bit(Temper(y), i) <==> AfterT(y, i) != AfterT(y, i + 18)
  {
    var z := StageT(StageS(StageU(y)));
    hide Bit, Xor, ShiftL, ShiftU, AfterT, StageS, StageT, StageU;
    BitOf(z, ShiftL(z), i);
    DownBits(z, i);
    BitT(y, i);
    BitT(y, i + 18);
  }

  lemma NoHighBits(x: Word, i: nat)
    requires Small(x) && i >= 32
    ensures !Bit(x, i)
  {
    SmallFits(x);
    NoBit(x, 32, i);
  }

  // ---------------------------------------------------------------- seeding

  function Multiplied(x: Word): Word { 69069 * x }

  /** The seed times 69069 to the power of `n`, in a word of 64 bits. */
  function Unmasked(seed: Word, n: nat): Word {
    if n == 0 then seed else Multiplied(Unmasked(seed, n - 1))
  }

  /** Masking after every multiplication comes to the same as masking once at the end. */
  lemma {:induction false} SeedWords(seed: Word, n: nat)
    requires n < 624
    ensures X(seed, n) == And(Unmasked(seed, n), 0xffff_ffff)
  {
    hide SeedNext, And, Twist, Multiplied;
    if n > 0 {
      SeedWords(seed, n - 1);
      MaskLate(Unmasked(seed, n - 1));
    } else {
      MaskFirst(seed);
    }
  }

  lemma MaskFirst(seed: Word)
    ensures seed & LOW32 == And(seed, 0xffff_ffff)
  {
  }

  function Wide(l: bv32): Word { l as Word }
  function Joined(h: bv32, l: bv32): Word { ((h as Word) << 32) | (l as Word) }
  function Lower(x: Word): bv32 { (x & 0xffff_ffff) as bv32 }
  function Upper(x: Word): bv32 { (x >> 32) as bv32 }

  lemma JoinedHalves(x: Word)
    ensures x == Joined(Upper(x), Lower(x))
  {
  }

  lemma JoinedLow(h: bv32, l: bv32)
    ensures And(Joined(h, l), 0xffff_ffff) == Wide(l)
  {
  }

  lemma LowProduct(h: bv32, l: bv32)
    ensures SeedNext(((h as Word) << 32) | (l as Word)) == SeedNext(l as Word)
  {
  }

  lemma OnlyLow(h: bv32, l: bv32)
    ensures SeedNext(Joined(h, l)) == SeedNext(Wide(l))
  {
    hide SeedNext;
    LowProduct(h, l);
  }

  lemma SeedStep(x: Word)
    ensures SeedNext(x) == And(Multiplied(x), 0xffff_ffff)
  {
  }

  lemma MaskLate(x: Word)
    ensures SeedNext(And(x, 0xffff_ffff)) == And(Multiplied(x), 0xffff_ffff)
  {
    hide And, Multiplied, SeedNext, Joined, Wide, Lower, Upper;
    JoinedHalves(x);
    JoinedLow(Upper(x), Lower(x));
    OnlyLow(Upper(x), Lower(x));
    SeedStep(x);
  }
}
