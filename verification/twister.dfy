/** The Mersenne Twister MT19937: regenerating the state in place gives the words of the recurrence. */
module Twister {

  const N: nat := 624
  const M: nat := 397

  /** An unsigned long of 64 bits; the generator's words use the lower 32. */
  type Word = bv64

  const LOW32: Word := 0xffff_ffff
  const MATRIX_A: Word := 0x9908_b0df
  const UPPER_MASK: Word := 0x8000_0000
  const LOWER_MASK: Word := 0x7fff_ffff
  const TEMPERING_MASK_B: Word := 0x9d2c_5680
  const TEMPERING_MASK_C: Word := 0xefc6_0000
  const DEFAULT_SEED: Word := 4357

  predicate Small(x: Word) {
    x & LOW32 == x
  }

  function Xor(a: Word, b: Word): Word { a ^ b }
  function And(a: Word, b: Word): Word { a & b }
  function Or(a: Word, b: Word): Word { a | b }
  function Half(y: Word): Word { y >> 1 }
  predicate Odd(y: Word) { y & 1 != 0 }

  /** One step of the recurrence: from the words N places back, the one after it, and M after it. */
  function Twist(first: Word, second: Word, middle: Word): Word {
    var y := Or(And(first, UPPER_MASK), And(second, LOWER_MASK));
    Xor(Xor(middle, Half(y)), if Odd(y) then MATRIX_A else 0)
  }

  function SeedNext(x: Word): Word {
    (69069 * x) & LOW32
  }

  /** The infinite sequence x(0), x(1), ... of section 2.1 of Matsumoto and Nishimura, from a seed. */
  function X(seed: Word, n: nat): Word {
    if n == 0 then seed & LOW32
    else if n < N then SeedNext(X(seed, n - 1))
    else Twist(X(seed, n - N), X(seed, n - N + 1), X(seed, n - N + M))
  }

  lemma TwistSmall(first: Word, second: Word, middle: Word)
    requires Small(middle)
    ensures Small(Twist(first, second, middle))
  {
  }

  /** Every word is below 2 to the 32. */
  lemma {:induction false} WordsSmall(seed: Word, n: nat)
    ensures Small(X(seed, n))
  {
    hide Twist, SeedNext, Small;
    if n == 0 {
      MaskSmall(seed);
    } else if n < N {
      SeedSmall(X(seed, n - 1));
    } else {
      WordsSmall(seed, n - N + M);
      TwistSmall(X(seed, n - N), X(seed, n - N + 1), X(seed, n - N + M));
    }
  }

  lemma MaskSmall(x: Word)
    ensures Small(x & LOW32)
  {
  }

  lemma SeedSmall(x: Word)
    ensures Small(SeedNext(x))
  {
    MaskSmall(69069 * x);
  }

  // ---------------------------------------------------------------- tempering

  function ShiftU(y: Word): Word { y >> 11 }
  function ShiftS(y: Word): Word { y << 7 }
  function ShiftT(y: Word): Word { y << 15 }
  function ShiftL(y: Word): Word { y >> 18 }

  function StageU(y: Word): Word { Xor(y, ShiftU(y)) }
  function StageS(y: Word): Word { Xor(y, And(ShiftS(y), TEMPERING_MASK_B)) }
  function StageT(y: Word): Word { Xor(y, And(ShiftT(y), TEMPERING_MASK_C)) }
  function StageL(y: Word): Word { Xor(y, ShiftL(y)) }

  function Temper(y: Word): Word {
    StageL(StageT(StageS(StageU(y))))
  }

  function UndoU(z: Word): Word { Xor(Xor(z, ShiftU(z)), ShiftU(ShiftU(z))) }
  function UndoL(z: Word): Word { Xor(z, ShiftL(z)) }
  function UndoT(z: Word): Word { z ^ ((z << 15) & TEMPERING_MASK_C) }

  function UndoS(z: Word): Word {
    var a := z ^ ((z << 7) & TEMPERING_MASK_B);
    var b := z ^ ((a << 7) & TEMPERING_MASK_B);
    var c := z ^ ((b << 7) & TEMPERING_MASK_B);
    z ^ ((c << 7) & TEMPERING_MASK_B)
  }

  function Untemper(z: Word): Word {
    UndoU(UndoS(UndoT(UndoL(z))))
  }

  lemma XorZero(a: Word)
    ensures Xor(a, 0) == a
  {
  }

  lemma ShiftUXor(a: Word, b: Word)
    ensures ShiftU(Xor(a, b)) == Xor(ShiftU(a), ShiftU(b))
  {
  }

  lemma ShiftUOut(a: Word)
    requires Small(a)
    ensures ShiftU(ShiftU(ShiftU(a))) == 0
  {
  }

  lemma XorTwo(y: Word, a: Word)
    ensures Xor(Xor(y, a), a) == y
  {
  }

  lemma XorMeet(y: Word, a: Word, b: Word)
    ensures Xor(Xor(y, a), Xor(a, b)) == Xor(y, b)
  {
  }

  lemma XorSmall(a: Word, b: Word)
    requires Small(a) && Small(b)
    ensures Small(Xor(a, b))
  {
  }

  lemma ShiftsSmall(y: Word)
    requires Small(y)
    ensures Small(ShiftU(y)) && Small(ShiftL(y))
  {
  }

  lemma UndoesU(y: Word)
    requires Small(y)
    ensures UndoU(StageU(y)) == y && Small(StageU(y))
  {
    hide Xor, ShiftU, ShiftL, Small;
    ShiftsSmall(y);
    XorSmall(y, ShiftU(y));
    var a := ShiftU(y);
    var b := ShiftU(a);
    ShiftUOut(y);
    ShiftUXor(y, a);
    ShiftUXor(a, b);
    XorMeet(y, a, b);
    XorTwo(y, b);
    XorZero(b);
  }

  lemma UndoesS(y: Word)
    requires Small(y)
    ensures UndoS(StageS(y)) == y && Small(StageS(y))
  {
  }

  lemma UndoesT(y: Word)
    requires Small(y)
    ensures UndoT(StageT(y)) == y && Small(StageT(y))
  {
  }

  lemma ShiftLXor(a: Word, b: Word)
    ensures ShiftL(Xor(a, b)) == Xor(ShiftL(a), ShiftL(b))
  {
  }

  lemma ShiftLOut(a: Word)
    requires Small(a)
    ensures ShiftL(ShiftL(a)) == 0
  {
  }

  lemma UndoesL(y: Word)
    requires Small(y)
    ensures UndoL(StageL(y)) == y && Small(StageL(y))
  {
    hide Xor, ShiftU, ShiftL, Small;
    ShiftsSmall(y);
    XorSmall(y, ShiftL(y));
    var a := ShiftL(y);
    ShiftLOut(y);
    ShiftLXor(y, a);
    XorTwo(y, a);
    XorZero(a);
  }

  /** Tempering can be undone, so it maps different words to different words. */
  lemma TemperInvertible(y: Word)
    requires Small(y)
    ensures Untemper(Temper(y)) == y && Small(Temper(y))
  {
    hide StageU, StageS, StageT, StageL, UndoU, UndoS, UndoT, UndoL, Small;
    UndoesU(y);
    UndoesS(StageU(y));
    UndoesT(StageS(StageU(y)));
    UndoesL(StageT(StageS(StageU(y))));
  }

  lemma TemperInjective(x: Word, y: Word)
    requires Small(x) && Small(y) && Temper(x) == Temper(y)
    ensures x == y
  {
    hide Temper, Untemper, Small;
    TemperInvertible(x);
    TemperInvertible(y);
  }

  // ---------------------------------------------------------------- the generator

  class Generator {
    const mt: array<Word>
    var mti: nat
    /** The seed in use, the number of the word in mt[0] and how many words have been drawn since. */
    ghost var seed: Word
    ghost var base: nat
    ghost var drawn: nat

    ghost predicate Holds(from: nat, to: nat, start: nat)
      reads this, mt
    {
      to <= mt.Length && forall k | from <= k < to :: mt[k] == X(seed, start + k)
    }

    ghost predicate Valid()
      reads this, mt
    {
      && mt.Length == N && mti <= N + 1
      && (mti <= N ==> Holds(0, N, base) && base + mti == N + drawn)
    }

    ghost predicate Seeded()
      reads this
    {
      mti <= N
    }

    constructor ()
      ensures Valid() && !Seeded() && fresh(mt)
    {
      mt := new Word[N];
      mti := N + 1;
    }

    method Sgenrand(s: Word)
      requires Valid()
      modifies this, mt
      ensures Valid() && Seeded() && seed == s && drawn == 0 && mti == N && base == 0
    {
      hide SeedNext, Twist;
      seed, base, drawn := s, 0, 0;
      mt[0] := s & LOW32;
      mti := 1;
      while mti < N
        invariant 1 <= mti <= N && mt.Length == N && seed == s && base == 0 && drawn == 0
        invariant Holds(0, mti, 0)
      {
        assert X(seed, mti) == SeedNext(X(seed, mti - 1));
        assert mt[mti - 1] == X(seed, 0 + (mti - 1));
        mt[mti] := SeedNext(mt[mti - 1]);
        mti := mti + 1;
      }
    }

    lemma TwistAt(start: nat, k: nat)
      ensures X(seed, start + N + k) == Twist(X(seed, start + k), X(seed, start + k + 1), X(seed, start + k + M))
    {
    }

    ghost predicate Done(kk: nat)
      reads this, mt
    {
      mt.Length == N && kk <= N && Holds(0, kk, base + N) && Holds(kk, N, base)
    }

    /** Each word is overwritten with the word N places on, whose ingredients are partly old and partly
        already new. */
    method Overwrite(kk: nat, next: nat, middle: nat)
      requires Done(kk) && kk < N && next == (kk + 1) % N && middle == (kk + M) % N
      modifies mt
      ensures Done(kk + 1)
    {
      hide SeedNext, Twist, X;
      TwistAt(base, kk);
      assert mt[kk] == X(seed, base + kk);
      assert mt[next] == X(seed, base + kk + 1) by {
        if kk + 1 < N {
          assert mt[kk + 1] == X(seed, base + (kk + 1));
        } else {
          assert mt[0] == X(seed, base + N + 0);
        }
      }
      assert mt[middle] == X(seed, base + kk + M) by {
        if kk + M < N {
          assert mt[kk + M] == X(seed, base + (kk + M));
        } else {
          assert mt[kk + M - N] == X(seed, base + N + (kk + M - N));
        }
      }
      mt[kk] := Twist(mt[kk], mt[next], mt[middle]);
    }

    method Regenerate()
      requires Done(0)
      modifies mt
      ensures Done(N)
    {
      var kk := 0;
      while kk < N - M
        invariant kk <= N - M && Done(kk)
      {
        Overwrite(kk, kk + 1, kk + M);
        kk := kk + 1;
      }
      while kk < N - 1
        invariant N - M <= kk <= N - 1 && Done(kk)
      {
        Overwrite(kk, kk + 1, kk + M - N);
        kk := kk + 1;
      }
      Overwrite(N - 1, 0, M - 1);
    }

    /** The integer behind genrand: the next word of the sequence, tempered. */
    method Genrand() returns (y: Word)
      requires Valid()
      modifies this, mt
      ensures Valid() && Seeded()
      ensures seed == (if old(Seeded()) then old(seed) else 4357)
      ensures drawn == (if old(Seeded()) then old(drawn) else 0) + 1
      ensures y == Temper(X(seed, N + drawn - 1))
    {
      hide Twist, SeedNext, Temper;
      if mti >= N {
        if mti == N + 1 {
          Sgenrand(DEFAULT_SEED);
        }
        Regenerate();
        base := base + N;
        mti := 0;
      }
      assert mt[mti] == X(seed, base + mti);
      y := Temper(mt[mti]);
      mti := mti + 1;
      drawn := drawn + 1;
    }
  }
}
