/** HASH_JEN_MIX on 32-bit machine words, and that the arithmetic of `Jenkins` is
    what these words do. */
module JenkinsBits {
  import opened BitArith
  import opened Jenkins

  // ------------------------------------------------------------ words as numbers

  /** `a >> 1` and `a & 1`. */
  function Half(a: bv32): bv32 { a >> 1 }

  function Bit(a: bv32): nat {
    if a & 1 == 1 then 1 else 0
  }

  /** The number that the lowest `n` bits of `a` stand for. */
  function Low(a: bv32, n: nat): nat
    decreases n
  {
    if n == 0 then 0 else 2 * Low(Half(a), n - 1) + Bit(a)
  }

  lemma {:induction false} LowBelow(a: bv32, n: nat)
    ensures Low(a, n) < Pow2(n)
    decreases n
  {
    hide Half, Bit;
    if n > 0 {
      LowBelow(Half(a), n - 1);
      BitIs(a);
    }
  }

  lemma BitIs(a: bv32)
    ensures Bit(a) <= 1
  {
  }

  /** An unsigned word as a number. */
  function Value(a: bv32): Word {
    LowBelow(a, 32);
    WordIsPow2();
    Low(a, 32)
  }

  /** `a >> n`, bit by bit. */
  function Drop(a: bv32, n: nat): bv32
    decreases n
  {
    if n == 0 then a else Drop(Half(a), n - 1)
  }

  /** One more bit. */
  lemma {:induction false} LowMore(a: bv32, n: nat)
    ensures Low(a, n + 1) == Low(a, n) + Pow2(n) * Bit(Drop(a, n))
    decreases n
  {
    hide Half, Bit, Low, Drop, Pow2;
    LowUnfold(a, n + 1);
    if n == 0 {
      LowNone(a);
      LowNone(Half(a));
      DropUnfold(a, n);
    } else {
      LowUnfold(a, n);
      DropUnfold(a, n);
      LowMore(Half(a), n - 1);
      PowStep(n);
      Twice(Pow2(n - 1), Bit(Drop(a, n)));
    }
  }

  lemma LowUnfold(a: bv32, n: nat)
    requires n > 0
    ensures Low(a, n) == 2 * Low(Half(a), n - 1) + Bit(a)
  {
  }

  lemma LowNone(a: bv32)
    ensures Low(a, 0) == 0 && Pow2(0) == 1
  {
  }

  lemma DropUnfold(a: bv32, n: nat)
    ensures Drop(a, n) == if n == 0 then a else Drop(Half(a), n - 1)
  {
  }

  lemma PowStep(n: nat)
    requires n > 0
    ensures Pow2(n) == 2 * Pow2(n - 1)
  {
  }

  lemma Twice(p: nat, b: nat)
    ensures (2 * p) * b == 2 * (p * b)
  {
  }

  lemma {:induction false} DropDrop(a: bv32, m: nat, n: nat)
    ensures Drop(a, m + n) == Drop(Drop(a, m), n)
    decreases m
  {
    hide Half;
    if m > 0 { DropDrop(Half(a), m - 1, n); }
  }

  lemma DropFour(a: bv32)
    ensures Drop(a, 1) == a >> 1 && Drop(a, 2) == a >> 2 && Drop(a, 3) == a >> 3 && Drop(a, 4) == a >> 4
  {
    assert Drop(a >> 1, 0) == a >> 1;
    assert Drop(a >> 1, 1) == a >> 2 by { assert Drop(a >> 2, 0) == a >> 2; }
    assert Drop(a >> 1, 2) == a >> 3 by { assert Drop(a >> 2, 1) == Drop(a >> 3, 0); }
    assert Drop(a >> 1, 3) == a >> 4 by { assert Drop(a >> 2, 2) == Drop(a >> 3, 1) == Drop(a >> 4, 0); }
  }

  lemma Compose(a: bv32, b: bv32, c: bv32, m: nat, n: nat)
    requires Drop(a, m) == b && Drop(b, n) == c
    ensures Drop(a, m + n) == c
  {
    DropDrop(a, m, n);
  }

  lemma Drop5(a: bv32)
    ensures Drop(a, 5) == a >> 5
  {
    hide Drop;
    DropFour(a);
    DropFour(a >> 4);
    Compose(a, a >> 4, a >> 5, 4, 1);
  }

  lemma Drop8(a: bv32)
    ensures Drop(a, 8) == a >> 8
  {
    hide Drop;
    DropFour(a);
    DropFour(a >> 4);
    Compose(a, a >> 4, a >> 8, 4, 4);
  }

  lemma Drop12(a: bv32)
    ensures Drop(a, 12) == a >> 12
  {
    hide Drop;
    Drop8(a);
    DropFour(a >> 8);
    Compose(a, a >> 8, a >> 12, 8, 4);
  }

  lemma Drop13(a: bv32)
    ensures Drop(a, 13) == a >> 13
  {
    hide Drop;
    Drop12(a);
    DropFour(a >> 12);
    Compose(a, a >> 12, a >> 13, 12, 1);
  }

  lemma Drop15(a: bv32)
    ensures Drop(a, 15) == a >> 15
  {
    hide Drop;
    Drop12(a);
    DropFour(a >> 12);
    Compose(a, a >> 12, a >> 15, 12, 3);
  }

  lemma Drop20(a: bv32)
    ensures Drop(a, 20) == a >> 20
  {
    hide Drop;
    Drop12(a);
    Drop8(a >> 12);
    Compose(a, a >> 12, a >> 20, 12, 8);
  }

  lemma Drop28(a: bv32)
    ensures Drop(a, 28) == a >> 28
  {
    hide Drop;
    Drop20(a);
    Drop8(a >> 20);
    Compose(a, a >> 20, a >> 28, 20, 8);
  }

  lemma Drop31(a: bv32)
    ensures Drop(a, 31) == a >> 31
  {
    hide Drop;
    Drop28(a);
    DropFour(a >> 28);
    Compose(a, a >> 28, a >> 31, 28, 3);
  }

  // ------------------------------------------------------------ shifts

  lemma RightOne(a: bv32)
    ensures Value(Half(a)) == Value(a) / 2
  {
    hide Half, Bit, Pow2, Drop, Low;
    LowMore(Half(a), 31);
    TopGone(a);
    LowUnfold(a, 32);
    BitIs(a);
    assert Pow2(31) * 0 == 0;
  }

  lemma TopGone(a: bv32)
    ensures Bit(Drop(Half(a), 31)) == 0
  {
    hide Drop;
    Drop31(Half(a));
  }

  lemma {:induction false} RightIs(a: bv32, k: nat)
    ensures Value(Drop(a, k)) == Shr(Value(a), k)
    decreases k
  {
    hide Value, Half;
    if k > 0 {
      RightOne(a);
      RightIs(Half(a), k - 1);
    }
  }

  /** The words agree up to bit 30. */
  predicate Agree(a: bv32, b: bv32, m: bv32) { a & m == b & m }

  /** The lowest `n` bits of `m` are set. */
  predicate Ones(m: bv32, n: nat)
    decreases n
  {
    n == 0 || (Bit(m) == 1 && Ones(Half(m), n - 1))
  }

  lemma {:induction false} OnesLess(m: bv32, n: nat, k: nat)
    requires Ones(m, n) && k <= n
    ensures Ones(m, k)
    decreases n
  {
    hide Bit, Half;
    if k > 0 { OnesLess(Half(m), n - 1, k - 1); }
  }

  lemma AgreeStep(a: bv32, b: bv32, m: bv32)
    requires Agree(a, b, m)
    ensures Agree(Half(a), Half(b), Half(m))
    ensures Bit(m) == 1 ==> Bit(a) == Bit(b)
  {
  }

  lemma {:induction false} LowAgree(a: bv32, b: bv32, m: bv32, n: nat)
    requires Agree(a, b, m) && Ones(m, n)
    ensures Low(a, n) == Low(b, n)
    decreases n
  {
    hide Agree, Half, Bit;
    if n > 0 {
      AgreeStep(a, b, m);
      LowAgree(Half(a), Half(b), Half(m), n - 1);
    }
  }

  lemma OnesFour(m: bv32, n: nat)
    requires n >= 4 && m & 0xf == 0xf && Ones(m >> 4, n - 4)
    ensures Ones(m, n)
  {
    assert Ones(m >> 3, n - 3);
    assert Ones(m >> 2, n - 2);
    assert Ones(m >> 1, n - 1);
  }

  const MASK: bv32 := 0x7fff_ffff

  lemma MaskOnes(n: nat)
    requires n <= 31
    ensures Ones(MASK, n)
  {
    assert Ones(0x7, 3) by { assert Ones(0x1, 1) && Ones(0x3, 2); }
    OnesFour(0x7f, 7);
    OnesFour(0x7ff, 11);
    OnesFour(0x7fff, 15);
    OnesFour(0x7_ffff, 19);
    OnesFour(0x7f_ffff, 23);
    OnesFour(0x7ff_ffff, 27);
    OnesFour(0x7fff_ffff, 31);
    OnesLess(0x7fff_ffff, 31, n);
  }

  function Double(a: bv32): bv32 { a << 1 }

  /** Shifting left drops the top bit. */
  lemma LeftOne(a: bv32)
    ensures Value(Double(a)) == 2 * Value(a) % WORD
  {
    hide Pow2, Drop, Low, Double, Bit;
    LeftLow(a);
    LowMore(a, 31);
    LowBelow(a, 31);
    BitIs(Drop(a, 31));
    HalfWord();
  }

  lemma LeftLow(a: bv32)
    ensures Low(Double(a), 32) == 2 * Low(a, 31)
  {
    hide Low, Ones, Half, Double, Bit, Agree;
    MaskOnes(31);
    DoubleHalf(a);
    LowAgree(Half(Double(a)), a, MASK, 31);
    LowUnfold(Double(a), 32);
  }

  lemma DoubleHalf(a: bv32)
    ensures Agree(Half(Double(a)), a, MASK) && Bit(Double(a)) == 0
  {
  }

  lemma HalfWord()
    ensures 2 * Pow2(31) == WORD
  {
    WordIsPow2();
  }

  // ------------------------------------------------------------ exclusive or

  function Eor(a: bv32, b: bv32): bv32 { a ^ b }

  lemma EorHalf(a: bv32, b: bv32)
    ensures Half(Eor(a, b)) == Eor(Half(a), Half(b)) && Bit(Eor(a, b)) == (Bit(a) + Bit(b)) % 2
  {
  }

  lemma {:induction false} LowEor(a: bv32, b: bv32, n: nat)
    ensures Low(Eor(a, b), n) == BitXor(Low(a, n), Low(b, n))
    decreases n
  {
    hide Half, Bit, Eor, Low, BitXor;
    if n > 0 {
      EorHalf(a, b);
      LowEor(Half(a), Half(b), n - 1);
      BitIs(a);
      BitIs(b);
      LowUnfold(a, n);
      LowUnfold(b, n);
      LowUnfold(Eor(a, b), n);
      XorUp(Low(Half(a), n - 1), Low(Half(b), n - 1), Bit(a), Bit(b));
    } else {
      LowNone(a);
      LowNone(b);
      LowNone(Eor(a, b));
      XorNone();
    }
  }

  lemma XorNone()
    ensures BitXor(0, 0) == 0
  {
  }

  lemma XorUp(x: nat, y: nat, p: nat, q: nat)
    requires p <= 1 && q <= 1
    ensures BitXor(2 * x + p, 2 * y + q) == 2 * BitXor(x, y) + (p + q) % 2
  {
    assert (2 * x + p) / 2 == x && (2 * y + q) / 2 == y;
  }

  lemma EorIs(a: bv32, b: bv32)
    ensures Value(Eor(a, b)) == Xor(Value(a), Value(b))
  {
    hide Low, Eor;
    LowEor(a, b, 32);
  }

  // ------------------------------------------------------------ sums and differences

  function Both(a: bv32, b: bv32): bv32 { a & b }

  function Sum(a: bv32, b: bv32): bv32 { a + b }

  function Difference(a: bv32, b: bv32): bv32 { a - b }

  function OnlyOne(a: bv32, b: bv32): bv32 { a & !b }

  lemma Regroup(p: bv32, q: bv32, o: bv32)
    ensures Sum(p + o, q + o) == Sum(p + q, o + o)
  {
  }

  lemma SumIsPlus(a: bv32, b: bv32)
    ensures Sum(a, b) == a + b
  {
  }

  lemma SumRegroup(p: bv32, q: bv32, o: bv32)
    ensures Sum(Sum(p, o), Sum(q, o)) == Sum(Sum(p, q), Sum(o, o))
  {
    hide Sum;
    Regroup(p, q, o);
    SumIsPlus(p, o);
    SumIsPlus(q, o);
    SumIsPlus(p, q);
    SumIsPlus(o, o);
  }

  lemma FirstParts(a: bv32, b: bv32)
    ensures Sum(OnlyOne(a, b), Both(a, b)) == a
  {
  }

  lemma SecondParts(a: bv32, b: bv32)
    ensures Sum(OnlyOne(b, a), Both(a, b)) == b
  {
  }

  lemma EorParts(a: bv32, b: bv32)
    ensures Sum(OnlyOne(a, b), OnlyOne(b, a)) == Eor(a, b)
  {
  }

  lemma DoubleParts(a: bv32)
    ensures Sum(a, a) == Double(a)
  {
  }

  /** A sum is the bits where the words differ, and the carries. */
  lemma SumSplit(a: bv32, b: bv32)
    ensures Sum(a, b) == Sum(Eor(a, b), Double(Both(a, b)))
  {
    hide Sum, Eor, Double, Both, OnlyOne;
    SumRegroup(OnlyOne(a, b), OnlyOne(b, a), Both(a, b));
    FirstParts(a, b);
    SecondParts(a, b);
    EorParts(a, b);
    DoubleParts(Both(a, b));
  }

  lemma HalfBoth(a: bv32, b: bv32)
    ensures Half(Both(a, b)) == Both(Half(a), Half(b))
    ensures Bit(a) + Bit(b) == Bit(Eor(a, b)) + 2 * Bit(Both(a, b))
  {
  }

  lemma {:induction false} LowSplit(a: bv32, b: bv32, n: nat)
    ensures Low(a, n) + Low(b, n) == Low(Eor(a, b), n) + 2 * Low(Both(a, b), n)
    decreases n
  {
    hide Half, Bit, Eor, Both, Low;
    if n > 0 {
      HalfBoth(a, b);
      EorHalf(a, b);
      LowSplit(Half(a), Half(b), n - 1);
      LowUnfold(a, n);
      LowUnfold(b, n);
      LowUnfold(Eor(a, b), n);
      LowUnfold(Both(a, b), n);
    } else {
      LowNone(a);
      LowNone(b);
      LowNone(Eor(a, b));
      LowNone(Both(a, b));
    }
  }

  /** The lowest `k` bits of `b` are clear. */
  predicate Clear(b: bv32, k: nat) { b & MaskOf(k) == 0 }

  function MaskOf(k: nat): bv32 {
    if k == 0 then 0 else (MaskOf(k - 1) << 1) | 1
  }

  lemma ClearNext(a: bv32, b: bv32, k: nat)
    requires Clear(b, k)
    ensures Clear(Double(Both(a, b)), k + 1)
  {
    ClearMask(a, b, MaskOf(k));
  }

  lemma ClearMask(a: bv32, b: bv32, m: bv32)
    requires b & m == 0
    ensures Double(Both(a, b)) & ((m << 1) | 1) == 0
  {
  }

  lemma FullMask()
    ensures MaskOf(32) == 0xffff_ffff
  {
    assert MaskOf(2) == 3 && MaskOf(4) == 0xf && MaskOf(6) == 0x3f && MaskOf(8) == 0xff;
    assert MaskOf(10) == 0x3ff && MaskOf(12) == 0xfff && MaskOf(14) == 0x3fff && MaskOf(16) == 0xffff;
    assert MaskOf(18) == 0x3_ffff && MaskOf(20) == 0xf_ffff && MaskOf(22) == 0x3f_ffff && MaskOf(24) == 0xff_ffff;
    assert MaskOf(26) == 0x3ff_ffff && MaskOf(28) == 0xfff_ffff && MaskOf(30) == 0x3fff_ffff;
  }

  lemma ClearAll(b: bv32)
    requires Clear(b, 32)
    ensures b == 0
  {
    hide MaskOf;
    FullMask();
  }

  lemma ClearNone(b: bv32)
    ensures Clear(b, 0)
  {
  }

  lemma {:induction false} LowZero(n: nat)
    ensures Low(0, n) == 0
  {
    if n > 0 { LowZero(n - 1); }
  }

  lemma NothingMore(a: bv32)
    ensures Sum(a, 0) == a
    ensures Plus(Value(a), Value(0)) == Value(a)
  {
    hide Low;
    LowZero(32);
  }

  lemma ValueSplit(a: bv32, b: bv32)
    ensures Plus(Value(a), Value(b)) == Plus(Value(Eor(a, b)), Value(Double(Both(a, b))))
  {
    hide Low, Eor, Double, Both;
    LowSplit(a, b, 32);
    LeftOne(Both(a, b));
    SumMod(Value(a), Value(b), Value(Eor(a, b)), Value(Both(a, b)));
  }

  lemma SumMod(x: Word, y: Word, e: Word, c: Word)
    requires x + y == e + 2 * c
    ensures Plus(x, y) == Plus(e, 2 * c % WORD)
  {
  }

  /** Addition, carry by carry: in each round one more bit of `b` is clear. */
  lemma {:induction false} SumFrom(a: bv32, b: bv32, k: nat)
    requires k <= 32 && Clear(b, k)
    ensures Value(Sum(a, b)) == Plus(Value(a), Value(b))
    decreases 32 - k
  {
    hide Value, Plus, Sum, Eor, Double, Both, Clear;
    if k == 32 {
      ClearAll(b);
      NothingMore(a);
    } else {
      ClearNext(a, b, k);
      SumFrom(Eor(a, b), Double(Both(a, b)), k + 1);
      SumSplit(a, b);
      ValueSplit(a, b);
    }
  }

  lemma SumIs(a: bv32, b: bv32)
    ensures Value(Sum(a, b)) == Plus(Value(a), Value(b))
  {
    ClearNone(b);
    hide Sum, Clear, Value, Plus;
    SumFrom(a, b, 0);
  }

  lemma TakenBack(a: bv32, b: bv32)
    ensures Sum(a - b, b) == a
  {
  }

  lemma DifferenceRaw(a: bv32, b: bv32)
    ensures Difference(a, b) == a - b
  {
  }

  lemma DifferenceIs(a: bv32, b: bv32)
    ensures Value(Difference(a, b)) == Minus(Value(a), Value(b))
  {
    hide Sum, Difference, Value, Plus, Minus;
    TakenBack(a, b);
    DifferenceRaw(a, b);
    SumIs(Difference(a, b), b);
    PlusCancels(Value(Difference(a, b)), Value(b));
  }

  // ------------------------------------------------------------ shifts by constants

  /** `a << n`, bit by bit. */
  function Up(a: bv32, n: nat): bv32
    decreases n
  {
    if n == 0 then a else Up(Double(a), n - 1)
  }

  lemma {:induction false} UpUp(a: bv32, m: nat, n: nat)
    ensures Up(a, m + n) == Up(Up(a, m), n)
    decreases m
  {
    hide Double;
    if m > 0 { UpUp(Double(a), m - 1, n); }
  }

  lemma UpCompose(a: bv32, b: bv32, c: bv32, m: nat, n: nat)
    requires Up(a, m) == b && Up(b, n) == c
    ensures Up(a, m + n) == c
  {
    UpUp(a, m, n);
  }

  lemma UpFour(a: bv32)
    ensures Up(a, 2) == a << 2 && Up(a, 4) == a << 4
  {
    assert Up(a << 1, 0) == a << 1;
    assert Up(a << 1, 1) == a << 2 by { assert Up(a << 2, 0) == a << 2; }
    assert Up(a << 1, 3) == a << 4 by { assert Up(a << 2, 2) == Up(a << 3, 1) == Up(a << 4, 0); }
  }

  lemma Up8(a: bv32)
    ensures Up(a, 8) == a << 8
  {
    hide Up;
    UpFour(a);
    UpFour(a << 4);
    UpCompose(a, a << 4, a << 8, 4, 4);
  }

  lemma Up10(a: bv32)
    ensures Up(a, 10) == a << 10
  {
    hide Up;
    Up8(a);
    UpFour(a << 8);
    UpCompose(a, a << 8, a << 10, 8, 2);
  }

  lemma Up16(a: bv32)
    ensures Up(a, 16) == a << 16
  {
    hide Up;
    Up8(a);
    Up8(a << 8);
    UpCompose(a, a << 8, a << 16, 8, 8);
  }

  lemma {:induction false} UpIs(a: bv32, k: nat)
    ensures Value(Up(a, k)) == ShiftLeft(Value(a), k)
    decreases k
  {
    hide Value, Double, Up, ShiftLeft;
    UpUnfold(a, k);
    if k > 0 {
      LeftOne(a);
      UpIs(Double(a), k - 1);
    }
    ShiftOnce(Value(a), k);
  }

  lemma UpUnfold(a: bv32, k: nat)
    ensures Up(a, k) == if k == 0 then a else Up(Double(a), k - 1)
  {
  }

  lemma ShiftOnce(x: Word, k: nat)
    ensures ShiftLeft(x, k) == if k == 0 then x else ShiftLeft(2 * x % WORD, k - 1)
  {
    if k > 0 {
      var y, p := 2 * x % WORD, Pow2(k - 1);
      assert x * Pow2(k) == (2 * x) * p;
      ModProduct(2 * x, y, 2 * x / WORD, p);
    } else {
      assert Pow2(0) == 1;
    }
  }

  lemma ModProduct(z: nat, y: nat, q: nat, p: nat)
    requires z == WORD * q + y
    ensures (z * p) % WORD == (y * p) % WORD
  {
    assert z * p == WORD * (q * p) + y * p;
    var r := (y * p) % WORD;
    assert y * p == WORD * (y * p / WORD) + r;
    assert z * p == WORD * (q * p + y * p / WORD) + r;
    ModUnique(z * p, WORD, q * p + y * p / WORD, r);
  }

  // ------------------------------------------------------------ the macro

  /** a -= b; a -= c; a ^= s. */
  function Line32(a: bv32, b: bv32, c: bv32, s: bv32): bv32 {
    (a - b - c) ^ s
  }

  lemma LineParts(a: bv32, b: bv32, c: bv32, s: bv32)
    ensures Line32(a, b, c, s) == Eor(a - b - c, s) && Difference(a - b, c) == a - b - c
  {
  }

  lemma LineIs(a: bv32, b: bv32, c: bv32, s: bv32)
    ensures Value(Line32(a, b, c, s)) == Line(Value(a), Value(b), Value(c), Value(s))
  {
    hide Value, Line32, Eor, Difference, Minus, Xor;
    LineParts(a, b, c, s);
    DifferenceRaw(a, b);
    DifferenceIs(a, b);
    DifferenceIs(Difference(a, b), c);
    EorIs(Difference(Difference(a, b), c), s);
  }

  lemma Right(a: bv32)
    ensures Value(a >> 3) == ShiftRight(Value(a), 3) && Value(a >> 5) == ShiftRight(Value(a), 5)
    ensures Value(a >> 12) == ShiftRight(Value(a), 12) && Value(a >> 13) == ShiftRight(Value(a), 13)
    ensures Value(a >> 15) == ShiftRight(Value(a), 15)
  {
    hide Value, Drop, Shr;
    DropFour(a);
    Drop5(a);
    Drop12(a);
    Drop13(a);
    Drop15(a);
    RightIs(a, 3);
    RightIs(a, 5);
    RightIs(a, 12);
    RightIs(a, 13);
    RightIs(a, 15);
  }

  lemma Left(a: bv32)
    ensures Value(a << 8) == ShiftLeft(Value(a), 8) && Value(a << 10) == ShiftLeft(Value(a), 10)
    ensures Value(a << 16) == ShiftLeft(Value(a), 16)
  {
    hide Value, Up, ShiftLeft;
    Up8(a);
    Up10(a);
    Up16(a);
    UpIs(a, 8);
    UpIs(a, 10);
    UpIs(a, 16);
  }

  function ValueOf(a: bv32, b: bv32, c: bv32): Words {
    Words(Value(a), Value(b), Value(c))
  }

  /** Three lines of HASH_JEN_MIX at a time. */
  lemma Lines1(i: bv32, j: bv32, h: bv32, a: bv32, b: bv32, c: bv32)
    requires a == Line32(i, j, h, h >> 13) && b == Line32(j, h, a, a << 8) && c == Line32(h, a, b, b >> 13)
    ensures ValueOf(a, b, c) == Round(ValueOf(i, j, h), 13, 8, 13)
  {
    hide Value, Line32, Line, ShiftLeft, ShiftRight;
    Right(h);
    LineIs(i, j, h, h >> 13);
    Left(a);
    LineIs(j, h, a, a << 8);
    Right(b);
    LineIs(h, a, b, b >> 13);
  }

  lemma Lines2(i: bv32, j: bv32, h: bv32, a: bv32, b: bv32, c: bv32)
    requires a == Line32(i, j, h, h >> 12) && b == Line32(j, h, a, a << 16) && c == Line32(h, a, b, b >> 5)
    ensures ValueOf(a, b, c) == Round(ValueOf(i, j, h), 12, 16, 5)
  {
    hide Value, Line32, Line, ShiftLeft, ShiftRight;
    Right(h);
    LineIs(i, j, h, h >> 12);
    Left(a);
    LineIs(j, h, a, a << 16);
    Right(b);
    LineIs(h, a, b, b >> 5);
  }

  lemma Lines3(i: bv32, j: bv32, h: bv32, a: bv32, b: bv32, c: bv32)
    requires a == Line32(i, j, h, h >> 3) && b == Line32(j, h, a, a << 10) && c == Line32(h, a, b, b >> 15)
    ensures ValueOf(a, b, c) == Round(ValueOf(i, j, h), 3, 10, 15)
  {
    hide Value, Line32, Line, ShiftLeft, ShiftRight;
    Right(h);
    LineIs(i, j, h, h >> 3);
    Left(a);
    LineIs(j, h, a, a << 10);
    Right(b);
    LineIs(h, a, b, b >> 15);
  }

  /** HASH_JEN_MIX as the nine lines of the macro on the caller's variables. */
  method MixWords(i: bv32, j: bv32, h: bv32) returns (a: bv32, b: bv32, c: bv32)
    ensures ValueOf(a, b, c) == Mix(ValueOf(i, j, h))
  {
    hide ValueOf, Round, Line32;
    a := Line32(i, j, h, h >> 13);
    b := Line32(j, h, a, a << 8);
    c := Line32(h, a, b, b >> 13);
    Lines1(i, j, h, a, b, c);
    ghost var x, y, z := a, b, c;
    a := Line32(a, b, c, c >> 12);
    b := Line32(b, c, a, a << 16);
    c := Line32(c, a, b, b >> 5);
    Lines2(x, y, z, a, b, c);
    x, y, z := a, b, c;
    a := Line32(a, b, c, c >> 3);
    b := Line32(b, c, a, a << 10);
    c := Line32(c, a, b, b >> 15);
    Lines3(x, y, z, a, b, c);
  }

  // ------------------------------------------------------------ constants

  /** The lowest four bits. */
  function Digit(a: bv32): nat {
    Bit(a) + 2 * Bit(a >> 1) + 4 * Bit(a >> 2) + 8 * Bit(a >> 3)
  }

  lemma LowFour(a: bv32, b: bv32, n: nat)
    requires n >= 4 && b == a >> 4
    ensures Low(a, n) == Digit(a) + 16 * Low(b, n - 4)
  {
    hide Bit;
    assert Low(a >> 1, n - 1) == 2 * Low(a >> 2, n - 2) + Bit(a >> 1);
    assert Low(a >> 2, n - 2) == 2 * Low(a >> 3, n - 3) + Bit(a >> 2);
    assert Low(a >> 3, n - 3) == 2 * Low(a >> 4, n - 4) + Bit(a >> 3);
  }

  /** The value of `a` by its hexadecimal digits. */
  lemma ValueDigits(a: bv32, b: bv32, c: bv32, d: bv32, e: bv32, f: bv32, g: bv32, h: bv32)
    requires b == a >> 4 && c == b >> 4 && d == c >> 4 && e == d >> 4 && f == e >> 4 && g == f >> 4 && h == g >> 4
    requires h >> 4 == 0
    ensures Value(a) ==
            Digit(a) + 0x10 * Digit(b) + 0x100 * Digit(c) + 0x1000 * Digit(d) +
            0x1_0000 * Digit(e) + 0x10_0000 * Digit(f) + 0x100_0000 * Digit(g) + 0x1000_0000 * Digit(h)
  {
    hide Low, Digit;
    LowFour(a, b, 32);
    LowFour(b, c, 28);
    LowFour(c, d, 24);
    LowFour(d, e, 20);
    LowFour(e, f, 16);
    LowFour(f, g, 12);
    LowFour(g, h, 8);
    LowFour(h, 0, 4);
    LowNone(0);
  }
}
