/** HASH_JEN, the hash function uthash uses by default, on 32-bit words. */
module Jenkins {
  import opened BitArith
  import opened Elements

  const WORD := 0x1_0000_0000

  /** An unsigned 32-bit word; wrap-around is explicit in every operation. */
  type Word = x: nat | x < WORD

  function Plus(a: Word, b: nat): Word { (a + b) % WORD }

  function Minus(a: Word, b: Word): Word { (a - b) % WORD }

  function ShiftRight(a: Word, k: nat): Word {
    ShrAtMost(a, k);
    Shr(a, k)
  }

  lemma {:induction false} ShrAtMost(a: nat, k: nat)
    ensures Shr(a, k) <= a
  {
    if k > 0 { ShrAtMost(a / 2, k - 1); }
  }

  function ShiftLeft(a: Word, k: nat): Word { (a * Pow2(k)) % WORD }

  /** Shifting left puts `k` zeros behind what is left of the word. */
  lemma ShiftLeftIs(a: Word, k: nat)
    requires k <= 32
    ensures Shr(ShiftLeft(a, k), k) == a % Pow2(32 - k) && ShiftLeft(a, k) % Pow2(k) == 0
  {
    hide Pow2, Shr, BitAnd, ShiftLeft;
    ShiftLeftKeeps(a, k);
    var p, r := Pow2(k), a % Pow2(32 - k);
    ShiftAndMask(r * p, k);
    QuotientUnique(p, Shr(r * p, k), BitAnd(r * p, p - 1), r, 0);
    ModUnique(r * p, p, r, 0);
  }

  lemma ShiftLeftKeeps(a: Word, k: nat)
    requires k <= 32
    ensures ShiftLeft(a, k) == a % Pow2(32 - k) * Pow2(k)
  {
    hide Pow2;
    Pow2Sum(k, 32 - k);
    WordIsPow2();
    LowPart(a, Pow2(k), Pow2(32 - k));
  }

  lemma LowPart(a: nat, p: nat, q: nat)
    requires p > 0 && q > 0 && p * q > 0
    ensures (a * p) % (p * q) == a % q * p
  {
    DivMod(a, q);
    var x, r := a / q, a % q;
    Distribute(a, p, q, x, r);
    MulMonotone(p, r + 1, q);
    Below(p, q, r);
    ModUnique(a * p, p * q, x, r * p);
  }

  lemma Below(p: nat, q: nat, r: nat)
    requires p > 0 && p * (r + 1) <= p * q
    ensures r * p < p * q
  {
    assert p * (r + 1) == r * p + p;
  }

  lemma Distribute(a: nat, p: nat, q: nat, x: nat, r: nat)
    requires a == q * x + r
    ensures a * p == p * q * x + r * p
  {
    assert (q * x + r) * p == q * x * p + r * p;
    assert q * x * p == p * q * x;
  }

  lemma {:induction false} Pow2Sum(m: nat, n: nat)
    ensures Pow2(m + n) == Pow2(m) * Pow2(n)
  {
    if m > 0 {
      Pow2Sum(m - 1, n);
      assert Pow2(m) * Pow2(n) == 2 * (Pow2(m - 1) * Pow2(n));
    }
  }

  /** Exclusive or, bit by bit. */
  function BitXor(a: nat, b: nat): nat {
    if a == 0 && b == 0 then 0 else 2 * BitXor(a / 2, b / 2) + (a + b) % 2
  }

  lemma XorStep(a: nat, b: nat)
    ensures BitXor(a, b) / 2 == BitXor(a / 2, b / 2) && BitXor(a, b) % 2 == (a + b) % 2
  {
  }

  lemma {:induction false} XorTwice(a: nat, b: nat)
    ensures BitXor(BitXor(a, b), b) == a
  {
    if a != 0 || b != 0 {
      hide BitXor;
      var x := BitXor(a, b);
      XorTwice(a / 2, b / 2);
      XorStep(a, b);
      XorStep(x, b);
      Parity(a, b, x);
      HalfAndBit(BitXor(x, b), a);
    } else {
      assert BitXor(0, 0) == 0;
    }
  }

  lemma Parity(a: nat, b: nat, x: nat)
    requires x % 2 == (a + b) % 2
    ensures (x + b) % 2 == a % 2
  {
  }

  lemma HalfAndBit(x: nat, y: nat)
    requires x / 2 == y / 2 && x % 2 == y % 2
    ensures x == y
  {
  }

  lemma {:induction false} XorBelow(a: nat, b: nat, k: nat)
    requires a < Pow2(k) && b < Pow2(k)
    ensures BitXor(a, b) < Pow2(k)
  {
    if k > 0 { XorBelow(a / 2, b / 2, k - 1); }
  }

  lemma WordIsPow2()
    ensures WORD == Pow2(32)
  {
    assert Pow2(4) == 16 && Pow2(8) == 256 && Pow2(12) == 0x1000 && Pow2(16) == 0x1_0000;
    assert Pow2(20) == 0x10_0000 && Pow2(24) == 0x100_0000 && Pow2(28) == 0x1000_0000;
  }

  function Xor(a: Word, b: Word): (r: Word)
    ensures BitXor(r, b) == a
  {
    WordIsPow2();
    XorBelow(a, b, 32);
    XorTwice(a, b);
    BitXor(a, b)
  }

  /** The three words being mixed; `h` becomes the hash value. */
  datatype Words = Words(i: Word, j: Word, h: Word)

  // ------------------------------------------------------------ mixing

  /** One line of HASH_JEN_MIX: a -= b; a -= c; a ^= s. */
  function Line(a: Word, b: Word, c: Word, s: Word): Word {
    Xor(Minus(Minus(a, b), c), s)
  }

  function Unline(a: Word, b: Word, c: Word, s: Word): Word {
    Plus(Plus(Xor(a, s), c), b)
  }

  lemma XorCancels(a: Word, b: Word)
    ensures Xor(Xor(a, b), b) == a
  {
    XorTwice(a, b);
    hide BitXor;
  }

  lemma PlusCancels(a: Word, b: Word)
    ensures Plus(Minus(a, b), b) == a && Minus(Plus(a, b), b) == a
  {
    hide BitXor;
    if a >= b {
      assert Minus(a, b) == a - b;
    } else {
      assert Minus(a, b) == a - b + WORD;
    }
    if a + b < WORD {
      assert Plus(a, b) == a + b;
    } else {
      assert Plus(a, b) == a + b - WORD;
    }
  }

  lemma LineUndone(a: Word, b: Word, c: Word, s: Word)
    ensures Unline(Line(a, b, c, s), b, c, s) == a
  {
    hide Plus, Minus, Xor;
    XorCancels(Minus(Minus(a, b), c), s);
    PlusCancels(Minus(a, b), c);
    PlusCancels(a, b);
  }

  lemma LineRedone(a: Word, b: Word, c: Word, s: Word)
    ensures Line(Unline(a, b, c, s), b, c, s) == a
  {
    hide Plus, Minus, Xor;
    PlusCancels(Plus(Xor(a, s), c), b);
    PlusCancels(Xor(a, s), c);
    XorCancels(a, s);
  }

  /** Three lines of HASH_JEN_MIX: shift right by f, left by g, right by k. */
  function Round(w: Words, f: nat, g: nat, k: nat): Words {
    var i := Line(w.i, w.j, w.h, ShiftRight(w.h, f));
    var j := Line(w.j, w.h, i, ShiftLeft(i, g));
    Words(i, j, Line(w.h, i, j, ShiftRight(j, k)))
  }

  function Unround(w: Words, f: nat, g: nat, k: nat): Words {
    var h := Unline(w.h, w.i, w.j, ShiftRight(w.j, k));
    var j := Unline(w.j, h, w.i, ShiftLeft(w.i, g));
    Words(Unline(w.i, j, h, ShiftRight(h, f)), j, h)
  }

  /** Whatever the shifts, a round can be undone ... */
  lemma RoundUndone(w: Words, f: nat, g: nat, k: nat)
    ensures Unround(Round(w, f, g, k), f, g, k) == w
  {
    hide Line, Unline, ShiftLeft, ShiftRight;
    var i := Line(w.i, w.j, w.h, ShiftRight(w.h, f));
    var j := Line(w.j, w.h, i, ShiftLeft(i, g));
    LineUndone(w.h, i, j, ShiftRight(j, k));
    LineUndone(w.j, w.h, i, ShiftLeft(i, g));
    LineUndone(w.i, w.j, w.h, ShiftRight(w.h, f));
  }

  /** ... and an undone round redone. */
  lemma RoundRedone(w: Words, f: nat, g: nat, k: nat)
    ensures Round(Unround(w, f, g, k), f, g, k) == w
  {
    hide Line, Unline, ShiftLeft, ShiftRight;
    var h := Unline(w.h, w.i, w.j, ShiftRight(w.j, k));
    var j := Unline(w.j, h, w.i, ShiftLeft(w.i, g));
    LineRedone(w.i, j, h, ShiftRight(h, f));
    LineRedone(w.j, h, w.i, ShiftLeft(w.i, g));
    LineRedone(w.h, w.i, w.j, ShiftRight(w.j, k));
  }

  /** HASH_JEN_MIX. */
  function Mix(w: Words): Words {
    Round(Round(Round(w, 13, 8, 13), 12, 16, 5), 3, 10, 15)
  }

  /** Its inverse. */
  function Unmix(w: Words): Words {
    Unround(Unround(Unround(w, 3, 10, 15), 12, 16, 5), 13, 8, 13)
  }

  /** HASH_JEN_MIX is a bijection on three words. */
  lemma MixIsBijection(w: Words)
    ensures Unmix(Mix(w)) == w && Mix(Unmix(w)) == w
  {
    hide Round, Unround;
    RoundUndone(w, 13, 8, 13);
    RoundUndone(Round(w, 13, 8, 13), 12, 16, 5);
    RoundUndone(Round(Round(w, 13, 8, 13), 12, 16, 5), 3, 10, 15);
    RoundRedone(w, 3, 10, 15);
    RoundRedone(Unround(w, 3, 10, 15), 12, 16, 5);
    RoundRedone(Unround(Unround(w, 3, 10, 15), 12, 16, 5), 13, 8, 13);
  }

  // ------------------------------------------------------------ keys

  /** Four key bytes as a word. */
  function Pack(b0: Byte, b1: Byte, b2: Byte, b3: Byte): Word {
    b0 + 0x100 * b1 + 0x1_0000 * b2 + 0x100_0000 * b3
  }

  /** The first byte is the lowest. */
  lemma PackBytes(b0: Byte, b1: Byte, b2: Byte, b3: Byte)
    ensures var w := Pack(b0, b1, b2, b3);
            w % 0x100 == b0 && w / 0x100 % 0x100 == b1 && w / 0x1_0000 % 0x100 == b2 && w / 0x100_0000 == b3
  {
    var w := Pack(b0, b1, b2, b3);
    var x2 := b2 as nat + 0x100 * b3 as nat;
    var x1 := b1 as nat + 0x100 * x2;
    ModUnique(w, 0x100, x1, b0);
    ModUnique(x1, 0x100, x2, b1);
    ModUnique(x2, 0x100, b3, b2);
    ModUnique(w, 0x1_0000, x2, b0 as nat + 0x100 * b1 as nat);
    ModUnique(w, 0x100_0000, b3, b0 as nat + 0x100 * b1 as nat + 0x1_0000 * b2 as nat);
  }

  /** Take in one block of twelve bytes. */
  function Absorb(w: Words, b: seq<Byte>): Words
    requires |b| == 12
  {
    Mix(Words(Plus(w.i, Pack(b[0], b[1], b[2], b[3])),
              Plus(w.j, Pack(b[4], b[5], b[6], b[7])),
              Plus(w.h, Pack(b[8], b[9], b[10], b[11]))))
  }

  /** Byte `k` of what is left, or nothing. */
  function At(rest: seq<Byte>, k: nat): Byte {
    if k < |rest| then rest[k] else 0
  }

  /** Take in the last bytes, fewer than twelve, and the key length. */
  function Finish(w: Words, rest: seq<Byte>, keylen: nat): Words {
    Mix(Words(Plus(w.i, Pack(At(rest, 0), At(rest, 1), At(rest, 2), At(rest, 3))),
              Plus(w.j, Pack(At(rest, 4), At(rest, 5), At(rest, 6), At(rest, 7))),
              Plus(Plus(w.h, keylen), Pack(0, At(rest, 8), At(rest, 9), At(rest, 10)))))
  }

  /** The words after all of `key`, starting from `w`. */
  function Final(w: Words, key: seq<Byte>, keylen: nat): Words
    decreases |key|
  {
    if |key| >= 12 then Final(Absorb(w, key[..12]), key[12..], keylen) else Finish(w, key, keylen)
  }

  const START := Words(0x9e37_79b9, 0x9e37_79b9, 0xfeed_beef)

  /** HASH_JEN, the default HASH_FUNCTION. */
  function Jen(key: seq<Byte>): Word {
    Final(START, key, |key|).h
  }

  lemma MixInjective(v: Words, w: Words)
    requires Mix(v) == Mix(w)
    ensures v == w
  {
    MixIsBijection(v);
    MixIsBijection(w);
  }

  lemma PackInjective(a: seq<Byte>, b: seq<Byte>)
    requires |a| == 4 && |b| == 4 && Pack(a[0], a[1], a[2], a[3]) == Pack(b[0], b[1], b[2], b[3])
    ensures a == b
  {
    var x2, y2 := a[2] as nat + 0x100 * a[3] as nat, b[2] as nat + 0x100 * b[3] as nat;
    var x1, y1 := a[1] as nat + 0x100 * x2, b[1] as nat + 0x100 * y2;
    LowByte(a[0], b[0], x1, y1);
    LowByte(a[1], b[1], x2, y2);
    LowByte(a[2], b[2], a[3], b[3]);
  }

  lemma PlusInjective(a: Word, p: nat, b: Word, q: nat)
    requires Plus(a, p) == Plus(b, q)
    ensures p == q ==> a == b
    ensures a == b && p < WORD && q < WORD ==> p == q
  {
  }

  lemma LowByte(a: Byte, b: Byte, x: nat, y: nat)
    requires a + 0x100 * x == b + 0x100 * y
    ensures a == b && x == y
  {
  }

  /** Absorbing a block is injective in the block and in the words before. */
  lemma AbsorbInjective(v: Words, w: Words, a: seq<Byte>, b: seq<Byte>)
    requires |a| == 12 && |b| == 12 && Absorb(v, a) == Absorb(w, b)
    ensures v == w ==> a == b
    ensures a == b ==> v == w
  {
    hide Mix, Pack, Plus;
    var a0, a1, a2 := Pack(a[0], a[1], a[2], a[3]), Pack(a[4], a[5], a[6], a[7]), Pack(a[8], a[9], a[10], a[11]);
    var b0, b1, b2 := Pack(b[0], b[1], b[2], b[3]), Pack(b[4], b[5], b[6], b[7]), Pack(b[8], b[9], b[10], b[11]);
    MixInjective(Words(Plus(v.i, a0), Plus(v.j, a1), Plus(v.h, a2)),
                 Words(Plus(w.i, b0), Plus(w.j, b1), Plus(w.h, b2)));
    PlusInjective(v.i, a0, w.i, b0);
    PlusInjective(v.j, a1, w.j, b1);
    PlusInjective(v.h, a2, w.h, b2);
    if v == w {
      PackInjective(a[..4], b[..4]);
      PackInjective(a[4..8], b[4..8]);
      PackInjective(a[8..], b[8..]);
      assert a == a[..4] + a[4..8] + a[8..] && b == b[..4] + b[4..8] + b[8..];
    }
  }

  lemma FinishInjective(v: Words, w: Words, rest: seq<Byte>, keylen: nat)
    requires Finish(v, rest, keylen) == Finish(w, rest, keylen)
    ensures v == w
  {
    hide Mix, Pack, Plus;
    var p := Pack(At(rest, 0), At(rest, 1), At(rest, 2), At(rest, 3));
    var q := Pack(At(rest, 4), At(rest, 5), At(rest, 6), At(rest, 7));
    var r := Pack(0, At(rest, 8), At(rest, 9), At(rest, 10));
    MixInjective(Words(Plus(v.i, p), Plus(v.j, q), Plus(Plus(v.h, keylen), r)),
                 Words(Plus(w.i, p), Plus(w.j, q), Plus(Plus(w.h, keylen), r)));
    PlusInjective(v.i, p, w.i, p);
    PlusInjective(v.j, q, w.j, q);
    PlusInjective(Plus(v.h, keylen), r, Plus(w.h, keylen), r);
    PlusInjective(v.h, keylen, w.h, keylen);
  }

  lemma {:induction false} FinalInjective(v: Words, w: Words, key: seq<Byte>, keylen: nat)
    requires Final(v, key, keylen) == Final(w, key, keylen)
    ensures v == w
    decreases |key|
  {
    hide Absorb, Finish;
    if |key| >= 12 {
      FinalInjective(Absorb(v, key[..12]), Absorb(w, key[..12]), key[12..], keylen);
      AbsorbInjective(v, w, key[..12], key[..12]);
    } else {
      FinishInjective(v, w, key, keylen);
    }
  }

  /** Changing one aligned block of a key always changes the final words, no
      matter what comes before and after it. */
  lemma {:induction false} BlockMatters(w: Words, pre: seq<Byte>, a: seq<Byte>, b: seq<Byte>, post: seq<Byte>,
                                        keylen: nat)
    requires |a| == 12 && |b| == 12 && |pre| % 12 == 0
    requires Final(w, pre + a + post, keylen) == Final(w, pre + b + post, keylen)
    ensures a == b
    decreases |pre|
  {
    hide Absorb, Finish;
    var x, y := pre + a + post, pre + b + post;
    if pre == [] {
      assert x[..12] == a && y[..12] == b && x[12..] == post && y[12..] == post;
      FinalInjective(Absorb(w, a), Absorb(w, b), post, keylen);
      AbsorbInjective(w, w, a, b);
    } else {
      assert x[..12] == pre[..12] && y[..12] == pre[..12];
      assert x[12..] == pre[12..] + a + post && y[12..] == pre[12..] + b + post;
      BlockMatters(Absorb(w, pre[..12]), pre[12..], a, b, post, keylen);
    }
  }

  /** The loop body of HASH_JEN. */
  method TakeBlock(i: Word, j: Word, h: Word, b: seq<Byte>) returns (i': Word, j': Word, h': Word)
    requires |b| == 12
    ensures Words(i', j', h') == Absorb(Words(i, j, h), b)
  {
    hide Mix, Plus, Pack;
    i' := Plus(i, Pack(b[0], b[1], b[2], b[3]));
    j' := Plus(j, Pack(b[4], b[5], b[6], b[7]));
    h' := Plus(h, Pack(b[8], b[9], b[10], b[11]));
    var w := Mix(Words(i', j', h'));
    i', j', h' := w.i, w.j, w.h;
  }

  /** What follows the loop of HASH_JEN. */
  method TakeRest(i: Word, j: Word, h: Word, rest: seq<Byte>, keylen: nat) returns (hashv: Word)
    ensures hashv == Finish(Words(i, j, h), rest, keylen).h
  {
    hide Mix, Plus, Pack;
    hashv := Plus(h, keylen);
    hashv := AddWord(hashv, rest, 8, 1);
    var j' := AddWord(j, rest, 4, 0);
    var i' := AddWord(i, rest, 0, 0);
    hashv := Mix(Words(i', j', hashv)).h;
  }

  /** HASH_JEN. */
  method HashJen(key: seq<Byte>) returns (hashv: Word)
    ensures hashv == Jen(key)
  {
    var i: Word, j: Word := 0x9e37_79b9, 0x9e37_79b9;
    hashv := 0xfeed_beef;
    var rest := key;
    while |rest| >= 12
      invariant Final(Words(i, j, hashv), rest, |key|) == Final(START, key, |key|)
    {
      hide Absorb, Finish;
      i, j, hashv := TakeBlock(i, j, hashv, rest[..12]);
      rest := rest[12..];
    }
    hide Finish;
    hashv := TakeRest(i, j, hashv, rest, |key|);
  }

  lemma PlusPlus(x: Word, a: nat, b: nat)
    ensures Plus(Plus(x, a), b) == Plus(x, a + b) && Plus(x, 0) == x
  {
  }

  /** The cases of the switch for one word: the bytes from position `at` on, as
      far as there are any, go to byte positions `low` to 3 of the word. */
  method AddWord(x: Word, rest: seq<Byte>, at: nat, low: nat) returns (r: Word)
    requires low <= 1
    ensures r == Plus(x, if low == 0 then Pack(At(rest, at), At(rest, at + 1), At(rest, at + 2), At(rest, at + 3))
                         else Pack(0, At(rest, at), At(rest, at + 1), At(rest, at + 2)))
  {
    hide Plus;
    var n := |rest| - at;
    ghost var sum := 0;
    r := x;
    PlusPlus(x, 0, 0);
    if n >= 4 - low {
      sum := Shifted(rest[at + 3 - low], 0x100_0000);
      r := Plus(r, Shifted(rest[at + 3 - low], 0x100_0000));
    }
    if n >= 3 - low {
      PlusPlus(x, sum, Shifted(rest[at + 2 - low], 0x1_0000));
      sum := sum + Shifted(rest[at + 2 - low], 0x1_0000);
      r := Plus(r, Shifted(rest[at + 2 - low], 0x1_0000));
    }
    if n >= 2 - low {
      PlusPlus(x, sum, Shifted(rest[at + 1 - low], 0x100));
      sum := sum + Shifted(rest[at + 1 - low], 0x100);
      r := Plus(r, Shifted(rest[at + 1 - low], 0x100));
    }
    if n >= 1 && low == 0 {
      PlusPlus(x, sum, rest[at]);
      sum := sum + rest[at];
      r := Plus(r, rest[at]);
    }
  }

  /** A byte, moved up by multiplying with a power of two. */
  function Shifted(b: Byte, m: nat): nat { b * m }
}
