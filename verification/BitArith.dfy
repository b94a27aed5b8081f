/** The unsigned bit operations of uthash on natural numbers. */
module BitArith {
  function Pow2(e: nat): (r: nat)
    ensures r >= 1
  {
    if e == 0 then 1 else 2 * Pow2(e - 1)
  }

  /** Bitwise and. */
  function BitAnd(a: nat, b: nat): nat {
    if a == 0 || b == 0 then 0
    else 2 * BitAnd(a / 2, b / 2) + (a % 2) * (b % 2)
  }

  /** a >> k. */
  function Shr(a: nat, k: nat): nat {
    if k == 0 then a else Shr(a / 2, k - 1)
  }

  /** Masking with 2^k - 1 is reduction modulo 2^k. */
  lemma {:induction false} MaskIsMod(a: nat, k: nat)
    ensures BitAnd(a, Pow2(k) - 1) == a % Pow2(k)
    decreases k
  {
    if k == 0 {
    } else {
      var m := Pow2(k - 1);
      MaskIsMod(a / 2, k - 1);
      AndStep(a, m);
      ModSplit(a, m);
    }
  }

  lemma AndStep(a: nat, m: nat)
    requires m > 0
    ensures BitAnd(a, 2 * m - 1) == 2 * BitAnd(a / 2, m - 1) + a % 2
  {
    assert (2 * m - 1) / 2 == m - 1 && (2 * m - 1) % 2 == 1;
  }

  lemma ModSplit(a: nat, m: nat)
    requires m > 0
    ensures a % (2 * m) == 2 * ((a / 2) % m) + a % 2
  {
    var q, r := a / 2 / m, (a / 2) % m;
    assert a / 2 == q * m + r;
    assert a == (2 * m) * q + (2 * r + a % 2) by {
      assert a == 2 * (a / 2) + a % 2;
    }
    ModUnique(a, 2 * m, q, 2 * r + a % 2);
  }

  lemma MulMonotone(m: nat, a: int, b: int)
    requires a <= b
    ensures m * a <= m * b
  {
    MulDiff(m, a, b);
  }

  lemma MulDiff(m: nat, a: int, b: int)
    requires a <= b
    ensures m * b == m * a + m * (b - a)
    ensures m * (b - a) >= 0
  {
  }

  lemma QuotientOrder(m: nat, q: nat, r: nat, q': nat, r': nat)
    requires r < m && q < q'
    ensures m * q + r < m * q' + r'
  {
    MulMonotone(m, q + 1, q');
    assert m * (q + 1) == m * q + m;
  }

  lemma QuotientUnique(m: nat, q: nat, r: nat, q': nat, r': nat)
    requires r < m && r' < m && m * q + r == m * q' + r'
    ensures q == q' && r == r'
  {
    if q < q' {
      QuotientOrder(m, q, r, q', r');
    } else if q' < q {
      QuotientOrder(m, q', r', q, r);
    }
  }

  lemma ModUnique(a: nat, m: nat, q: nat, r: nat)
    requires m > 0 && r < m && a == m * q + r
    ensures a % m == r && a / m == q
  {
    QuotientUnique(m, q, r, a / m, a % m);
  }

  /** Doubling the modulus keeps the remainder or adds the old modulus to it. */
  lemma ModDouble(a: nat, m: nat)
    requires m > 0
    ensures a % (2 * m) == a % m || a % (2 * m) == a % m + m
    ensures (a % (2 * m)) % m == a % m
  {
    DivMod(a, 2 * m);
    Halves(a, m, a / (2 * m), a % (2 * m));
  }

  lemma DivMod(n: nat, b: nat)
    requires b > 0
    ensures n == b * (n / b) + n % b && n % b < b && n / b >= 0
  {
  }

  lemma Halves(a: nat, m: nat, q: nat, r: nat)
    requires a == (2 * m) * q + r && r < 2 * m
    ensures a % m == r % m == if r < m then r else r - m
  {
    var p := m * q;
    assert m * (2 * q) == 2 * p && m * (2 * q + 1) == 2 * p + m && (2 * m) * q == 2 * p;
    if r < m {
      ModUnique(a, m, 2 * q, r);
      ModUnique(r, m, 0, r);
    } else {
      ModUnique(a, m, 2 * q + 1, r - m);
      ModUnique(r, m, 1, r - m);
    }
  }

  /** The shift-and-mask formula of the header comment. */
  function CeilShift(n: nat, lb: nat): nat {
    Shr(n, lb) + if BitAnd(n, Pow2(lb) - 1) != 0 then 1 else 0
  }

  /** ... is the least number of rows of 2^lb that holds `n` items: ceil(n / 2^lb). */
  lemma CeilShiftIsCeil(n: nat, lb: nat)
    ensures n <= Pow2(lb) * CeilShift(n, lb)
    ensures forall c: nat :: n <= Pow2(lb) * c ==> CeilShift(n, lb) <= c
  {
    hide CeilShift, Pow2;
    var q, r := CeilShiftParts(n, lb);
    CeilUpper(n, Pow2(lb), q, r);
    forall c: nat | n <= Pow2(lb) * c ensures CeilShift(n, lb) <= c {
      CeilLeast(n, Pow2(lb), q, r, c);
    }
  }

  lemma CeilShiftParts(n: nat, lb: nat) returns (q: nat, r: nat)
    ensures n == Pow2(lb) * q + r && r < Pow2(lb)
    ensures CeilShift(n, lb) == if r != 0 then q + 1 else q
  {
    MaskIsMod(n, lb);
    ShiftAndMask(n, lb);
    q, r := Shr(n, lb), BitAnd(n, Pow2(lb) - 1);
  }

  lemma Recombine(a: nat, m: nat, q: nat, r: nat)
    requires a / 2 == m * q + r && r < m
    ensures a == (2 * m) * q + (2 * r + a % 2) && 2 * r + a % 2 < 2 * m
  {
    var p := m * q;
    assert (2 * m) * q == 2 * p;
    assert a == 2 * (a / 2) + a % 2;
  }

  /** Shifting and masking by k are quotient and remainder by 2^k. */
  lemma {:induction false} ShiftAndMask(a: nat, k: nat)
    ensures a == Pow2(k) * Shr(a, k) + BitAnd(a, Pow2(k) - 1)
    ensures BitAnd(a, Pow2(k) - 1) < Pow2(k)
  {
    if k == 0 {
      assert BitAnd(a, 0) == 0;
    } else {
      var m, q, r := Pow2(k - 1), Shr(a / 2, k - 1), BitAnd(a / 2, Pow2(k - 1) - 1);
      ShiftAndMask(a / 2, k - 1);
      AndStep(a, m);
      Recombine(a, m, q, r);
      assert Pow2(k) == 2 * m && Shr(a, k) == q;
    }
  }

  lemma CeilUpper(n: nat, b: nat, q: nat, r: nat)
    requires r < b && n == b * q + r
    ensures n <= b * if r != 0 then q + 1 else q
  {
    assert b * (q + 1) == b * q + b;
  }

  lemma CeilLeast(n: nat, b: nat, q: nat, r: nat, c: nat)
    requires r < b && n == b * q + r && n <= b * c
    ensures (if r != 0 then q + 1 else q) <= c
  {
    if c < q {
      MulMonotone(b, c + 1, q);
      assert b * (c + 1) == b * c + b;
    }
  }
}
