/** 64-bit machine words as natural numbers.  Shifts are divisions and multiplications by powers of
    two, masks of adjacent bits are remainders, and `Or` is the bitwise operator itself. */
module Words {
  const USIZE_LIMIT: nat := 0x1_0000_0000_0000_0000

  type Usize = n: nat | n < USIZE_LIMIT

  function Pow2(k: nat): (r: nat)
    ensures r >= 1
  {
    if k == 0 then 1 else 2 * Pow2(k - 1)
  }

  function Div(a: nat, d: nat): (q: nat)
    requires d > 0
  {
    a / d
  }

  /** `a >> k`. */
  function Shr(a: nat, k: nat): nat {
    if k == 0 then a else Shr(a / 2, k - 1)
  }

  /** The low `k` bits of `a`. */
  function Low(a: nat, k: nat): nat {
    if k == 0 then 0 else a % 2 + 2 * Low(a / 2, k - 1)
  }

  function Or(a: nat, b: nat): nat {
    if a == 0 then b
    else if b == 0 then a
    else (if a % 2 == 1 || b % 2 == 1 then 1 else 0) + 2 * Or(a / 2, b / 2)
  }

  lemma {:induction false} Pow2Product(a: nat, b: nat)
    ensures Pow2(a + b) == Pow2(a) * Pow2(b)
  {
    if a > 0 {
      Pow2Product(a - 1, b);
      assert Pow2(a) * Pow2(b) == 2 * (Pow2(a - 1) * Pow2(b));
    }
  }

  lemma {:induction false} Pow2Values()
    ensures Pow2(3) == 8 && Pow2(10) == 0x400 && Pow2(19) == 0x8_0000 && Pow2(28) == 0x1000_0000
    ensures Pow2(64) == USIZE_LIMIT
  {
    assert Pow2(9) == 0x200;
    Pow2Product(9, 10);
    Pow2Product(9, 19);
    Pow2Product(28, 4);
    assert Pow2(32) == 0x1_0000_0000;
    Pow2Product(32, 32);
  }

  /** `a << k`. */
  function Shl(a: nat, k: nat): nat {
    if k == 0 then a else 2 * Shl(a, k - 1)
  }

  lemma {:induction false} ShlIsMul(a: nat, k: nat)
    ensures Shl(a, k) == a * Pow2(k)
  {
    if k > 0 {
      ShlIsMul(a, k - 1);
      MulAssociates(2, a, Pow2(k - 1));
      MulAssociates(a, 2, Pow2(k - 1));
    }
  }

  lemma {:induction false} OrShl(a: nat, b: nat, k: nat)
    requires b < Pow2(k)
    ensures Or(Shl(a, k), b) == Shl(a, k) + b
  {
    if k > 0 {
      OrShl(a, b / 2, k - 1);
      OrJoins(Shl(a, k), b);
    }
  }

  /** Words without a common bit: `|` is addition. */
  lemma {:induction false} OrIsSum(a: nat, b: nat, k: nat)
    requires b < Pow2(k)
    ensures Or(a * Pow2(k), b) == a * Pow2(k) + b
  {
    OrShl(a, b, k);
    ShlIsMul(a, k);
  }

  lemma {:induction false} OrBound(a: nat, b: nat, k: nat)
    requires a < Pow2(k) && b < Pow2(k)
    ensures Or(a, b) < Pow2(k)
  {
    if a != 0 && b != 0 {
      OrBound(a / 2, b / 2, k - 1);
    }
  }

  lemma {:induction false} OrZero(a: nat, b: nat)
    ensures Or(a, b) == 0 <==> a == 0 && b == 0
  {
    if a != 0 && b != 0 {
      OrZero(a / 2, b / 2);
    }
  }

  lemma {:induction false} OrJoins(a: nat, b: nat)
    ensures Or(a, b) == (if a % 2 == 1 || b % 2 == 1 then 1 else 0) + 2 * Or(a / 2, b / 2)
  {
  }

  /** The bits of `|` from position `k` on come from the same positions of its operands. */
  lemma {:induction false} OrHigh(a: nat, b: nat, k: nat)
    ensures Shr(Or(a, b), k) == Or(Shr(a, k), Shr(b, k))
  {
    if k > 0 {
      OrHalf(a, b);
      OrHigh(a / 2, b / 2, k - 1);
    }
  }

  lemma {:induction false} OrHalf(a: nat, b: nat)
    ensures Or(a, b) / 2 == Or(a / 2, b / 2)
  {
    OrJoins(a, b);
  }

  /** And so do the bits below position `k`. */
  lemma {:induction false} OrLow(a: nat, b: nat, k: nat)
    ensures Low(Or(a, b), k) == Or(Low(a, k), Low(b, k))
  {
    if k > 0 {
      OrJoins(a, b);
      OrLow(a / 2, b / 2, k - 1);
      OrJoins(Low(a, k), Low(b, k));
    }
  }

  lemma {:induction false} ShrIsDiv(a: nat, k: nat)
    ensures Shr(a, k) == a / Pow2(k)
  {
    if k > 0 {
      ShrIsDiv(a / 2, k - 1);
      Digits(a, 2, Pow2(k - 1));
    }
  }

  lemma {:induction false} LowIsMod(a: nat, k: nat)
    ensures Low(a, k) == a % Pow2(k)
  {
    if k > 0 {
      LowIsMod(a / 2, k - 1);
      Digits(a, 2, Pow2(k - 1));
    }
  }

  lemma {:induction false} MulAssociates(a: nat, b: nat, c: nat)
    ensures a * (b * c) == (a * b) * c
  {
  }

  lemma {:induction false} DigitFits(b: nat, p: nat, r: nat, low: nat)
    requires r < p && low < b
    ensures r * b + low < b * p
  {
    assert (p - 1 - r) * b >= 0;
    assert (p - 1 - r) * b == p * b - b - r * b;
  }

  /** Splitting off the lowest digit in base `b`. */
  lemma {:induction false} Digits(a: nat, b: nat, p: nat)
    requires b > 0 && p > 0 && b * p > 0
    ensures a / (b * p) == a / b / p && a % (b * p) == a / b % p * b + a % b
  {
    DigitsOf(a, b, p, a / b, a % b, a / b / p, a / b % p);
  }

  lemma {:induction false} DigitsOf(a: nat, b: nat, p: nat, h: nat, low: nat, q: nat, r: nat)
    requires a == b * h + low && low < b && h == p * q + r && r < p
    ensures b * p > 0 && a / (b * p) == q && a % (b * p) == r * b + low
  {
    DigitsRegroup(b, p, q, r);
    DigitFits(b, p, r, low);
    DivUnique(a, b * p, q, r * b + low);
  }

  lemma {:induction false} DigitsRegroup(b: nat, p: nat, q: nat, r: nat)
    ensures b * (p * q + r) == (b * p) * q + r * b
  {
    MulAssociates(b, p, q);
    MulDistributes(b, p * q, r);
  }

  lemma {:induction false} MulDistributes(a: nat, b: nat, c: nat)
    ensures a * (b + c) == a * b + c * a
  {
  }

  lemma {:induction false} MultipleIsFar(d: nat, n: int)
    ensures n >= 1 ==> d * n >= d
    ensures n <= -1 ==> d * n + d <= 0
  {
    assert d * n == d * (n - 1) + d;
    assert d * n == d * (n + 1) - d;
  }

  lemma {:induction false} DivUnique(a: nat, d: nat, q: nat, r: nat)
    requires d > 0 && a == d * q + r && r < d
    ensures a / d == q && a % d == r
  {
    var n := a / d - q;
    assert a == d * (a / d) + a % d;
    assert d * n == d * (a / d) - d * q;
    MultipleIsFar(d, n);
  }
}
