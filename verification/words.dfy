/**
 Machine words as naturals, with the bit operations C applies to them.  Shifts are multiplication and
 division by powers of two; &, | and ^ are defined bit by bit, and the lemmas say what they come to on the
 masks the sources use.
 */
module Words {

  function Pow2(n: nat): (p: nat)
    ensures p >= 1
  {
    if n == 0 then 1 else 2 * Pow2(n - 1)
  }

  function And(x: nat, y: nat): nat {
    if x == 0 || y == 0 then 0 else 2 * And(x / 2, y / 2) + if x % 2 == 1 && y % 2 == 1 then 1 else 0
  }

  function Or(x: nat, y: nat): nat
    decreases x + y
  {
    if x == 0 then y else if y == 0 then x
    else 2 * Or(x / 2, y / 2) + if x % 2 == 1 || y % 2 == 1 then 1 else 0
  }

  function Div(x: nat, p: nat): nat
    requires p > 0
  {
    x / p
  }

  function Mod(x: nat, p: nat): (r: nat)
    requires p > 0
    ensures r < p
  {
    x % p
  }

  function Shl(x: nat, k: nat): nat { x * Pow2(k) }
  function Shr(x: nat, k: nat): nat { Div(x, Pow2(k)) }

  // The k low bits.
  function Low(x: nat, k: nat): nat { Mod(x, Pow2(k)) }

  lemma {:induction false} Pow2Add(a: nat, b: nat)
    ensures Pow2(a + b) == Pow2(a) * Pow2(b)
  {
    if a != 0 {
      Pow2Add(a - 1, b);
      assert Pow2(a + b) == 2 * Pow2(a - 1 + b);
      assert Pow2(a) * Pow2(b) == 2 * (Pow2(a - 1) * Pow2(b));
    }
  }

  lemma {:induction false} Pow2Monotone(a: nat, b: nat)
    requires a <= b
    ensures Pow2(a) <= Pow2(b)
  {
    if a < b {
      Pow2Monotone(a, b - 1);
    }
  }

  lemma {:induction false} MulAtLeast(k: nat, d: nat)
    requires k >= 1
    ensures k * d >= d
  {
    assert k * d == (k - 1) * d + d;
  }

  lemma MulMonotone(a: nat, b: nat, d: nat)
    requires a <= b
    ensures a * d <= b * d
  {
    assert b * d == a * d + (b - a) * d;
  }

  // The quotient and remainder of n by d are unique.
  lemma DivModUnique(n: int, d: int, q: int, r: int)
    requires d > 0 && n == q * d + r && 0 <= r < d
    ensures n / d == q && n % d == r
  {
    var q', r' := n / d, n % d;
    QuotientNotAbove(d, q, r, q', r');
    QuotientNotAbove(d, q', r', q, r);
  }

  lemma MulMinus(a: int, b: int, d: int)
    ensures (a - b) * d == a * d - b * d
  {
  }

  lemma QuotientNotAbove(d: int, q: int, r: int, q': int, r': int)
    requires d > 0 && q * d + r == q' * d + r' && 0 <= r < d && 0 <= r' < d
    ensures q <= q'
  {
    MulMinus(q, q', d);
    if q > q' {
      MulAtLeast(q - q', d);
    }
  }

  lemma DivModSum(n: nat, d: nat)
    requires d > 0
    ensures n == (n / d) * d + n % d && n % d < d
  {
  }

  // Dividing by 2 * p is dividing by 2 and then by p.
  lemma HalveFirst(x: nat, p: nat)
    requires p > 0
    ensures x / (2 * p) == (x / 2) / p
    ensures x % (2 * p) == 2 * ((x / 2) % p) + x % 2
  {
    var q, r := (x / 2) / p, (x / 2) % p;
    assert x / 2 == q * p + r;
    assert x == 2 * (x / 2) + x % 2;
    assert q * (2 * p) == 2 * (q * p);
    DivModUnique(x, 2 * p, q, 2 * r + x % 2);
  }

  /** x & (2^k - 1) */
  lemma {:induction false} AndLowMask(x: nat, k: nat)
    ensures And(x, Pow2(k) - 1) == Low(x, k)
    decreases k
  {
    if k != 0 {
      var p := Pow2(k - 1);
      AndLowMask(x / 2, k - 1);
      HalveFirst(x, p);
      assert (2 * p - 1) / 2 == p - 1 && (2 * p - 1) % 2 == 1;
    }
  }

  lemma AndFull(x: nat, n: nat)
    requires x < Pow2(n)
    ensures And(x, Pow2(n) - 1) == x
  {
    AndLowMask(x, n);
    DivModUnique(x, Pow2(n), 0, x);
  }

  /** ~(2^k - 1) in w bits */
  function HighMask(k: nat, w: nat): nat
    requires k <= w
  {
    Pow2Monotone(k, w);
    Pow2(w) - Pow2(k)
  }

  /** x & ~(2^k - 1), for x of w bits */
  lemma {:induction false} AndHighMask(x: nat, k: nat, w: nat)
    requires k <= w && x < Pow2(w)
    ensures And(x, HighMask(k, w)) == x - Low(x, k)
    decreases w
  {
    Pow2Monotone(k, w);
    if w == 0 {
    } else if k == 0 {
      AndFull(x, w);
    } else {
      var p, m := Pow2(k - 1), Pow2(w - 1);
      AndHighMask(x / 2, k - 1, w - 1);
      HalveFirst(x, p);
      AndDouble(x, m - p);
    }
  }

  /** x & ((2^n - 1) << k) */
  lemma {:induction false} AndMiddleMask(x: nat, n: nat, k: nat)
    ensures And(x, (Pow2(n) - 1) * Pow2(k)) == Low(Shr(x, k), n) * Pow2(k)
    decreases k
  {
    if k == 0 {
      AndLowMask(x, n);
    } else {
      var m, p := Pow2(n) - 1, Pow2(k - 1);
      var mp := m * p;
      AndMiddleMask(x / 2, n, k - 1);
      HalveFirst(x, p);
      assert Pow2(k) == 2 * p && Shr(x, k) == Shr(x / 2, k - 1);
      hide And, Low, Shr, Pow2;
      Twice(m, p);
      Twice(Low(Shr(x, k), n), p);
      AndDouble(x, mp);
    }
  }

  lemma Twice(m: nat, p: nat)
    ensures m * (2 * p) == 2 * (m * p)
  {
  }

  lemma {:induction false} AndBelow(x: nat, y: nat)
    ensures And(x, y) <= y
    decreases y
  {
    if x > 0 && y > 0 {
      AndBelow(x / 2, y / 2);
    }
  }

  lemma AndDouble(x: nat, y: nat)
    ensures And(x, 2 * y) == 2 * And(x / 2, y)
  {
    assert (2 * y) / 2 == y && (2 * y) % 2 == 0;
  }

  lemma MulDiv(x: nat, p: nat)
    requires p > 0
    ensures (x * p) / p == x && (x * p) % p == 0
  {
    DivModUnique(x * p, p, x, 0);
  }

  /** Dropping the low bits first and shifting then is shifting. */
  lemma DropThenShift(x: nat, p: nat)
    requires p > 0
    ensures (x - x % p) / p == x / p
  {
    DivModUnique(x - x % p, p, x / p, 0);
  }

  lemma DivDiv(x: nat, a: nat, b: nat)
    requires a > 0 && b > 0
    ensures x / (a * b) == (x / a) / b
  {
    var q, r := (x / a) / b, (x / a) % b;
    assert x == a * (b * q + r) + x % a;
    assert a * (b * q + r) == q * (a * b) + a * r;
    assert a * r + x % a < a * b by {
      MulAtLeast2(a, r, b);
    }
    DivModUnique(x, a * b, q, a * r + x % a);
  }

  lemma MulAtLeast2(a: nat, r: nat, b: nat)
    requires r < b
    ensures a * r + a <= a * b
  {
    assert a * b == a * r + a * (b - r);
    MulAtLeast(b - r, a);
    assert a * (b - r) == (b - r) * a;
  }

  /** (x << k) | y, for y below 2^k */
  lemma {:induction false} OrShifted(x: nat, y: nat, k: nat)
    requires y < Pow2(k)
    ensures Or(x * Pow2(k), y) == x * Pow2(k) + y
    ensures Or(y, x * Pow2(k)) == x * Pow2(k) + y
    decreases k
  {
    if k != 0 && x != 0 && y != 0 {
      var p := Pow2(k - 1);
      var xp := x * p;
      assert x * Pow2(k) == 2 * xp;
      assert xp > 0;
      OrShifted(x, y / 2, k - 1);
      assert (2 * xp) / 2 == xp && (2 * xp) % 2 == 0;
    }
  }

  /** & and | act on the low and the high bits separately. */
  lemma {:induction false} AndSplit(x: nat, y: nat, k: nat)
    ensures Low(And(x, y), k) == And(Low(x, k), Low(y, k))
    ensures Shr(And(x, y), k) == And(Shr(x, k), Shr(y, k))
    decreases k
  {
    if k != 0 {
      var p := Pow2(k - 1);
      AndSplit(x / 2, y / 2, k - 1);
      HalveFirst(x, p);
      HalveFirst(y, p);
      HalveFirst(And(x, y), p);
      AndStep(x, y);
      AndStep(Low(x, k), Low(y, k));
    }
  }

  lemma AndStep(x: nat, y: nat)
    ensures And(x, y) / 2 == And(x / 2, y / 2) && And(x, y) % 2 == if x % 2 == 1 && y % 2 == 1 then 1 else 0
  {
  }

  lemma {:induction false} OrSplit(x: nat, y: nat, k: nat)
    ensures Low(Or(x, y), k) == Or(Low(x, k), Low(y, k))
    ensures Shr(Or(x, y), k) == Or(Shr(x, k), Shr(y, k))
    decreases k
  {
    if k != 0 {
      var p := Pow2(k - 1);
      OrSplit(x / 2, y / 2, k - 1);
      HalveFirst(x, p);
      HalveFirst(y, p);
      HalveFirst(Or(x, y), p);
      OrStep(x, y);
      OrStep(Low(x, k), Low(y, k));
    }
  }

  lemma OrStep(x: nat, y: nat)
    ensures Or(x, y) / 2 == Or(x / 2, y / 2)
    ensures Or(x, y) % 2 == if x % 2 == 1 || y % 2 == 1 then 1 else 0
  {
    OrZero(x / 2);
    OrZero(y / 2);
  }

  lemma OrZero(x: nat)
    ensures Or(x, 0) == x && Or(0, x) == x
  {
  }

  /** Byte k of x. */
  function ByteOf(x: nat, k: nat): (b: nat)
    ensures b < 256
  {
    Shr(x, 8 * k) % 256
  }

  lemma ByteOfAnd(x: nat, y: nat, k: nat)
    ensures ByteOf(And(x, y), k) == And(ByteOf(x, k), ByteOf(y, k))
  {
    AndSplit(x, y, 8 * k);
    AndSplit(Shr(x, 8 * k), Shr(y, 8 * k), 8);
    assert Pow2(8) == 256;
  }

  lemma ByteOfOr(x: nat, y: nat, k: nat)
    ensures Shr(Or(x, y), 8 * k) % 256 == Or(ByteOf(x, k), ByteOf(y, k))
  {
    OrSplit(x, y, 8 * k);
    OrSplit(Shr(x, 8 * k), Shr(y, 8 * k), 8);
    assert Pow2(8) == 256;
  }

  lemma AndByteMask(b: nat)
    requires b < 256
    ensures And(b, 255) == b && And(b, 0) == 0
  {
    var n := Pow2(8);
    assert n == 256;
    AndFull(b, 8);
  }
}
