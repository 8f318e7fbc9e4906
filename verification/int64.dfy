/**
 64-bit division built from 32-bit halves (abstract-machine/klib/src/int64.c:369-417, 427-634) and the
 bit-counting helpers it is written in terms of (int64.c:640-731).
 */
module Int64 {
  import opened Words

  const B: nat := 0x1_0000_0000
  const D: nat := 0x1_0000_0000_0000_0000

  /** udwords.all from its two halves. */
  function All(h: nat, l: nat): nat { h * B + l }

  // A shift on su_int drops what leaves the word.
  function Shl32(x: nat, k: nat): nat { Shl(x, k) % B }

  /* ---- counting bits ---- */

  function Bits(x: nat): nat { if x == 0 then 0 else 1 + Bits(x / 2) }

  lemma {:induction false} BitsBounds(x: nat)
    requires x > 0
    ensures Bits(x) >= 1 && Pow2(Bits(x) - 1) <= x < Pow2(Bits(x))
  {
    if x > 1 {
      BitsBounds(x / 2);
    }
  }

  lemma {:induction false} BitsAtMost(x: nat, n: nat)
    requires x < Pow2(n)
    ensures Bits(x) <= n
  {
    if x > 0 {
      BitsBounds(x);
      if Bits(x) > n {
        Pow2Monotone(n, Bits(x) - 1);
      }
    }
  }

  // Trailing zeros.
  function Ctz(x: nat): nat
    requires x > 0
  {
    if x % 2 == 1 then 0 else 1 + Ctz(x / 2)
  }

  lemma {:induction false} AndSelf(x: nat)
    ensures And(x, x) == x
  {
    if x > 0 {
      AndSelf(x / 2);
    }
  }

  /** d & (d - 1) is zero exactly for powers of two. */
  lemma {:induction false} PowerOfTwoTest(d: nat)
    requires d > 0
    ensures And(d, d - 1) == 0 <==> d == Pow2(Ctz(d))
  {
    if d % 2 == 1 {
      AndSelf(d / 2);
      assert (d - 1) / 2 == d / 2;
    } else {
      PowerOfTwoTest(d / 2);
      assert (d - 1) / 2 == d / 2 - 1;
    }
  }

  /* ---- shifts across the two halves ---- */

  // The two complementary powers of a shift by k.
  lemma Complementary(k: nat)
    requires k <= 32
    ensures Pow2(k) * Pow2(32 - k) == B
  {
    Pow2Add(k, 32 - k);
    WordSizes();
  }

  lemma WordSizes()
    ensures Pow2(32) == B && Pow2(64) == D
  {
    assert Pow2(8) == 0x100;
    hide Pow2;
    Pow2Double(8, 0x100);
    Pow2Double(16, 0x1_0000);
    Pow2Double(32, B);
  }

  lemma Pow2Double(k: nat, p: nat)
    requires Pow2(k) == p
    ensures Pow2(k + k) == p * p
  {
    Pow2Add(k, k);
  }

  // x * p in a word where p * m is the word size: x / m is shifted out, x % m stays.
  lemma SplitShift(x: nat, p: nat, m: nat)
    requires p > 0 && m > 0 && p * m == B && x < B
    ensures x == (x / m) * m + x % m && x / m < p && (x % m) * p < B
    ensures x * p == (x / m) * B + (x % m) * p && (x * p) % B == (x % m) * p
  {
    var q, r := x / m, x % m;
    DivModSum(x, m);
    if q >= p {
      MulMonotone(p, q, m);
    }
    assert (q * m + r) * p == q * (p * m) + r * p;
    MulAtLeast2(p, r, m);
    assert p * r == r * p;
    DivModUnique(x * p, B, q, r * p);
  }

  /** (h:l) << k, for 0 < k < 32 */
  lemma Shl64(h: nat, l: nat, k: nat)
    requires h < B && l < B && 0 < k < 32
    ensures All(Or(Shl32(h, k), Shr(l, 32 - k)), Shl32(l, k)) == Shl(All(h, l), k) % D
    ensures Or(Shl32(h, k), Shr(l, 32 - k)) < B
  {
    var p, m := Pow2(k), Pow2(32 - k);
    Complementary(k);
    SplitShift(h, p, m);
    SplitShift(l, p, m);
    var hr, lq := h % m, l / m;
    JoinBelow(hr, lq, p, m);
    OrShifted(hr, lq, k);
    assert Shl32(h, k) == hr * p && Shl32(l, k) == (l % m) * p && Shr(l, 32 - k) == lq;
    hide Or, Pow2, Shl32, Shr;
    ShlSum(h, l, p, h / m, hr, lq, l % m);
  }

  lemma JoinBelow(r: nat, q: nat, p: nat, m: nat)
    requires r < m && q < p && p * m == B
    ensures r * p + q < B
  {
    MulAtLeast2(p, r, m);
    assert p * r == r * p;
  }

  lemma ShlSum(h: nat, l: nat, p: nat, hq: nat, hr: nat, lq: nat, lr: nat)
    requires h * p == hq * B + hr * p && l * p == lq * B + lr * p
    requires hr * p + lq < B && lr * p < B
    ensures (All(h, l) * p) % D == All(hr * p + lq, lr * p)
  {
    assert All(h, l) * p == (h * p) * B + l * p;
    DivModUnique(All(h, l) * p, D, hq, All(hr * p + lq, lr * p));
  }

  /** (h:l) >> k, for 0 < k < 32 */
  lemma Shr64(h: nat, l: nat, k: nat)
    requires h < B && l < B && 0 < k < 32
    ensures All(Shr(h, k), Or(Shl32(h, 32 - k), Shr(l, k))) == Shr(All(h, l), k)
    ensures Shr(h, k) < B && Or(Shl32(h, 32 - k), Shr(l, k)) < B
  {
    var p, m := Pow2(k), Pow2(32 - k);
    Complementary(k);
    SplitShift(h, m, p);
    SplitShift(l, m, p);
    var hr, lq := h % p, l / p;
    assert hr * m + lq < B by {
      MulAtLeast2(m, hr, p);
      MulSwap(m, hr);
      MulSwap(m, p);
    }
    assert Or(Shl32(h, 32 - k), Shr(l, k)) == hr * m + lq by {
      OrShifted(hr, lq, 32 - k);
    }
    ShrSum(h, l, p, m, h / p, hr, lq, l % p);
    QuotientSmaller(h, p);
  }

  lemma MulSwap(x: int, y: int)
    ensures x * y == y * x
  {
  }

  lemma ShrSum(h: nat, l: nat, p: nat, m: nat, hq: nat, hr: nat, lq: nat, lr: nat)
    requires p * m == B && h == hq * p + hr && l == lq * p + lr && lr < p
    ensures All(h, l) / p == All(hq, hr * m + lq)
  {
    assert All(hq, hr * m + lq) * p == (hq * p) * B + hr * (p * m) + lq * p;
    assert All(h, l) == All(hq, hr * m + lq) * p + lr;
    DivModUnique(All(h, l), p, All(hq, hr * m + lq), lr);
  }

  lemma QuotientSmaller(x: nat, p: nat)
    requires p > 0
    ensures x / p <= x
  {
    DivModSum(x, p);
    if x / p > x {
      MulMonotone(x + 1, x / p, p);
      MulSwap(x + 1, p);
      MulAtLeast(p, x + 1);
    }
  }

  /* ---- the general loop ---- */

  /** Where the loop stands: k bits of n are still to come, x of them in the top of q, and the quotient
      so far is 2y + carry. */
  ghost predicate Progress(n: nat, d: nat, s: nat, k: nat, r: nat, q: nat, carry: nat, x: nat, y: nat) {
    && k <= s < 64 && carry <= 1 && r < d && x < Pow2(k) && 2 * y + carry < Pow2(s - k)
    && q == x * Pow2(64 - k) + y
    && n == (d * (2 * y + carry) + r) * Pow2(k) + x
  }

  const TOP: nat := 0x8000_0000_0000_0000

  lemma TopPowers(k: nat)
    requires 0 < k < 64
    ensures Pow2(k - 1) * Pow2(64 - k) == TOP && Pow2(65 - k) == 2 * Pow2(64 - k) && Pow2(k) == 2 * Pow2(k - 1)
  {
    Pow2Add(k - 1, 64 - k);
    Pow2Add(1, 63);
    WordSizes();
  }

  // q holds k bits x at the top and y below; the first of those bits is t.
  lemma BitOfQ(q: nat, x: nat, y: nat, c: nat, h: nat, w: nat) returns (t: nat, x': nat)
    requires h * w == TOP && h > 0 && w > 0 && x < 2 * h && q == x * w + y && y + c < w && c <= y + 1
    ensures t <= 1 && q / TOP == t && x' < h && x == t * h + x'
    ensures 2 * q + c == t * D + (x' * (2 * w) + 2 * y + c) && x' * (2 * w) + 2 * y + c < D
  {
    t, x' := x / h, x % h;
    DivModSum(x, h);
    if t >= 2 {
      MulMonotone(2, t, h);
    }
    var u := x' * w;
    assert x * w == t * TOP + u by {
      assert (t * h + x') * w == t * (h * w) + u;
    }
    assert u + w <= TOP by {
      MulAtLeast2(w, x', h);
      assert w * x' == u && w * h == h * w;
    }
    DivModUnique(q, TOP, t, u + y);
    assert x' * (2 * w) == 2 * u;
  }

  /** One bit of n moves from the top of q to the bottom of r, and the last carry moves in below. */
  lemma BitMoves(n: nat, d: nat, s: nat, k: nat, r: nat, q: nat, carry: nat, x: nat, y: nat) returns (t: nat, x': nat)
    requires Progress(n, d, s, k, r, q, carry, x, y) && k > 0
    ensures t <= 1 && q / TOP == t && x' < Pow2(k - 1)
    ensures 2 * q + carry == t * D + (x' * Pow2(65 - k) + 2 * y + carry) && x' * Pow2(65 - k) + 2 * y + carry < D
    ensures n == (d * (2 * (2 * y + carry)) + (2 * r + t)) * Pow2(k - 1) + x'
    ensures 2 * r + t <= n && (s == 1 ==> 2 * r + t == n)
  {
    TopPowers(k);
    Pow2Monotone(s - k, 64 - k - 1);
    assert y + carry < Pow2(64 - k);
    t, x' := BitOfQ(q, x, y, carry, Pow2(k - 1), Pow2(64 - k));
    SmallTail(n, d, k, r, carry, x, y, t, x', Pow2(k - 1));
  }

  lemma SmallTail(n: nat, d: nat, k: nat, r: nat, carry: nat, x: nat, y: nat, t: nat, x': nat, h: nat)
    requires k > 0 && h == Pow2(k - 1) && Pow2(k) == 2 * h && x == t * h + x'
    requires n == (d * (2 * y + carry) + r) * Pow2(k) + x
    ensures n == (d * (2 * (2 * y + carry)) + (2 * r + t)) * h + x'
    ensures 2 * r + t <= n
    ensures k == 1 && 2 * y + carry == 0 ==> 2 * r + t == n - x'
  {
    var g := d * (2 * y + carry);
    DoubleInside(d, 2 * y + carry);
    Regroup(g, r, t, h);
    var z := 2 * g + (2 * r + t);
    MulSwap(z, h);
    MulAtLeast(h, z);
    if k == 1 && 2 * y + carry == 0 {
      assert h == 1 && g == 0;
    }
  }

  lemma DoubleInside(d: nat, z: nat)
    ensures d * (2 * z) == 2 * (d * z)
  {
  }

  lemma Regroup(g: nat, r: nat, t: nat, h: nat)
    ensures (g + r) * (2 * h) + t * h == (2 * g + (2 * r + t)) * h
  {
    assert (2 * g + (2 * r + t)) * h == (2 * g) * h + (2 * r) * h + t * h;
    assert (g + r) * (2 * h) == (2 * g) * h + (2 * r) * h;
  }

  /** The branch-free comparison: the sign bit of d - r - 1, computed modulo 2^64, says whether r >= d. */
  lemma SignBit(d: nat, r: nat)
    requires 0 < d < D && r < D && r < 2 * d && (d <= TOP || r + TOP >= d)
    ensures (d + D - r - 1) % D >= TOP <==> r >= d
  {
    if r >= d {
      assert (d + D - r - 1) % D == d + D - r - 1;
    } else {
      assert (d + D - r - 1) % D == d - r - 1;
    }
  }

  /** h:l shifted left by one, with b coming in. */
  lemma ShiftPair(h: nat, l: nat, b: nat)
    requires h < B && l < B && b <= 1
    ensures Or(Shl32(h, 1), Shr(l, 31)) < B && Or(Shl32(l, 1), b) < B
    ensures All(Or(Shl32(h, 1), Shr(l, 31)), Or(Shl32(l, 1), b)) == (2 * All(h, l)) % D + b
  {
    Shl64(h, l, 1);
    ShiftByOne(All(h, l));
    LowBit(l, b);
  }

  lemma ShiftByOne(x: nat)
    ensures Shl(x, 1) == 2 * x
  {
    assert Pow2(1) == 2;
  }

  lemma TopBit(h: nat, l: nat)
    requires h < B && l < B
    ensures Shr(h, 31) == All(h, l) / TOP <= 1
  {
    var m := Pow2(31);
    assert 2 * m == B by {
      Pow2Add(1, 31);
      WordSizes();
    }
    DivModSum(h, m);
    DivModUnique(All(h, l), TOP, h / m, (h % m) * B + l);
  }

  /** r:q shifted left by one across all four words. */
  method ShiftFour(rh: nat, rl: nat, qh: nat, ql: nat, carry: nat) returns (rh': nat, rl': nat, qh': nat, ql': nat)
    requires rh < B && rl < B && qh < B && ql < B && carry <= 1
    ensures rh' < B && rl' < B && qh' < B && ql' < B
    ensures All(rh', rl') == (2 * All(rh, rl)) % D + All(qh, ql) / TOP
    ensures All(qh', ql') == (2 * All(qh, ql)) % D + carry
  {
    TopBit(qh, ql);
    ShiftPair(rh, rl, Shr(qh, 31));
    ShiftPair(qh, ql, carry);
    rh' := Or(Shl32(rh, 1), Shr(rl, 31));
    rl' := Or(Shl32(rl, 1), Shr(qh, 31));
    qh' := Or(Shl32(qh, 1), Shr(ql, 31));
    ql' := Or(Shl32(ql, 1), carry);
  }

  lemma LowBit(l: nat, b: nat)
    requires l < B && b <= 1
    ensures Or(Shl32(l, 1), b) == Shl32(l, 1) + b < B
  {
    assert Pow2(1) == 2;
    var half := Shl32(l, 1) / 2;
    assert Shl32(l, 1) == half * Pow2(1);
    OrShifted(half, b, 1);
  }

  /* ---- where the loop starts ---- */

  lemma {:induction false} BitsAre(x: nat, k: nat)
    requires k > 0 && Pow2(k - 1) <= x < Pow2(k)
    ensures Bits(x) == k
  {
    BitsBounds(x);
    if Bits(x) < k {
      Pow2Monotone(Bits(x), k - 1);
    } else if Bits(x) > k {
      Pow2Monotone(k, Bits(x) - 1);
    }
  }

  lemma BitsOfHalves(h: nat, l: nat)
    requires 0 < h && l < B
    ensures Bits(All(h, l)) == 32 + Bits(h)
  {
    var k := Bits(h);
    BitsBounds(h);
    WordSizes();
    Pow2Add(k, 32);
    Pow2Add(k - 1, 32);
    MulMonotone(Pow2(k - 1), h, B);
    MulMonotone(h + 1, Pow2(k), B);
    BitsAre(All(h, l), k + 32);
  }

  /** Shifting n right until it has one bit less than d leaves less than d. */
  lemma QuotientBelow(n: nat, p: nat, h: nat, d: nat)
    requires p > 0 && h <= d && n < h * p
    ensures n / p < d
  {
    DivModSum(n, p);
    if n / p >= d {
      MulMonotone(h, n / p, p);
    }
  }

  lemma StartBelow(n: nat, d: nat, s: nat)
    requires 0 < d && s + Bits(d) == Bits(n) + 1
    ensures n / Pow2(s) < d
  {
    if n > 0 {
      BitsBounds(n);
      BitsBounds(d);
      Pow2Add(Bits(d) - 1, s);
      QuotientBelow(n, Pow2(s), Pow2(Bits(d) - 1), d);
      hide Pow2, Bits;
    } else {
      DivModUnique(n, Pow2(s), 0, 0);
    }
  }

  lemma StartProgress(n: nat, d: nat, s: nat, r: nat, q: nat)
    requires 0 < d && 0 < s < 64 && s + Bits(d) == Bits(n) + 1
    requires r == n / Pow2(s) && q == (n % Pow2(s)) * Pow2(64 - s)
    ensures Progress(n, d, s, s, r, q, 0, n % Pow2(s), 0)
  {
    StartBelow(n, d, s);
    DivModSum(n, Pow2(s));
    assert Pow2(0) == 1;
    assert d * 0 == 0;
  }

  /** A number with more than 63 bits leaves room for one step only. */
  lemma HugeDivisor(n: nat, d: nat, s: nat)
    requires 0 < d && n < D && 0 < s && s + Bits(d) == Bits(n) + 1 && d > TOP
    ensures s == 1 && n >= TOP
  {
    WordSizes();
    Pow2Add(1, 63);
    BitsAtMost(n, 64);
    BitsBounds(d);
    if Bits(d) < 64 {
      Pow2Monotone(Bits(d), 63);
    }
    if n > 0 {
      BitsBounds(n);
      Pow2Monotone(63, Bits(n) - 1);
    }
  }

  /** n << (64 - s) and n >> s, for 0 < s < 64, from the halves of n. */
  method ShiftApart(nh: nat, nl: nat, s: nat) returns (rh: nat, rl: nat, qh: nat, ql: nat)
    requires nh < B && nl < B && 0 < s < 64
    ensures rh < B && rl < B && qh < B && ql < B
    ensures All(rh, rl) == Shr(All(nh, nl), s)
    ensures All(qh, ql) == Low(All(nh, nl), s) * Pow2(64 - s)
  {
    if s == 32 {
      WholeWord(nh, nl);
      ql, qh, rh, rl := 0, nl, 0, nh;
    } else if s < 32 {
      Shr64(nh, nl, s);
      LowOfLow(nh, nl, s);
      ql, qh := 0, Shl32(nl, 32 - s);
      rh, rl := Shr(nh, s), Or(Shl32(nh, 32 - s), Shr(nl, s));
    } else {
      Shl64(nh, nl, 64 - s);
      HighShift(nh, nl, s);
      ql, qh := Shl32(nl, 64 - s), Or(Shl32(nh, 64 - s), Shr(nl, s - 32));
      rh, rl := 0, Shr(nh, s - 32);
    }
  }

  lemma WholeWord(nh: nat, nl: nat)
    requires nl < B
    ensures Shr(All(nh, nl), 32) == nh && Low(All(nh, nl), 32) == nl && Pow2(64 - 32) == B
  {
    WordSizes();
    DivModUnique(All(nh, nl), B, nh, nl);
  }

  lemma LowHalf(nh: nat, nl: nat, p: nat, m: nat)
    requires p > 0 && p * m == B
    ensures All(nh, nl) % p == nl % p
  {
    var q, r := nl / p, nl % p;
    DivModSum(nl, p);
    assert (nh * m + q) * p == nh * (p * m) + q * p;
    DivModUnique(All(nh, nl), p, nh * m + q, r);
  }

  lemma LowOfLow(nh: nat, nl: nat, s: nat)
    requires nl < B && 0 < s < 32
    ensures Shl32(nl, 32 - s) * B == Low(All(nh, nl), s) * Pow2(64 - s) && Shl32(nl, 32 - s) < B
  {
    var p, m := Pow2(s), Pow2(32 - s);
    Complementary(s);
    SplitShift(nl, m, p);
    LowHalf(nh, nl, p, m);
    assert Pow2(64 - s) == m * B by {
      Pow2Add(32 - s, 32);
      WordSizes();
    }
    MulAssoc(nl % p, m, B);
  }

  lemma MulAssoc(x: nat, y: nat, z: nat)
    ensures (x * y) * z == x * (y * z)
  {
  }

  lemma HighShift(nh: nat, nl: nat, s: nat)
    requires nh < B && nl < B && 32 < s < 64
    ensures Shl(All(nh, nl), 64 - s) % D == Low(All(nh, nl), s) * Pow2(64 - s)
    ensures Shr(nh, s - 32) == Shr(All(nh, nl), s) && Shr(nh, s - 32) < B
  {
    Pow2Add(s, 64 - s);
    Pow2Add(32, s - 32);
    WordSizes();
    DropTop(All(nh, nl), Pow2(s), Pow2(64 - s));
    DivDiv(All(nh, nl), B, Pow2(s - 32));
    DivModUnique(All(nh, nl), B, nh, nl);
    QuotientSmaller(nh, Pow2(s - 32));
  }

  lemma DropTop(n: nat, p: nat, w: nat)
    requires p > 0 && w > 0 && p * w == D
    ensures (n * w) % D == (n % p) * w
  {
    var q, x := n / p, n % p;
    DivModSum(n, p);
    assert (q * p + x) * w == q * (p * w) + x * w;
    MulAtLeast2(w, x, p);
    assert w * x == x * w && w * p == p * w;
    DivModUnique(n * w, D, q, x * w);
  }

  /* ---- __udivmoddi4 ---- */

  /** One turn of the loop: shift r:q left by one, then subtract d if it fits, without branching. */
  method Step(rh: nat, rl: nat, qh: nat, ql: nat, carry: nat, d: nat)
    returns (rh': nat, rl': nat, qh': nat, ql': nat, carry': nat)
    requires rh < B && rl < B && qh < B && ql < B && carry <= 1 && 0 < d < D
    requires var r := 2 * All(rh, rl) + All(qh, ql) / TOP; r < D && r < 2 * d && (d <= TOP || r + TOP >= d)
    ensures rh' < B && rl' < B && qh' < B && ql' < B
    ensures var r := 2 * All(rh, rl) + All(qh, ql) / TOP;
            carry' == (if r >= d then 1 else 0) && All(rh', rl') == r - carry' * d
    ensures All(qh', ql') == (2 * All(qh, ql)) % D + carry
  {
    var h, l;
    h, l, qh', ql' := ShiftFour(rh, rl, qh, ql, carry);
    NoOverflow(2 * All(rh, rl));
    rh', rl', carry' := SubtractIfFits(h, l, d);
  }

  lemma NoOverflow(x: nat)
    requires x < D
    ensures x % D == x
  {
  }

  method SubtractIfFits(rh: nat, rl: nat, d: nat) returns (rh': nat, rl': nat, carry: nat)
    requires rh < B && rl < B && 0 < d < D
    requires All(rh, rl) < 2 * d && (d <= TOP || All(rh, rl) + TOP >= d)
    ensures rh' < B && rl' < B && All(rh', rl') == All(rh, rl) - carry * d
    ensures carry == (if All(rh, rl) >= d then 1 else 0)
  {
    var r := All(rh, rl);
    SignBit(d, r);
    // an arithmetic shift of the sign bit over the whole word
    var s := if (d + D - r - 1) % D >= TOP then D - 1 else 0;
    carry, r := Mask(d, s, r);
    rh', rl' := r / B, r % B;
    DivModSum(r, B);
  }

  /** carry = s & 1; r -= d & s, for s all ones or all zeros. */
  method Mask(d: nat, s: nat, r: nat) returns (carry: nat, r': nat)
    requires d < D && r < D && ((s == D - 1 && d <= r) || s == 0)
    ensures carry == (if s == 0 then 0 else 1) && r' == r - carry * d && r' < D
  {
    WordSizes();
    AndFull(d, 64);
    assert And(d, 0) == 0;
    assert s % 2 == (if s == 0 then 0 else 1) && And(s, 1) == s % 2 by {
      AndLowMask(s, 1);
      assert Pow2(1) == 2;
    }
    hide And, Pow2;
    carry := And(s, 1);
    r' := r - And(d, s);
  }

  /** The loop body keeps the loop's progress. */
  method Turn(ghost n: nat, d: nat, ghost s: nat, ghost k: nat, rh: nat, rl: nat, qh: nat, ql: nat, carry: nat,
              ghost x: nat, ghost y: nat)
    returns (rh': nat, rl': nat, qh': nat, ql': nat, carry': nat, ghost x': nat, ghost y': nat)
    requires rh < B && rl < B && qh < B && ql < B && n < D && d < D && k > 0 && s + Bits(d) == Bits(n) + 1
    requires Progress(n, d, s, k, All(rh, rl), All(qh, ql), carry, x, y)
    ensures rh' < B && rl' < B && qh' < B && ql' < B && carry' <= 1
    ensures Progress(n, d, s, k - 1, All(rh', rl'), All(qh', ql'), carry', x', y')
  {
    ghost var r: nat, q: nat, t: nat := All(rh, rl), All(qh, ql), 0;
    t, x' := StepFits(n, d, s, k, r, q, carry, x, y);
    rh', rl', qh', ql', carry' := Step(rh, rl, qh, ql, carry, d);
    y' := 2 * y + carry;
    NextProgress(n, d, s, k, r, q, carry, x, y, t, x', All(rh', rl'), All(qh', ql'), carry');
  }

  /** The general case, from n >> s and n << (64 - s). */
  method DivideLoop(ghost n: nat, d: nat, s: nat, rh0: nat, rl0: nat, qh0: nat, ql0: nat)
    returns (quot: nat, rem: nat)
    requires rh0 < B && rl0 < B && qh0 < B && ql0 < B && n < D && 0 < d < D
    requires 0 < s < 64 && s + Bits(d) == Bits(n) + 1
    requires All(rh0, rl0) == Shr(n, s) && All(qh0, ql0) == Low(n, s) * Pow2(64 - s)
    ensures n == quot * d + rem && rem < d && quot < D
  {
    var rh: nat, rl: nat, qh: nat, ql: nat := rh0, rl0, qh0, ql0;
    var carry: nat, sr: nat := 0, s;
    StartProgress(n, d, s, All(rh, rl), All(qh, ql));
    ghost var x: nat, y: nat := Low(n, s), 0;
    while sr > 0
      invariant rh < B && rl < B && qh < B && ql < B && carry <= 1
      invariant Progress(n, d, s, sr, All(rh, rl), All(qh, ql), carry, x, y)
    {
      rh, rl, qh, ql, carry, x, y := Turn(n, d, s, sr, rh, rl, qh, ql, carry, x, y);
      sr := sr - 1;
    }
    LastStep(n, d, s, All(rh, rl), All(qh, ql), carry, x, y);
    // q = (q << 1) | carry
    quot := (2 * All(qh, ql)) % D + carry;
    rem := All(rh, rl);
  }

  /** The shifted remainder never overflows, and the sign bit decides the comparison. */
  lemma StepFits(n: nat, d: nat, s: nat, k: nat, r: nat, q: nat, carry: nat, x: nat, y: nat) returns (t: nat, x': nat)
    requires Progress(n, d, s, k, r, q, carry, x, y) && k > 0 && n < D && d < D && s + Bits(d) == Bits(n) + 1
    ensures t <= 1 && q / TOP == t && x' < Pow2(k - 1)
    ensures 2 * q + carry == t * D + (x' * Pow2(65 - k) + 2 * y + carry) && x' * Pow2(65 - k) + 2 * y + carry < D
    ensures n == (d * (2 * (2 * y + carry)) + (2 * r + t)) * Pow2(k - 1) + x'
    ensures 2 * r + t < D && 2 * r + t < 2 * d && (d <= TOP || 2 * r + t + TOP >= d)
  {
    t, x' := BitMoves(n, d, s, k, r, q, carry, x, y);
    if d > TOP {
      HugeDivisor(n, d, s);
    }
  }

  lemma NextDividend(d: nat, a: nat, r: nat, c: nat, r': nat, p: nat, n: nat, x: nat)
    requires n == (d * a + r) * p + x && c <= 1 && r' == r - c * d
    ensures n == (d * (a + c) + r') * p + x
  {
    OneMoreDivisor(d, a, c);
    assert d * (a + c) + r' == d * a + r;
  }

  lemma NextProgress(n: nat, d: nat, s: nat, k: nat, r: nat, q: nat, c: nat, x: nat, y: nat, t: nat, x': nat,
                     r': nat, q': nat, c': nat)
    requires Progress(n, d, s, k, r, q, c, x, y) && k > 0 && t <= 1 && x' < Pow2(k - 1)
    requires 2 * q + c == t * D + (x' * Pow2(65 - k) + 2 * y + c) && x' * Pow2(65 - k) + 2 * y + c < D
    requires n == (d * (2 * (2 * y + c)) + (2 * r + t)) * Pow2(k - 1) + x'
    requires c' == (if 2 * r + t >= d then 1 else 0) && r' == 2 * r + t - c' * d && q' == (2 * q) % D + c
    ensures Progress(n, d, s, k - 1, r', q', c', x', 2 * y + c)
  {
    assert Pow2(s - k + 1) == 2 * Pow2(s - k);
    hide Pow2;
    ShiftedOut(q, c, t, x' * Pow2(65 - k) + 2 * y);
    NextDividend(d, 2 * (2 * y + c), 2 * r + t, c', r', Pow2(k - 1), n, x');
    assert s - (k - 1) == s - k + 1 && 64 - (k - 1) == 65 - k;
  }

  lemma ShiftedOut(q: nat, c: nat, t: nat, low: nat)
    requires 2 * q + c == t * D + (low + c) && low < D
    ensures (2 * q) % D == low
  {
    DivModUnique(2 * q, D, t, low);
  }

  lemma OneMoreDivisor(d: nat, z: nat, c: nat)
    requires c <= 1
    ensures d * (z + c) == d * z + c * d
  {
  }

  lemma LastStep(n: nat, d: nat, s: nat, r: nat, q: nat, carry: nat, x: nat, y: nat)
    requires Progress(n, d, s, 0, r, q, carry, x, y)
    ensures var quot := (2 * q) % D + carry; n == quot * d + r && r < d && quot < D
  {
    LastFacts(n, d, s, r, q, carry, x, y);
    hide Pow2, Progress;
    TopPowers(1);
    Pow2Monotone(s, 63);
    DoubledFits(q);
  }

  lemma DoubledFits(q: nat)
    requires 2 * q < D
    ensures (2 * q) % D == 2 * q
  {
  }

  lemma LastFacts(n: nat, d: nat, s: nat, r: nat, q: nat, carry: nat, x: nat, y: nat)
    requires Progress(n, d, s, 0, r, q, carry, x, y)
    ensures s < 64 && r < d && 2 * q + carry < Pow2(s) && n == (2 * q + carry) * d + r
  {
    assert Pow2(0) == 1 && x == 0;
    hide Pow2;
    assert q == y;
    assert d * (2 * y + carry) == (2 * y + carry) * d;
  }

  /* ---- __clzsi2, __ctzsi2, __clzdi2, __ctzdi2 ---- */

  lemma UpperDigit(x: nat, p: nat)
    requires p > 0 && x < p * p
    ensures x / p < p && (x / p) % p == x / p
    ensures x / p == 0 <==> x < p
    ensures (x / p) * p == 0 <==> x < p
  {
    DivModSum(x, p);
    if x / p >= p {
      MulMonotone(p, x / p, p);
    }
    DivModUnique(x / p, p, 0, x / p);
    if x < p {
      DivModUnique(x, p, 0, x);
    }
  }

  /** Are the upper w of 2w bits all zero? */
  lemma UpperHalfZero(x: nat, w: nat)
    requires x < Pow2(2 * w)
    ensures And(x, Shl(Pow2(w) - 1, w)) == 0 <==> x < Pow2(w)
    ensures x >= Pow2(w) ==> Bits(Shr(x, w)) == Bits(x) - w && 0 < Shr(x, w) < Pow2(w)
  {
    Pow2Add(w, w);
    AndMiddleMask(x, w, w);
    UpperDigit(x, Pow2(w));
    if x >= Pow2(w) {
      BitsShr(x, w);
    }
  }

  lemma {:induction false} BitsShr(x: nat, k: nat)
    requires Shr(x, k) > 0
    ensures Bits(Shr(x, k)) == Bits(x) - k
  {
    if k == 0 {
      assert Pow2(0) == 1;
    } else {
      HalveFirst(x, Pow2(k - 1));
      BitsShr(x / 2, k - 1);
    }
  }

  /** One stanza of __clzsi2: keep the upper half of x if it is not zero, else count w zeros. */
  method ClzStanza(x: nat, w: nat) returns (x': nat, t: nat)
    requires 0 < x < Pow2(2 * w)
    ensures 0 < x' < Pow2(w) && t + (w - Bits(x')) == 2 * w - Bits(x)
  {
    UpperHalfZero(x, w);
    t := if And(x, Shl(Pow2(w) - 1, w)) == 0 then w else 0;
    x' := Shr(x, w - t);
    assert Pow2(0) == 1;
  }

  method ClzSi2(a: nat) returns (r: nat)
    requires 0 < a < B
    ensures r == 32 - Bits(a)
  {
    WordSizes();
    var x, t;
    x, t := ClzStanza(a, 16);
    r := t;
    x, t := ClzStanza(x, 8);
    r := r + t;
    x, t := ClzStanza(x, 4);
    r := r + t;
    x, t := ClzStanza(x, 2);
    r := r + t;
    t := ClzLast(x);
    r := r + t;
  }

  method ClzLast(x: nat) returns (t: nat)
    requires 0 < x < Pow2(2)
    ensures t == 2 - Bits(x)
  {
    SmallBits(x);
    t := if And(x, 2) == 0 then 2 - x else 0;
  }

  lemma SmallBits(x: nat)
    requires 0 < x < Pow2(2)
    ensures x < 4 && 2 - Bits(x) == if And(x, 2) == 0 then 2 - x else 0
  {
    assert Pow2(2) == 4;
    assert x == 1 || x == 2 || x == 3;
    assert And(1, 2) == 0 && And(2, 2) == 2 && And(3, 2) == 2;
    assert Bits(1) == 1 && Bits(2) == 2 && Bits(3) == 2;
  }

  lemma {:induction false} LowBitsZero(x: nat, w: nat)
    requires x > 0
    ensures And(x, Pow2(w) - 1) == 0 <==> Ctz(x) >= w
    ensures Ctz(x) >= w ==> Shr(x, w) > 0 && Ctz(Shr(x, w)) == Ctz(x) - w
    decreases w
  {
    AndLowMask(x, w);
    if w == 0 {
      assert Pow2(0) == 1;
    } else {
      HalveFirst(x, Pow2(w - 1));
      if x % 2 == 0 {
        LowBitsZero(x / 2, w - 1);
        AndLowMask(x / 2, w - 1);
      }
    }
  }

  /** One stanza of __ctzsi2: drop w zeros from the bottom of x if they are there. */
  method CtzStanza(x: nat, w: nat) returns (x': nat, t: nat)
    requires x > 0 && Ctz(x) < 2 * w
    ensures x' > 0 && Ctz(x') < w && t + Ctz(x') == Ctz(x)
  {
    LowBitsZero(x, w);
    t := if And(x, Pow2(w) - 1) == 0 then w else 0;
    x' := Shr(x, t);
    assert Pow2(0) == 1;
  }

  lemma {:induction false} CtzBelowBits(x: nat)
    requires x > 0
    ensures Ctz(x) < Bits(x)
  {
    if x % 2 == 0 {
      CtzBelowBits(x / 2);
    }
  }

  method CtzSi2(a: nat) returns (r: nat)
    requires 0 < a < B
    ensures r == Ctz(a)
  {
    WordSizes();
    CtzBelowBits(a);
    BitsAtMost(a, 32);
    var x, t;
    x, t := CtzStanza(a, 16);
    r := t;
    x, t := CtzStanza(x, 8);
    r := r + t;
    x, t := CtzStanza(x, 4);
    r := r + t;
    x, t := CtzStanza(x, 2);
    r := r + t;
    LastTwoBits(x);
    x := And(x, 3);
    r := r + if And(x, 1) == 0 then 2 - Shr(x, 1) else 0;
  }

  lemma LastTwoBits(x: nat)
    requires x > 0 && Ctz(x) < 2
    ensures var y := And(x, 3); y < 4 && Ctz(x) == if And(y, 1) == 0 then 2 - Shr(y, 1) else 0
  {
    assert Pow2(2) == 4 && Pow2(1) == 2;
    AndLowMask(x, 2);
    var y := x % 4;
    AndLowMask(y, 1);
  }

  method ClzDi2(h: nat, l: nat) returns (r: nat)
    requires h < B && l < B && All(h, l) > 0
    ensures r == 64 - Bits(All(h, l))
  {
    var f := if h == 0 then B - 1 else 0;
    var x := Select(h, l, f);
    r := ClzSi2(x);
    if h == 0 {
      r := r + And(f, 32);
      ThirtyTwo();
    } else {
      BitsOfHalves(h, l);
      r := r + And(f, 32);
    }
  }

  lemma ThirtyTwo()
    ensures And(B - 1, 32) == 32
  {
    WordSizes();
    AndCommutes(B - 1, 32);
    AndFull(32, 32);
  }

  lemma {:induction false} AndCommutes(x: nat, y: nat)
    ensures And(x, y) == And(y, x)
    decreases x
  {
    if x != 0 && y != 0 {
      AndCommutes(x / 2, y / 2);
    }
  }

  /** (h & ~f) | (l & f), for f all ones or all zeros. */
  method Select(h: nat, l: nat, f: nat) returns (x: nat)
    requires h < B && l < B && (f == 0 || f == B - 1)
    ensures x == if f == 0 then h else l
  {
    WordSizes();
    AndFull(h, 32);
    AndFull(l, 32);
    assert And(h, 0) == 0 && And(l, 0) == 0;
    OrZero(h);
    OrZero(l);
    x := Or(And(h, B - 1 - f), And(l, f));
  }

  method CtzDi2(h: nat, l: nat) returns (r: nat)
    requires h < B && l < B && All(h, l) > 0
    ensures r == Ctz(All(h, l))
  {
    var f := if l == 0 then B - 1 else 0;
    var x := Select(l, h, f);
    r := CtzSi2(x);
    CtzOfHalves(h, l);
    if l == 0 {
      ThirtyTwo();
    }
    r := r + And(f, 32);
  }

  lemma CtzOfHalves(h: nat, l: nat)
    requires l < B && All(h, l) > 0
    ensures Ctz(All(h, l)) == if l == 0 then 32 + Ctz(h) else Ctz(l)
  {
    if l == 0 {
      WordSizes();
      CtzShifted(h, 32);
    } else {
      WordSizes();
      CtzLow(h, l, 32);
    }
  }

  lemma {:induction false} CtzShifted(h: nat, k: nat)
    requires h > 0
    ensures h * Pow2(k) > 0 && Ctz(h * Pow2(k)) == k + Ctz(h)
  {
    if k > 0 {
      CtzShifted(h, k - 1);
      Twice(h, Pow2(k - 1));
    }
  }

  lemma {:induction false} CtzLow(h: nat, l: nat, k: nat)
    requires 0 < l < Pow2(k)
    ensures Ctz(h * Pow2(k) + l) == Ctz(l)
  {
    if k > 0 {
      Twice(h, Pow2(k - 1));
      if l % 2 == 0 {
        CtzLow(h, l / 2, k - 1);
        assert (h * Pow2(k) + l) / 2 == h * Pow2(k - 1) + l / 2;
      }
    }
  }

  /* ---- the division itself ---- */

  /** __udivmoddi4: quotient and remainder for every a and every b but zero, whose division C leaves
      undefined. */
  method UDivModDi4(a: nat, b: nat) returns (quot: nat, rem: nat)
    requires a < D && 0 < b < D
    ensures quot == a / b && rem == a % b
  {
    var nh, nl, dh, dl := a / B, a % B, b / B, b % B;
    DivModSum(a, B);
    DivModSum(b, B);
    if nh == 0 {
      quot, rem := ShortDividend(nl, dh, dl);
    } else if dl == 0 {
      quot, rem := RoundDivisor(nh, nl, dh);
    } else if dh == 0 {
      quot, rem := ShortDivisor(nh, nl, dl);
    } else {
      quot, rem := LongDivisor(nh, nl, dh, dl);
    }
  }

  /** 0 X / 0 X and 0 X / K X */
  method ShortDividend(nl: nat, dh: nat, dl: nat) returns (quot: nat, rem: nat)
    requires nl < B && dl < B && All(dh, dl) > 0
    ensures quot == nl / All(dh, dl) && rem == nl % All(dh, dl)
  {
    if dh == 0 {
      return nl / dl, nl % dl;
    }
    DivModUnique(nl, All(dh, dl), 0, nl);
    return 0, nl;
  }

  /** K X / K 0 */
  method RoundDivisor(nh: nat, nl: nat, dh: nat) returns (quot: nat, rem: nat)
    requires 0 < nh < B && nl < B && 0 < dh < B
    ensures quot == All(nh, nl) / All(dh, 0) && rem == All(nh, nl) % All(dh, 0)
  {
    hide Pow2;
    ghost var n, d := All(nh, nl), All(dh, 0);
    DivideHighHalves(nh, nl, dh);
    if nl == 0 {
      return nh / dh, All(nh % dh, 0);
    }
    PowerOfTwoTest(dh);
    if And(dh, dh - 1) == 0 {
      var k := CtzSi2(dh);
      AndLowMask(nh, k);
      return Shr(nh, k), All(And(nh, dh - 1), nl);
    }
    quot, rem := DivideByBits(nh, nl, dh, 0, 30);
  }

  lemma DivideHighHalves(nh: nat, nl: nat, dh: nat)
    requires nl < B && dh > 0
    ensures All(nh, nl) / All(dh, 0) == nh / dh && All(nh, nl) % All(dh, 0) == All(nh % dh, nl)
  {
    var q, r := nh / dh, nh % dh;
    DivModSum(nh, dh);
    assert (q * dh + r) * B == q * (dh * B) + r * B;
    MulAtLeast2(B, r, dh);
    assert B * r == r * B && B * dh == dh * B;
    DivModUnique(All(nh, nl), All(dh, 0), q, All(r, nl));
  }

  /** Both ends have a nonzero high half: compare their lengths, then run the loop. `most` is the largest
      difference the C code goes on with. */
  method DivideByBits(nh: nat, nl: nat, dh: nat, dl: nat, most: nat) returns (quot: nat, rem: nat)
    requires 0 < nh < B && nl < B && 0 < dh < B && dl < B
    requires most == 31 || (most == 30 && dh > 1)
    ensures quot == All(nh, nl) / All(dh, dl) && rem == All(nh, nl) % All(dh, dl)
  {
    ghost var n, d := All(nh, nl), All(dh, dl);
    var cd := ClzSi2(dh);
    var cn := ClzSi2(nh);
    // an unsigned difference: a negative one is huge
    var sr: nat := if cd >= cn then cd - cn else cd - cn + B;
    BitsOfHalves(nh, nl);
    BitsOfHalves(dh, dl);
    HighHalfBits(nh, dh);
    if sr > most {
      ShorterIsSmaller(n, d);
      DivModUnique(n, d, 0, n);
      return 0, All(nh, nl);
    }
    sr := sr + 1;
    var rh, rl, qh, ql := ShiftApart(nh, nl, sr);
    quot, rem := DivideLoop(n, All(dh, dl), sr, rh, rl, qh, ql);
    DivModUnique(n, d, quot, rem);
  }

  lemma HighHalfBits(nh: nat, dh: nat)
    requires 0 < nh < B && 0 < dh < B
    ensures 1 <= Bits(nh) <= 32 && 1 <= Bits(dh) <= 32 && (dh > 1 ==> Bits(dh) >= 2)
  {
    WordSizes();
    BitsBounds(nh);
    BitsBounds(dh);
    BitsAtMost(nh, 32);
    BitsAtMost(dh, 32);
  }

  lemma ShorterIsSmaller(n: nat, d: nat)
    requires Bits(n) < Bits(d)
    ensures n < d
  {
    if n > 0 {
      BitsBounds(n);
      BitsBounds(d);
      Pow2Monotone(Bits(n), Bits(d) - 1);
    }
  }

  /** K X / 0 K */
  method ShortDivisor(nh: nat, nl: nat, dl: nat) returns (quot: nat, rem: nat)
    requires 0 < nh < B && nl < B && 0 < dl < B
    ensures quot == All(nh, nl) / dl && rem == All(nh, nl) % dl
  {
    ghost var n := All(nh, nl);
    PowerOfTwoTest(dl);
    if And(dl, dl - 1) == 0 {
      quot, rem := DivideByPower(nh, nl, dl);
      return;
    }
    var cd := ClzSi2(dl);
    var cn := ClzSi2(nh);
    HighHalfBits(nh, dl);
    BitsOfHalves(nh, nl);
    var sr: nat := 1 + 32 + cd - cn;
    var rh, rl, qh, ql := ShiftApart(nh, nl, sr);
    quot, rem := DivideLoop(n, dl, sr, rh, rl, qh, ql);
    DivModUnique(n, dl, quot, rem);
  }

  method DivideByPower(nh: nat, nl: nat, dl: nat) returns (quot: nat, rem: nat)
    requires 0 < nh < B && nl < B && 0 < dl < B && dl == Pow2(Ctz(dl))
    ensures quot == All(nh, nl) / dl && rem == All(nh, nl) % dl
  {
    ghost var k := Ctz(dl);
    CtzBelowBits(dl);
    WordSizes();
    BitsAtMost(dl, 32);
    AndLowMask(nl, k);
    Complementary(k);
    LowHalf(nh, nl, dl, Pow2(32 - k));
    rem := And(nl, dl - 1);
    if dl == 1 {
      return All(nh, nl), rem;
    }
    assert k > 0 by {
      assert Pow2(0) == 1;
    }
    var sr := CtzSi2(dl);
    Shr64(nh, nl, sr);
    quot := All(Shr(nh, sr), Or(Shl32(nh, 32 - sr), Shr(nl, sr)));
  }

  /** K X / K K */
  method LongDivisor(nh: nat, nl: nat, dh: nat, dl: nat) returns (quot: nat, rem: nat)
    requires 0 < nh < B && nl < B && 0 < dh < B && 0 < dl < B
    ensures quot == All(nh, nl) / All(dh, dl) && rem == All(nh, nl) % All(dh, dl)
  {
    quot, rem := DivideByBits(nh, nl, dh, dl, 31);
  }

  /* ---- the signed wrappers ---- */

  const INT64_MIN: int := -0x8000_0000_0000_0000

  predicate IsDi(x: int) { INT64_MIN <= x < TOP }

  /** di_int with the bits of x modulo 2^64. */
  function Wrap(x: int): (r: int)
    ensures IsDi(r)
    ensures IsDi(x) ==> r == x
  {
    (x + TOP) % D - TOP
  }

  function Abs(x: int): nat { if x < 0 then -x else x }

  /** Division toward zero. */
  function TruncDiv(a: int, b: int): int
    requires b != 0
  {
    if (a < 0) == (b < 0) then Abs(a) / Abs(b) else -(Abs(a) / Abs(b))
  }

  function TruncMod(a: int, b: int): int
    requires b != 0
  {
    if a < 0 then -(Abs(a) % Abs(b)) else Abs(a) % Abs(b)
  }

  /** What division toward zero means. */
  lemma TruncLaws(a: int, b: int)
    requires b != 0
    ensures a == TruncDiv(a, b) * b + TruncMod(a, b) && Abs(TruncMod(a, b)) < Abs(b)
    ensures TruncMod(a, b) == 0 || (TruncMod(a, b) < 0 <==> a < 0)
  {
    var q, r := Abs(a) / Abs(b), Abs(a) % Abs(b);
    DivModSum(Abs(a), Abs(b));
    SignedProducts(q, b);
  }

  lemma SignedProducts(q: int, b: int)
    ensures (-q) * b == -(q * b) && q * (-b) == -(q * b) && (-q) * (-b) == q * b
  {
  }

  /** The only quotient that does not fit is INT64_MIN / -1. */
  lemma TruncFits(a: int, b: int)
    requires IsDi(a) && IsDi(b) && b != 0
    ensures IsDi(TruncDiv(a, b)) <==> !(a == INT64_MIN && b == -1)
    ensures IsDi(TruncMod(a, b))
  {
    DivModSum(Abs(a), Abs(b));
    QuotientSmaller(Abs(a), Abs(b));
    if Abs(b) >= 2 && Abs(a) == TOP {
      if TOP / Abs(b) >= TOP {
        MulMonotone(TOP, TOP / Abs(b), Abs(b));
      }
    } else if Abs(b) == 1 {
      DivModUnique(Abs(a), 1, Abs(a), 0);
    }
  }

  // x ^ s and then minus s, for s == 0 or s == -1: the negation the wrappers use.
  function Xor(x: int, s: int): int
    requires s == 0 || s == -1
  {
    if s == 0 then x else -x - 1
  }

  function SignOf(x: int): (s: int)
    ensures s == 0 || s == -1
  {
    if x < 0 then -1 else 0
  }

  /** __divdi3 */
  method DivDi3(a: int, b: int) returns (r: int)
    requires IsDi(a) && IsDi(b) && b != 0
    ensures r == Wrap(TruncDiv(a, b))
    ensures !(a == INT64_MIN && b == -1) ==> r == TruncDiv(a, b)
  {
    TruncFits(a, b);
    var sa, sb := SignOf(a), SignOf(b);
    // the conversion to du_int makes the magnitude of INT64_MIN representable
    var ua: nat, ub: nat := Xor(a, sa) - sa, Xor(b, sb) - sb;
    var s := if sa == sb then 0 else -1;
    var q, _ := UDivModDi4(ua, ub);
    r := Wrap(Xor(q, s) - s);
  }

  /** __moddi3 */
  method ModDi3(a: int, b: int) returns (r: int)
    requires IsDi(a) && IsDi(b) && b != 0
    ensures r == TruncMod(a, b)
  {
    TruncFits(a, b);
    var sa, sb := SignOf(a), SignOf(b);
    var ua: nat, ub: nat := Xor(a, sa) - sa, Xor(b, sb) - sb;
    var _, m := UDivModDi4(ua, ub);
    r := Wrap(Xor(m, sa) - sa);
  }

  /** __divmoddi4: the remainder is right even for INT64_MIN / -1. */
  method DivModDi4(a: int, b: int) returns (d: int, rem: int)
    requires IsDi(a) && IsDi(b) && b != 0
    ensures d == Wrap(TruncDiv(a, b)) && rem == TruncMod(a, b)
  {
    d := DivDi3(a, b);
    TruncLaws(a, b);
    TruncFits(a, b);
    if a == INT64_MIN && b == -1 {
      assert TruncDiv(a, b) == TOP && d == INT64_MIN && TruncMod(a, b) == 0;
    }
    rem := Wrap(a - Wrap(d * b));
    WrapDifference(a, d * b);
  }

  lemma WrapDifference(a: int, x: int)
    ensures Wrap(a - Wrap(x)) == Wrap(a - x)
  {
    var k: int := (x + TOP) / D;
    assert Wrap(x) == x - k * D;
    assert a - Wrap(x) + TOP == (a - x + TOP) + k * D;
  }
}
