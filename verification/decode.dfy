/**
 Instruction patterns (nemu/include/cpu/decode.h): compiling a pattern string to key, mask and shift, in its
 binary and its hexadecimal form, and the test made with them.
 */
module InstDecode {
  import opened Common
  import opened Words

  /* ---- what a pattern says ---- */

  predicate IsBit(c: char) { c == '0' || c == '1' || c == '?' }

  predicate IsHex(c: char) { '0' <= c <= '9' || 'a' <= c <= 'f' || c == '?' }

  predicate Every(ok: char -> bool, s: string) { forall i :: 0 <= i < |s| ==> s[i] == ' ' || ok(s[i]) }

  /** The pattern without its spaces. */
  function Squeezed(s: string): (r: string)
    ensures |r| <= |s| && forall i :: 0 <= i < |r| ==> r[i] in s && r[i] != ' '
  {
    if s == [] then []
    else
      var n := |s| - 1;
      if s[n] == ' ' then Squeezed(s[..n]) else Squeezed(s[..n]) + [s[n]]
  }

  predicate BitOf(x: nat, j: nat) { Shr(x, j) % 2 == 1 }

  /** inst has a 1 wherever the pattern does and a 0 wherever the pattern does; the last character of the
      pattern speaks of bit 0. */
  predicate Agrees(inst: nat, b: string) {
    forall j :: 0 <= j < |b| ==> b[|b| - 1 - j] == '?' || (BitOf(inst, j) <==> b[|b| - 1 - j] == '1')
  }

  /* ---- the compiled form ---- */

  function KeyOf(b: string): (k: nat)
    ensures k < Pow2(|b|)
  {
    if b == [] then 0 else 2 * KeyOf(b[..|b| - 1]) + if b[|b| - 1] == '1' then 1 else 0
  }

  function MaskOf(b: string): (m: nat)
    ensures m < Pow2(|b|)
  {
    if b == [] then 0 else 2 * MaskOf(b[..|b| - 1]) + if b[|b| - 1] == '?' then 0 else 1
  }

  // How many ? the pattern ends in.
  function Wild(b: string): (n: nat)
    ensures n <= |b|
  {
    if b != [] && b[|b| - 1] == '?' then 1 + Wild(b[..|b| - 1]) else 0
  }

  datatype Decoded = Decoded(key: nat, mask: nat, shift: nat)

  function Compiled(b: string): Decoded {
    Decoded(Shr(KeyOf(b), Wild(b)), Shr(MaskOf(b), Wild(b)), Wild(b))
  }

  predicate Test(inst: nat, d: Decoded) { And(Shr(inst, d.shift), d.mask) == d.key }

  /* ---- the test is exact ---- */

  lemma ShrStep(x: nat, j: nat)
    ensures Shr(x, j + 1) == Shr(x / 2, j) && Shr(x, 0) == x
  {
    HalveFirst(x, Pow2(j));
  }

  lemma AgreesStep(inst: nat, b: string)
    requires b != []
    ensures var n := |b| - 1;
            Agrees(inst, b) <==> Agrees(inst / 2, b[..n]) && (b[n] == '?' || (inst % 2 == 1 <==> b[n] == '1'))
  {
    var n := |b| - 1;
    var a := b[..n];
    ShrStep(inst, 0);
    forall j: nat | j < n ensures BitOf(inst, j + 1) == BitOf(inst / 2, j) {
      ShrStep(inst, j);
    }
    if Agrees(inst, b) {
      forall j | 0 <= j < n ensures a[n - 1 - j] == '?' || (BitOf(inst / 2, j) <==> a[n - 1 - j] == '1') {
        assert a[n - 1 - j] == b[|b| - 1 - (j + 1)] && BitOf(inst, j + 1) == BitOf(inst / 2, j);
      }
      assert b[|b| - 1 - 0] == b[n] && (b[n] == '?' || (BitOf(inst, 0) <==> b[n] == '1'));
    }
    if Agrees(inst / 2, a) && (b[n] == '?' || (inst % 2 == 1 <==> b[n] == '1')) {
      forall j | 0 <= j < |b| ensures b[|b| - 1 - j] == '?' || (BitOf(inst, j) <==> b[|b| - 1 - j] == '1') {
        if j > 0 {
          assert a[n - 1 - (j - 1)] == b[|b| - 1 - j] && BitOf(inst, j - 1 + 1) == BitOf(inst / 2, j - 1);
        }
      }
    }
  }

  lemma {:induction false} PlainTest(inst: nat, b: string)
    requires forall i :: 0 <= i < |b| ==> IsBit(b[i])
    ensures And(inst, MaskOf(b)) == KeyOf(b) <==> Agrees(inst, b)
  {
    if b != [] {
      var a := b[..|b| - 1];
      PlainTest(inst / 2, a);
      AgreesStep(inst, b);
      AndStep(inst, MaskOf(b));
      assert MaskOf(b) / 2 == MaskOf(a) && KeyOf(b) / 2 == KeyOf(a);
      assert And(inst, MaskOf(b)) == 2 * And(inst / 2, MaskOf(a)) + And(inst, MaskOf(b)) % 2;
    }
  }

  /** The test matches just the instructions that agree with the pattern at every bit it names: dropping the ?
      at the end loses nothing. */
  lemma {:induction false} TestIffAgrees(inst: nat, b: string)
    requires forall i :: 0 <= i < |b| ==> IsBit(b[i])
    ensures Test(inst, Compiled(b)) <==> Agrees(inst, b)
  {
    hide Agrees, Test, Compiled;
    if Wild(b) == 0 {
      TestWhole(inst, b);
      PlainTest(inst, b);
    } else {
      var a := b[..|b| - 1];
      TestIffAgrees(inst / 2, a);
      AgreesStep(inst, b);
      TestWild(inst, b);
    }
  }

  lemma TestWhole(inst: nat, b: string)
    requires Wild(b) == 0
    ensures Test(inst, Compiled(b)) <==> And(inst, MaskOf(b)) == KeyOf(b)
  {
    ShrStep(inst, 0);
    ShrStep(KeyOf(b), 0);
    ShrStep(MaskOf(b), 0);
    hide And, KeyOf, MaskOf;
  }

  // A ? at the end is shifted away.
  lemma TestWild(inst: nat, b: string)
    requires Wild(b) != 0
    ensures Test(inst, Compiled(b)) == Test(inst / 2, Compiled(b[..|b| - 1]))
  {
    var a := b[..|b| - 1];
    assert KeyOf(b) / 2 == KeyOf(a) && MaskOf(b) / 2 == MaskOf(a) && Wild(b) == Wild(a) + 1;
    ShrStep(inst, Wild(a));
    ShrStep(KeyOf(b), Wild(a));
    ShrStep(MaskOf(b), Wild(a));
    hide And, KeyOf, MaskOf, Wild, Shr;
  }

  /* ---- pattern_decode ---- */

  lemma WordHolds(x: nat, k: nat, n: nat)
    requires x < Pow2(n) && n + k <= 64
    ensures Low(Shl(x, k), 64) == Shl(x, k)
  {
    Pow2Add(n, k);
    MulMonotone(x, Pow2(n), Pow2(k));
    Pow2Monotone(n + k, 64);
    Fits(x, Pow2(n), Pow2(k), Pow2(64));
  }

  lemma Fits(x: nat, a: nat, b: nat, w: nat)
    requires x < a && b > 0 && a * b <= w
    ensures (x * b) % w == x * b
  {
    MulAtLeast2(b, x, a);
    DivModUnique(x * b, w, 0, x * b);
  }

  // Shifting left by one and adding the new bit, in 64 bits.
  lemma Append(x: nat, bit: nat, n: nat)
    requires x < Pow2(n) && n < 64 && bit < 2
    ensures Or(Low(Shl(x, 1), 64), bit) == 2 * x + bit
  {
    WordHolds(x, 1, n);
    assert Pow2(1) == 2;
    OrShifted(x, bit, 1);
    assert Shl(x, 1) == x * Pow2(1);
    hide Or, Low, Shl, Pow2;
  }

  lemma OneMore(b: string, c: char)
    ensures KeyOf(b + [c]) == 2 * KeyOf(b) + if c == '1' then 1 else 0
    ensures MaskOf(b + [c]) == 2 * MaskOf(b) + if c == '?' then 0 else 1
    ensures Wild(b + [c]) == if c == '?' then 1 + Wild(b) else 0
  {
    assert (b + [c])[..|b|] == b;
  }

  lemma KeyOfNothing()
    ensures KeyOf("") == 0 && MaskOf("") == 0 && Wild("") == 0
  {
  }

  /** pattern_decode.  None is a panic: a character that is not allowed, or a pattern that is too long. */
  method PatternDecode(str: string) returns (r: Option<Decoded>)
    ensures r.Some? <==> |str| < 64 && Every(IsBit, str)
    ensures r.Some? ==> r.value == Compiled(Squeezed(str))
  {
    hide KeyOf, MaskOf, Wild, Or, Low, Shl, Shr, Pow2;
    KeyOfNothing();
    var key: nat, mask: nat, shift: nat, i := 0, 0, 0, 0;
    while i < 64 && i < |str|
      invariant 0 <= i <= 64 && i <= |str| && Every(IsBit, str[..i])
      invariant var b := Squeezed(str[..i]); key == KeyOf(b) && mask == MaskOf(b) && shift == Wild(b)
    {
      var c := str[i];
      ghost var b := Squeezed(str[..i]);
      assert str[..i + 1][..i] == str[..i];
      if c != ' ' {
        if !IsBit(c) {
          return None;
        }
        OneMore(b, c);
        Append(key, if c == '1' then 1 else 0, |b|);
        Append(mask, if c == '?' then 0 else 1, |b|);
        key := Or(Low(Shl(key, 1), 64), if c == '1' then 1 else 0);
        mask := Or(Low(Shl(mask, 1), 64), if c == '?' then 0 else 1);
        shift := if c == '?' then shift + 1 else 0;
      }
      i := i + 1;
    }
    assert str[..i] == str || i == 64;
    r := if i < 64 then Some(Decoded(Shr(key, shift), Shr(mask, shift), shift)) else None;
  }

  /** INSTPAT: whether the instruction takes this pattern's branch. */
  method InstPat(inst: nat, pattern: string) returns (r: Option<bool>)
    ensures r.Some? <==> |pattern| < 64 && Every(IsBit, pattern)
    ensures r.Some? ==> r.value == Agrees(inst, Squeezed(pattern))
  {
    var d := PatternDecode(pattern);
    if d.None? {
      return None;
    }
    TestIffAgrees(inst, Squeezed(pattern));
    r := Some(Test(inst, d.value));
  }

  /* ---- pattern_decode_hex ---- */

  function HexValue(c: char): (v: nat)
    requires IsHex(c)
    ensures v < 16
  {
    if c == '?' then 0 else if c <= '9' then c as int - '0' as int else c as int - 'a' as int + 10
  }

  /** A hexadecimal digit as four binary ones. */
  function Quad(c: char): (q: string)
    requires IsHex(c)
    ensures |q| == 4 && forall i :: 0 <= i < 4 ==> IsBit(q[i])
  {
    if c == '?' then "????"
    else
      var v := HexValue(c);
      [if v / 8 % 2 == 1 then '1' else '0', if v / 4 % 2 == 1 then '1' else '0',
       if v / 2 % 2 == 1 then '1' else '0', if v % 2 == 1 then '1' else '0']
  }

  predicate HexText(h: string) { forall i :: 0 <= i < |h| ==> IsHex(h[i]) }

  /** The binary pattern a hexadecimal one stands for. */
  function Expanded(h: string): (b: string)
    requires HexText(h)
    ensures |b| == 4 * |h| && forall i :: 0 <= i < |b| ==> IsBit(b[i])
  {
    if h == [] then [] else Expanded(h[..|h| - 1]) + Quad(h[|h| - 1])
  }

  lemma FourMore(b: string, q: string)
    requires |q| == 4
    ensures var b1 := b + [q[0]]; var b2 := b1 + [q[1]]; var b3 := b2 + [q[2]]; b + q == b3 + [q[3]]
  {
  }

  lemma FourBits(v: nat)
    requires v < 16
    ensures v == 8 * (v / 8 % 2) + 4 * (v / 4 % 2) + 2 * (v / 2 % 2) + v % 2
  {
  }

  lemma QuadStep(b: string, c: char)
    requires IsHex(c)
    ensures KeyOf(b + Quad(c)) == 16 * KeyOf(b) + HexValue(c)
    ensures MaskOf(b + Quad(c)) == 16 * MaskOf(b) + if c == '?' then 0 else 15
    ensures Wild(b + Quad(c)) == if c == '?' then Wild(b) + 4 else 0
  {
    hide KeyOf, MaskOf, Wild;
    var q := Quad(c);
    FourBits(HexValue(c));
    var b1 := b + [q[0]];
    var b2 := b1 + [q[1]];
    var b3 := b2 + [q[2]];
    FourMore(b, q);
    OneMore(b, q[0]);
    OneMore(b1, q[1]);
    OneMore(b2, q[2]);
    OneMore(b3, q[3]);
  }

  // Shifting left by four and adding the new digit, in 64 bits.
  lemma AppendFour(x: nat, v: nat, n: nat)
    requires x < Pow2(n) && n <= 60 && v < 16
    ensures Or(Low(Shl(x, 4), 64), v) == 16 * x + v
  {
    WordHolds(x, 4, n);
    assert Pow2(4) == 16;
    OrShifted(x, v, 4);
    assert Shl(x, 4) == x * Pow2(4);
    hide Or, Low, Shl, Pow2;
  }

  lemma SqueezedHex(str: string)
    requires Every(IsHex, str)
    ensures HexText(Squeezed(str))
  {
  }

  // The part of the pattern read so far grows by one character.
  lemma NextDigit(str: string, i: nat)
    requires i < |str| && Every(IsHex, str[..i]) && (str[i] == ' ' || IsHex(str[i]))
    ensures Every(IsHex, str[..i + 1]) && HexText(Squeezed(str[..i])) && HexText(Squeezed(str[..i + 1]))
    ensures Expanded(Squeezed(str[..i + 1])) ==
            Expanded(Squeezed(str[..i])) + if str[i] == ' ' then "" else Quad(str[i])
  {
    hide IsHex, Quad;
    var h := Squeezed(str[..i]);
    assert str[..i + 1][..i] == str[..i];
    SqueezedHex(str[..i]);
    SqueezedHex(str[..i + 1]);
    assert (h + [str[i]])[..|h|] == h;
    assert Expanded(h) + "" == Expanded(h);
  }

  /** pattern_decode_hex: what pattern_decode makes of the same pattern written in binary. */
  method PatternDecodeHex(str: string) returns (r: Option<Decoded>)
    ensures r.Some? <==> |str| < 16 && Every(IsHex, str)
    ensures r.Some? ==> HexText(Squeezed(str)) && r.value == Compiled(Expanded(Squeezed(str)))
  {
    hide KeyOf, MaskOf, Wild, Or, Low, Shl, Shr, Pow2, Quad, HexValue, Squeezed, Expanded, HexText;
    var key: nat, mask: nat, shift: nat, i := 0, 0, 0, 0;
    ghost var b := "";
    KeyOfNothing();
    HexNothing(str);
    while i < 16 && i < |str|
      invariant 0 <= i <= 16 && i <= |str| && Every(IsHex, str[..i]) && |b| <= 4 * i
      invariant HexText(Squeezed(str[..i])) && b == Expanded(Squeezed(str[..i]))
      invariant key == KeyOf(b) && mask == MaskOf(b) && shift == Wild(b)
    {
      var c := str[i];
      if c != ' ' && !IsHex(c) {
        return None;
      }
      NextDigit(str, i);
      if c != ' ' {
        QuadStep(b, c);
        AppendFour(key, HexValue(c), |b|);
        AppendFour(mask, if c == '?' then 0 else 15, |b|);
        key := Or(Low(Shl(key, 4), 64), HexValue(c));
        mask := Or(Low(Shl(mask, 4), 64), if c == '?' then 0 else 15);
        shift := if c == '?' then shift + 4 else 0;
        b := b + Quad(c);
      }
      i := i + 1;
    }
    assert str[..i] == str || i == 16;
    r := if i < 16 then Some(Decoded(Shr(key, shift), Shr(mask, shift), shift)) else None;
  }

  lemma HexNothing(str: string)
    ensures Every(IsHex, str[..0]) && HexText(Squeezed(str[..0])) && Expanded(Squeezed(str[..0])) == ""
  {
  }
}
