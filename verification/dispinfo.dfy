/**
 The display size as text: snprintf's %d (abstract-machine/klib/src/stdio.c), the printer that uses it
 (nanos-lite/src/device.c) and the parser at the other end (navy-apps/libs/libndl/NDL.c).
 */
module Dispinfo {
  import opened Common
  import opened CString
  import opened Words

  /* ---- decimal text ---- */

  function DigitChar(d: nat): (c: char)
    requires d < 10
    ensures IsDigit(c) && DigitValue(c) == d
  {
    '0' + d as char
  }

  predicate IsDigit(c: char) { '0' <= c <= '9' }

  function DigitValue(c: char): (d: nat)
    requires IsDigit(c)
  {
    c as int - '0' as int
  }

  ghost predicate AllDigits(s: string) { forall i :: 0 <= i < |s| ==> IsDigit(s[i]) }

  /** v in decimal, without leading zeros. */
  function Decimal(v: nat): (s: string)
    ensures s != [] && AllDigits(s)
  {
    if v < 10 then [DigitChar(v)] else Decimal(v / 10) + [DigitChar(v % 10)]
  }

  function Number(v: int): string { if v < 0 then "-" + Decimal(-v) else Decimal(v) }

  /** The value of a string of digits. */
  function ValueOf(s: string): nat
    requires AllDigits(s)
  {
    if s == [] then 0 else ValueOf(s[..|s| - 1]) * 10 + DigitValue(s[|s| - 1])
  }

  lemma {:induction false} ValueOfDecimal(v: nat)
    ensures ValueOf(Decimal(v)) == v
  {
    if v < 10 {
      assert Decimal(v)[..0] == [];
    } else {
      ValueOfDecimal(v / 10);
      assert Decimal(v)[..|Decimal(v)| - 1] == Decimal(v / 10);
    }
  }

  function Power(m: nat, n: nat): (p: nat)
    ensures m > 0 ==> p > 0
  {
    if n == 0 then 1 else Power(m, n - 1) * m
  }

  /** x in k digits, the way the printing loop takes them: highest first, by dividing by a power of ten. */
  function Padded(x: nat, k: nat): (s: string)
    requires x < Power(10, k)
    ensures |s| == k
    decreases k
  {
    if k == 0 then [] else HighDigit(x, k); [DigitChar(x / Power(10, k - 1))] + Padded(x % Power(10, k - 1), k - 1)
  }

  lemma HighDigit(x: nat, k: nat)
    requires k > 0 && x < Power(10, k)
    ensures x / Power(10, k - 1) < 10
  {
    var p := Power(10, k - 1);
    assert x == x / p * p + x % p;
    if x / p >= 10 {
      MulMonotone(10, x / p, p);
    }
  }

  // Splitting off the lowest digit commutes with splitting off the higher ones.
  lemma TwoWaysToSplit(x: nat, p: nat)
    requires p > 0
    ensures x / 10 / p == x / (p * 10) && x % (p * 10) / 10 == x / 10 % p && x % (p * 10) % 10 == x % 10
  {
    var y, d := x / 10, x % 10;
    var q, r := y / p, y % p;
    assert y == q * p + r;
    assert x == q * (p * 10) + (r * 10 + d);
    DivModUnique(x, p * 10, q, r * 10 + d);
    DivModUnique(r * 10 + d, 10, r, d);
  }

  lemma {:induction false} LowDigitLast(x: nat, k: nat)
    requires k > 0 && x < Power(10, k)
    ensures x / 10 < Power(10, k - 1) && Padded(x, k) == Padded(x / 10, k - 1) + [DigitChar(x % 10)]
    decreases k
  {
    if k > 1 {
      var p := Power(10, k - 2);
      TwoWaysToSplit(x, p);
      LowDigitLast(x % Power(10, k - 1), k - 1);
    }
  }

  lemma {:induction false} DecimalIsPadded(v: nat)
    ensures v < Power(10, |Decimal(v)|) && Decimal(v) == Padded(v, |Decimal(v)|)
  {
    var k := |Decimal(v)|;
    if v >= 10 {
      DecimalIsPadded(v / 10);
      assert v < Power(10, k) && k > 0;
      LowDigitLast(v, k);
    } else {
      assert Padded(v, 1) == [DigitChar(v / Power(10, 0))] + Padded(v % Power(10, 0), 0);
    }
  }

  lemma {:induction false} DecimalLength(v: nat)
    ensures v > 0 ==> Power(10, |Decimal(v)| - 1) <= v
    ensures v == 0 ==> |Decimal(v)| == 1
  {
    if v >= 10 {
      DecimalLength(v / 10);
      assert |Decimal(v)| - 2 == |Decimal(v / 10)| - 1;
    }
  }

  lemma {:induction false} PowerGrows(m: nat, k: nat, n: nat)
    requires m > 0 && k <= n
    ensures Power(m, k) <= Power(m, n)
    decreases n
  {
    if k < n {
      PowerGrows(m, k, n - 1);
      MulMonotone(1, m, Power(m, n - 1));
    }
  }

  /* ---- snprintf ---- */

  // unsigned long on a 32-bit target
  const WORD: nat := 0x1_0000_0000

  lemma WrapsNot(a: nat)
    requires a < WORD
    ensures a % WORD == a
  {
    DivModUnique(a, WORD, 0, a);
  }

  /** mpown: the power, unless it does not fit the word. */
  method Mpown(m: nat, n: nat) returns (res: nat)
    requires 0 < m < WORD
    ensures Power(m, n) < WORD ==> res == Power(m, n)
  {
    res := 1;
    var i := 0;
    while i < n
      invariant 0 <= i <= n && (Power(m, i) < WORD ==> res == Power(m, i))
    {
      if Power(m, i + 1) < WORD {
        PowerGrows(m, i, i + 1);
        WrapsNot(Power(m, i + 1));
      }
      res := (res * m) % WORD;
      i := i + 1;
    }
  }

  function Least(a: nat, b: nat): nat { if a < b then a else b }

  /** How many digits the printing loop counts. */
  method CountDigits(v: nat) returns (lencnt: nat)
    ensures lencnt == |Decimal(v)|
  {
    if v == 0 {
      return 1;
    }
    var tempval := v;
    lencnt := 0;
    while tempval != 0
      invariant lencnt + (if tempval == 0 then 0 else |Decimal(tempval)|) == |Decimal(v)|
    {
      lencnt := lencnt + 1;
      tempval := tempval / 10;
    }
  }

  /** The digits of v, as many of them as fit below maxsize. */
  method PutDigits(out: array<char>, r0: nat, maxsize: nat, v: nat) returns (r: nat)
    requires r0 <= maxsize < out.Length && v < 0x8000_0000
    modifies out
    ensures r == Least(r0 + |Decimal(v)|, maxsize)
    ensures out[..r] == old(out[..r0]) + Decimal(v)[..r - r0]
  {
    ghost var start, d := out[..r0], Decimal(v);
    var lencnt := CountDigits(v);
    var intval: nat := v;
    r := r0;
    DecimalIsPadded(v);
    DecimalLength(v);
    assert d[..0] == [] && d[0..] == d;
    hide Decimal, Padded, Power;
    while lencnt != 0 && r < maxsize
      invariant r0 <= r <= maxsize && r - r0 + lencnt == |d|
      invariant out[..r] == start + d[..r - r0]
      invariant intval < Power(10, lencnt) && d[r - r0..] == Padded(intval, lencnt)
      decreases lencnt
    {
      var tempval: nat;
      PowerGrows(10, lencnt - 1, |d| - 1);
      tempval, intval := FirstDigit(intval, lencnt);
      ghost var c := DigitChar(tempval);
      NextDigit(d, r - r0, c, Padded(intval, lencnt - 1));
      Regroup(start, d[..r - r0], [c]);
      Store(out, r, DigitChar(tempval));
      r := r + 1;
      lencnt := lencnt - 1;
    }
  }

  lemma PaddedStep(x: nat, k: nat)
    requires k > 0 && x < Power(10, k)
    ensures var p := Power(10, k - 1);
            && 0 < p && x / p < 10 && x % p < p
            && Padded(x, k) == [DigitChar(x / p)] + Padded(x % p, k - 1)
  {
    HighDigit(x, k);
  }

  /** The highest of lencnt digits, and the number without it. */
  method FirstDigit(intval: nat, lencnt: nat) returns (tempval: nat, rest: nat)
    requires lencnt > 0 && intval < Power(10, lencnt) && Power(10, lencnt - 1) < 0x8000_0000
    ensures tempval < 10 && rest < Power(10, lencnt - 1)
    ensures Padded(intval, lencnt) == [DigitChar(tempval)] + Padded(rest, lencnt - 1)
  {
    PaddedStep(intval, lencnt);
    hide Padded, Power;
    var p := Mpown(10, lencnt - 1);
    tempval, rest := intval / p, intval % p;
  }

  method Store(out: array<char>, r: nat, c: char)
    requires r < out.Length
    modifies out
    ensures out[..r + 1] == old(out[..r]) + [c]
  {
    out[r] := c;
  }

  lemma NextDigit(d: string, k: nat, c: char, rest: string)
    requires k <= |d| && d[k..] == [c] + rest
    ensures k < |d| && d[k + 1..] == rest && d[..k + 1] == d[..k] + [c]
  {
    assert d[k..][0] == d[k] == c && d[k..][1..] == rest;
  }

  lemma Regroup(a: string, b: string, c: string)
    ensures a + b + c == a + (b + c)
  {
  }

  /** %d */
  method PutNumber(out: array<char>, r0: nat, maxsize: nat, v: int) returns (r: nat)
    requires r0 < maxsize < out.Length && -0x8000_0000 < v < 0x8000_0000
    modifies out
    ensures r == Least(r0 + |Number(v)|, maxsize)
    ensures out[..r] == old(out[..r0]) + Number(v)[..r - r0]
  {
    assert Number(v) == if v < 0 then "-" + Decimal(-v) else Decimal(v);
    hide Decimal, Number;
    if v < 0 {
      r := PutNegative(out, r0, maxsize, -v);
    } else {
      r := PutDigits(out, r0, maxsize, v);
    }
  }

  method PutNegative(out: array<char>, r0: nat, maxsize: nat, v: nat) returns (r: nat)
    requires r0 < maxsize < out.Length && v < 0x8000_0000
    modifies out
    ensures r == Least(r0 + |"-" + Decimal(v)|, maxsize)
    ensures out[..r] == old(out[..r0]) + ("-" + Decimal(v))[..r - r0]
  {
    ghost var before, d := out[..r0], Decimal(v);
    hide Decimal;
    Store(out, r0, '-');
    r := PutDigits(out, r0 + 1, maxsize, v);
    SignThen(d, r - r0);
    Regroup(before, "-", d[..r - r0 - 1]);
  }

  lemma SignThen(d: string, n: nat)
    requires 0 < n <= |d| + 1
    ensures ("-" + d)[..n] == "-" + d[..n - 1]
  {
  }

  /** A format whose only conversions are args times %d. */
  predicate Format(fmt: string, args: nat) {
    if fmt == [] then args == 0
    else if fmt[0] != '%' then fmt[0] != '\t' && fmt[0] != NUL && Format(fmt[1..], args)
    else |fmt| > 1 && fmt[1] == 'd' && args > 0 && Format(fmt[2..], args - 1)
  }

  /** The text a format stands for. */
  function Rendered(fmt: string, args: seq<int>): string
    requires Format(fmt, |args|)
  {
    if fmt == [] then []
    else if fmt[0] != '%' then [fmt[0]] + Rendered(fmt[1..], args)
    else Number(args[0]) + Rendered(fmt[2..], args[1..])
  }

  /** snprintf: the text, cut to n - 1 characters, and a terminator; nothing is written beyond n. */
  method Snprintf(out: array<char>, n: nat, fmt: string, args: seq<int>) returns (resnum: nat)
    requires 0 < n <= out.Length && Format(fmt, |args|)
    requires forall i :: 0 <= i < |args| ==> -0x8000_0000 < args[i] < 0x8000_0000
    modifies out
    ensures resnum == Least(|Rendered(fmt, args)|, n - 1)
    ensures out[..resnum] == Rendered(fmt, args)[..resnum] && out[resnum] == NUL
  {
    hide Number;
    ghost var text := Rendered(fmt, args);
    assert fmt[0..] == fmt && args[0..] == args && text[0..] == text;
    var maxsize, pstr, ap := n - 1, 0, 0;
    resnum := 0;
    while pstr < |fmt| && resnum < maxsize
      invariant pstr <= |fmt| && ap <= |args| && resnum <= maxsize && resnum <= |text|
      invariant Format(fmt[pstr..], |args[ap..]|) && out[..resnum] == text[..resnum]
      invariant resnum < maxsize ==> text[resnum..] == Rendered(fmt[pstr..], args[ap..])
      decreases |fmt| - pstr
    {
      ghost var done, left := text[..resnum], text[resnum..];
      assert text == done + left;
      if fmt[pstr] == '%' {
        assert fmt[pstr..][2..] == fmt[pstr + 2..] && args[ap..][1..] == args[ap + 1..];
        assert left == Number(args[ap]) + Rendered(fmt[pstr + 2..], args[ap + 1..]);
        resnum := PutNumber(out, resnum, maxsize, args[ap]);
        pstr, ap := pstr + 2, ap + 1;
      } else {
        assert fmt[pstr..][1..] == fmt[pstr + 1..];
        out[resnum] := fmt[pstr];
        pstr, resnum := pstr + 1, resnum + 1;
      }
    }
    out[resnum] := NUL;
  }

  /* ---- the parser ---- */

  function AfterSpaces(s: string): string { if s != [] && s[0] == ' ' then AfterSpaces(s[1..]) else s }

  /** The digits s begins with. */
  function DigitsOf(s: string): (d: string)
    ensures d <= s && AllDigits(d) && (|d| < |s| ==> !IsDigit(s[|d|]))
  {
    if s != [] && IsDigit(s[0]) then [s[0]] + DigitsOf(s[1..]) else []
  }

  // The text behind w, if s begins with w.
  function Expect(s: string, w: string): Option<string> {
    if w <= s then Some(s[|w|..]) else None
  }

  const INT_MAX: nat := 0x7fff_ffff

  /** How parsing ends: with a value, with a failed assert, or with a number too large for an int, for which C
      promises nothing. */
  datatype Outcome<T> = Got(value: T) | AssertFails | Overflows

  /** A name, a colon and a number: the number and the text behind it. */
  function Field(s: string, name: string): Outcome<(nat, string)> {
    var a := Expect(s, name);
    if a.None? then AssertFails
    else
      var b := Expect(AfterSpaces(a.value), ":");
      if b.None? then AssertFails
      else
        var c := AfterSpaces(b.value);
        var d := DigitsOf(c);
        if ValueOf(d) > INT_MAX then Overflows else Got((ValueOf(d), c[|d|..]))
  }

  /** The two fields, each on a line. */
  function Parse(s: string): Outcome<(nat, nat)> {
    match Field(s, "WIDTH")
    case AssertFails => AssertFails
    case Overflows => Overflows
    case Got((w, rest)) =>
      var r := Expect(AfterSpaces(rest), "\n");
      if r.None? then AssertFails
      else
        match Field(r.value, "HEIGHT")
        case AssertFails => AssertFails
        case Overflows => Overflows
        case Got((h, _)) => Got((w, h))
  }

  lemma {:induction false} DigitsThen(d: string, s: string)
    requires AllDigits(d) && (s != [] ==> !IsDigit(s[0]))
    ensures DigitsOf(d + s) == d
  {
    if d == [] {
      assert d + s == s;
    } else {
      DigitsThen(d[1..], s);
      assert (d + s)[1..] == d[1..] + s;
    }
  }

  lemma FieldOf(name: string, v: nat, s: string)
    requires s != [] ==> !IsDigit(s[0])
    ensures Field(name + (" : " + (Decimal(v) + s)), name) == if v > INT_MAX then Overflows else Got((v, s))
  {
    hide Decimal, DigitsOf, ValueOf;
    var c := Decimal(v) + s;
    assert (name + (" : " + c))[|name|..] == " : " + c;
    assert (" : " + c)[1..] == ": " + c && (": " + c)[1..] == " " + c && (" " + c)[1..] == c;
    assert AfterSpaces(" : " + c) == ": " + c;
    assert AfterSpaces(" " + c) == c;
    DigitsThen(Decimal(v), s);
    ValueOfDecimal(v);
    assert c[|Decimal(v)|..] == s;
  }

  /** The text dispinfo_read asks for. */
  function DispinfoText(width: nat, height: nat): string {
    "WIDTH" + (" : " + (Decimal(width) + ("\n" + ("HEIGHT" + (" : " + (Decimal(height) + ""))))))
  }

  /** The parser reads back the two numbers the printer wrote, if an int holds them. */
  lemma ParseDispinfoText(width: nat, height: nat)
    ensures Parse(DispinfoText(width, height)) ==
            if width > INT_MAX || height > INT_MAX then Overflows else Got((width, height))
  {
    var second := "HEIGHT" + (" : " + (Decimal(height) + ""));
    FieldOf("WIDTH", width, "\n" + second);
    FieldOf("HEIGHT", height, "");
    assert ("\n" + second)[1..] == second;
  }

  /* ---- the printer ---- */

  predicate Plain(a: string) { forall i :: 0 <= i < |a| ==> a[i] != '%' && a[i] != '\t' && a[i] != NUL }

  lemma {:induction false} RenderedPlain(a: string, fmt: string, args: seq<int>)
    requires Plain(a) && Format(fmt, |args|)
    ensures Format(a + fmt, |args|) && Rendered(a + fmt, args) == a + Rendered(fmt, args)
  {
    if a == [] {
      assert a + fmt == fmt && a + Rendered(fmt, args) == Rendered(fmt, args);
    } else {
      RenderedPlain(a[1..], fmt, args);
      assert (a + fmt)[1..] == a[1..] + fmt;
      assert Rendered(a + fmt, args) == [a[0]] + (a[1..] + Rendered(fmt, args));
    }
  }

  const DISPINFO_FORMAT := "WIDTH : %d\nHEIGHT : %d"

  lemma RenderedNumber(a: string, v: nat, fmt: string, args: seq<int>)
    requires Plain(a) && Format(fmt, |args|)
    ensures Format(a + ("%d" + fmt), 1 + |args|)
    ensures Rendered(a + ("%d" + fmt), [v] + args) == a + (Decimal(v) + Rendered(fmt, args))
  {
    hide Decimal;
    RenderedConversion(v, fmt, args);
    hide Format, Rendered;
    RenderedPlain(a, "%d" + fmt, [v] + args);
  }

  lemma RenderedConversion(v: nat, fmt: string, args: seq<int>)
    requires Format(fmt, |args|)
    ensures Format("%d" + fmt, 1 + |args|) && Rendered("%d" + fmt, [v] + args) == Decimal(v) + Rendered(fmt, args)
  {
    hide Decimal;
    var f, b := "%d" + fmt, [v] + args;
    assert f[0] == '%' && f[1] == 'd' && f[2..] == fmt && b[0] == v && b[1..] == args;
  }

  lemma RenderedDispinfo(width: nat, height: nat)
    ensures Format(DISPINFO_FORMAT, 2) && Rendered(DISPINFO_FORMAT, [width, height]) == DispinfoText(width, height)
  {
    hide Decimal, Rendered, Format, Number;
    var x, y := Decimal(width), Decimal(height) + "";
    RenderedEmpty();
    var second, args := "\nHEIGHT : " + ("%d" + ""), [height] + [];
    RenderedNumber("\nHEIGHT : ", height, "", []);
    RenderedNumber("WIDTH : ", width, second, args);
    assert DISPINFO_FORMAT == "WIDTH : " + ("%d" + second);
    assert [width, height] == [width] + args;
    Regroup("WIDTH", " : ", x + ("\nHEIGHT : " + y));
    Regroup("HEIGHT", " : ", y);
    Regroup("\n", "HEIGHT : ", y);
  }

  lemma RenderedEmpty()
    ensures Format("", 0) && Rendered("", []) == ""
  {
  }

  /** dispinfo_read */
  method DispinfoRead(buf: array<char>, len: nat, width: nat, height: nat) returns (realLen: nat)
    requires 0 < len <= buf.Length && width < 0x8000_0000 && height < 0x8000_0000
    modifies buf
    ensures realLen == Least(|DispinfoText(width, height)|, len - 1)
    ensures buf[..realLen] == DispinfoText(width, height)[..realLen] && buf[realLen] == NUL
  {
    RenderedDispinfo(width, height);
    realLen := Snprintf(buf, len, DISPINFO_FORMAT, [width, height]);
  }

  /* ---- the parser's loops ---- */

  /** Position i lies in the text of buf or at its end. */
  ghost predicate In(buf: array<char>, i: nat)
    reads buf
  {
    i <= |CText(buf[..])| < buf.Length
  }

  ghost function Rest(buf: array<char>, i: nat): string
    requires In(buf, i)
    reads buf
  {
    CText(buf[..])[i..]
  }

  lemma Peek(buf: array<char>, i: nat)
    requires In(buf, i)
    ensures Rest(buf, i) == [] ==> buf[i] == NUL
    ensures Rest(buf, i) != [] ==> buf[i] == Rest(buf, i)[0] != NUL
    ensures Rest(buf, i) != [] ==> In(buf, i + 1) && Rest(buf, i + 1) == Rest(buf, i)[1..]
  {
    var t := CText(buf[..]);
    assert t == buf[..][..|t|];
    assert buf[..][|t|] == buf[|t|];
    if i < |t| {
      assert buf[i] == buf[..][i] == t[i];
    }
  }

  method SkipSpaces(buf: array<char>, i: nat) returns (j: nat)
    requires In(buf, i)
    ensures In(buf, j) && Rest(buf, j) == AfterSpaces(Rest(buf, i))
  {
    hide CText;
    j := i;
    Peek(buf, j);
    while buf[j] == ' '
      invariant In(buf, j) && AfterSpaces(Rest(buf, j)) == AfterSpaces(Rest(buf, i))
      decreases |Rest(buf, j)|
    {
      Peek(buf, j);
      j := j + 1;
    }
    Peek(buf, j);
  }

  /** strncmp(&buf[i], w, strlen(w)) == 0 */
  method Begins(buf: array<char>, i: nat, w: string) returns (ok: bool)
    requires In(buf, i) && NulFree(w)
    ensures ok <==> w <= Rest(buf, i)
    ensures ok ==> In(buf, i + |w|) && Rest(buf, i + |w|) == Rest(buf, i)[|w|..]
  {
    hide CText;
    ghost var t := Rest(buf, i);
    var j := 0;
    while j < |w|
      invariant 0 <= j <= |w| && j <= |t| && w[..j] == t[..j] && In(buf, i + j) && Rest(buf, i + j) == t[j..]
    {
      Peek(buf, i + j);
      if buf[i + j] != w[j] {
        return false;
      }
      j := j + 1;
    }
    ok := true;
  }

  lemma OneMoreDigit(d: string, c: char, s: string)
    requires AllDigits(d) && IsDigit(c) && s != [] && s[0] == c
    ensures AllDigits(d + [c]) && ValueOf(d + [c]) == ValueOf(d) * 10 + DigitValue(c)
    ensures d + s == d + [c] + s[1..]
  {
    ValueOfMore(d, c);
    hide ValueOf;
    FirstMoves(d, s);
  }

  lemma ValueOfMore(d: string, c: char)
    requires AllDigits(d) && IsDigit(c)
    ensures AllDigits(d + [c]) && ValueOf(d + [c]) == ValueOf(d) * 10 + DigitValue(c)
  {
    var e := d + [c];
    assert e[..|e| - 1] == d && e[|e| - 1] == c;
    assert AllDigits(e);
  }

  lemma FirstMoves(d: string, s: string)
    requires s != []
    ensures d + s == d + [s[0]] + s[1..]
  {
    assert s == [s[0]] + s[1..];
  }

  lemma {:induction false} DigitsBehind(d: string, s: string)
    requires AllDigits(d)
    ensures DigitsOf(d + s) == d + DigitsOf(s)
  {
    if d == [] {
      assert d + s == s;
    } else {
      var c, e := d[0], d[1..];
      assert d == [c] + e;
      hide DigitsOf;
      DigitsBehind(e, s);
      Regroup([c], e, s);
      DigitsFirst(c, e + s);
      Regroup([c], e, DigitsOf(s));
    }
  }

  lemma DigitsFirst(c: char, s: string)
    requires IsDigit(c)
    ensures DigitsOf([c] + s) == [c] + DigitsOf(s)
  {
    assert ([c] + s)[1..] == s;
  }

  lemma {:induction false} ValueGrows(d: string, e: string)
    requires AllDigits(d + e)
    ensures AllDigits(d) && ValueOf(d) <= ValueOf(d + e)
    decreases |e|
  {
    assert forall i :: 0 <= i < |d| ==> d[i] == (d + e)[i];
    if e == [] {
      assert d + e == d;
    } else {
      var n := |e| - 1;
      assert (d + e)[..|d| + n] == d + e[..n];
      ValueGrows(d, e[..n]);
    }
  }

  // A number that begins with the digits d is at least their value.
  lemma AtLeast(d: string, s: string)
    requires AllDigits(d)
    ensures ValueOf(d) <= ValueOf(DigitsOf(d + s))
  {
    DigitsBehind(d, s);
    ValueGrows(d, DigitsOf(s));
  }

  /** The number at position i and the position behind it; the sum overflows an int on the way just when the number
      itself is too large. */
  method ReadNumber(buf: array<char>, i: nat) returns (r: Outcome<nat>, j: nat)
    requires In(buf, i)
    ensures var d := DigitsOf(Rest(buf, i));
            && r == (if ValueOf(d) > INT_MAX then Overflows else Got(ValueOf(d)))
            && (r.Got? ==> In(buf, j) && Rest(buf, j) == Rest(buf, i)[|d|..])
  {
    assert ValueOf("") == 0;
    hide CText, ValueOf, DigitsOf, Rest;
    ghost var t := Rest(buf, i);
    ghost var d := "";
    var v := 0;
    j := i;
    Peek(buf, j);
    while '0' <= buf[j] <= '9'
      invariant In(buf, j) && AllDigits(d) && v == ValueOf(d) <= INT_MAX && t == d + Rest(buf, j)
      decreases |Rest(buf, j)|
    {
      Peek(buf, j);
      var c := buf[j];
      ghost var s := Rest(buf, j);
      OneMoreDigit(d, c, s);
      v, d, j := v * 10 + DigitValue(c), d + [c], j + 1;
      if v > INT_MAX {
        AtLeast(d, s[1..]);
        return Overflows, j;
      }
    }
    Peek(buf, j);
    DigitsThen(d, Rest(buf, j));
    r := Got(v);
  }

  /** One field of the parser: the number read and the position behind it. */
  method ReadField(buf: array<char>, i: nat, name: string) returns (r: Outcome<nat>, j: nat)
    requires In(buf, i) && NulFree(name)
    ensures r.AssertFails? <==> Field(Rest(buf, i), name).AssertFails?
    ensures r.Overflows? <==> Field(Rest(buf, i), name).Overflows?
    ensures r.Got? ==> In(buf, j) && Field(Rest(buf, i), name) == Got((r.value, Rest(buf, j)))
  {
    hide CText, AfterSpaces, DigitsOf, ValueOf;
    j := i;
    var ok := Begins(buf, j, name);
    if !ok {
      return AssertFails, j;
    }
    j := SkipSpaces(buf, j + |name|);
    ok := Begins(buf, j, ":");
    if !ok {
      return AssertFails, j;
    }
    j := SkipSpaces(buf, j + 1);
    r, j := ReadNumber(buf, j);
  }

  /** The parsing part of dispinfo: the two numbers, or how it fails. */
  method ParseBuffer(buf: array<char>) returns (r: Outcome<(nat, nat)>)
    requires In(buf, 0)
    ensures r == Parse(CText(buf[..]))
  {
    hide CText, Field, AfterSpaces;
    assert Rest(buf, 0) == CText(buf[..]);
    var w, h, j;
    w, j := ReadField(buf, 0, "WIDTH");
    if !w.Got? {
      return if w.Overflows? then Overflows else AssertFails;
    }
    j := SkipSpaces(buf, j);
    var ok := Begins(buf, j, "\n");
    if !ok {
      return AssertFails;
    }
    h, j := ReadField(buf, j + 1, "HEIGHT");
    r := match h
      case Got(height) => Got((w.value, height))
      case Overflows => Overflows
      case AssertFails => AssertFails;
  }

  lemma AtMostTenDigits(v: nat)
    requires v < 0x8000_0000
    ensures |Decimal(v)| <= 10
  {
    DecimalLength(v);
    assert Power(10, 10) == 10000000000;
    if |Decimal(v)| > 10 {
      PowerGrows(10, 10, |Decimal(v)| - 1);
    }
  }

  /** dispinfo: every screen size the device reports arrives unchanged, and no assert fails on the way. */
  method ScreenSize(width: nat, height: nat) returns (screenW: nat, screenH: nat)
    requires width < 0x8000_0000 && height < 0x8000_0000
    ensures screenW == width && screenH == height
  {
    hide Decimal, Parse, CText;
    var maxsize := 1024;
    var buf := new char[maxsize];
    var value := DispinfoRead(buf, maxsize, width, height);
    AtMostTenDigits(width);
    AtMostTenDigits(height);
    assert value < maxsize && value == |DispinfoText(width, height)|;
    DispinfoHasNoNul(width, height);
    CTextIs(buf[..], DispinfoText(width, height));
    var r := ParseBuffer(buf);
    ParseDispinfoText(width, height);
    screenW, screenH := r.value.0, r.value.1;
  }

  lemma DispinfoHasNoNul(width: nat, height: nat)
    ensures NulFree(DispinfoText(width, height))
  {
    assert forall c: char :: IsDigit(c) ==> c != NUL;
  }
}
