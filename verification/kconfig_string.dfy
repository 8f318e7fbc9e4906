/**
 Writing a string value to the configuration file and reading it back: sym_escape_string_value
 (nemu/tools/kconfig/symbol.c) and the S_STRING branch of conf_set_sym_val (nemu/tools/kconfig/confdata.c),
 with the C library calls they make on NUL-terminated buffers.
 */
module KconfigString {
  import opened Common
  import opened CString

  predicate Special(c: char) { c == '"' || c == '\\' }

  /* ---- the C library ---- */

  /** strcspn(p, "\"\\") for the string that starts at i. */
  method StrCSpn(s: string, i: nat) returns (l: nat)
    requires i <= |s|
    ensures i + l <= |s| && (i + l < |s| ==> Special(s[i + l]))
    ensures forall j :: i <= j < i + l ==> !Special(s[j])
  {
    l := 0;
    while i + l < |s| && !Special(s[i + l])
      invariant i + l <= |s| && forall j :: i <= j < i + l ==> !Special(s[j])
    {
      l := l + 1;
    }
  }

  /** strcat and strncat: src goes behind the string in res, and a new terminator behind it. */
  method StrCat(res: array<char>, src: string)
    requires NulFree(src) && |CText(res[..])| + |src| < res.Length
    modifies res
    ensures CText(res[..]) == old(CText(res[..])) + src
  {
    ghost var t := CText(res[..]);
    var e := 0;
    CTextEnd(res[..], e);
    while res[e] != NUL
      invariant res[..] == old(res[..]) && e <= |t| && (res[e] == NUL <==> e == |t|)
      decreases |t| - e
    {
      e := e + 1;
      CTextEnd(res[..], e);
    }
    var j := 0;
    while j < |src|
      invariant 0 <= j <= |src| && res[..e] == t && res[e..e + j] == src[..j]
    {
      res[e + j] := src[j];
      j := j + 1;
    }
    res[e + j] := NUL;
    assert res[..][..e + j] == t + src;
    CTextIs(res[..], t + src);
  }

  /** memmove(&p[at], &p[at + 1], n) */
  method ShiftDown(p: array<char>, at: nat, n: nat)
    requires at + n < p.Length
    modifies p
    ensures p[..] == old(p[..at]) + old(p[at + 1..at + 1 + n]) + old(p[at + n..])
  {
    var j := 0;
    while j < n
      invariant 0 <= j <= n && p[..at] == old(p[..at]) && p[at..at + j] == old(p[at + 1..at + 1 + j])
      invariant p[at + j..] == old(p[at + j..])
    {
      assert p[at + j..][1] == old(p[at + j..])[1];
      p[at + j] := p[at + j + 1];
      j := j + 1;
      assert p[at + j..] == old(p[at + j - 1..])[1..];
    }
    assert p[..] == p[..at] + p[at..at + n] + p[at + n..];
  }

  /* ---- escaping ---- */

  /** Every quote and backslash gets a backslash in front. */
  function Escaped(s: string): (r: string)
    ensures |r| == |s| + Specials(s)
  {
    if s == [] then [] else Piece(s[0]) + Escaped(s[1..])
  }

  function Specials(s: string): nat {
    if s == [] then 0 else (if Special(s[0]) then 1 else 0) + Specials(s[1..])
  }

  function Piece(c: char): string { if Special(c) then ['\\', c] else [c] }

  lemma Associative(x: string, y: string, z: string)
    ensures x + y + z == x + (y + z)
  {
  }

  lemma {:induction false} EscapedJoin(a: string, b: string)
    ensures Escaped(a + b) == Escaped(a) + Escaped(b)
  {
    hide Piece, Special, Specials;
    if a == [] {
      assert a + b == b;
      assert Escaped(a) == [];
    } else {
      assert (a + b)[1..] == a[1..] + b && (a + b)[0] == a[0];
      EscapedJoin(a[1..], b);
      Associative(Piece(a[0]), Escaped(a[1..]), Escaped(b));
    }
  }

  lemma {:induction false} PlainText(s: string)
    requires forall i :: 0 <= i < |s| ==> !Special(s[i])
    ensures Escaped(s) == s && Specials(s) == 0
  {
    if s != [] {
      PlainText(s[1..]);
    }
  }

  /** Text changes only if it has a quote or a backslash in it. */
  lemma {:induction false} EscapedSame(s: string)
    ensures Escaped(s) == s <==> '"' !in s && '\\' !in s
  {
    if s != [] {
      EscapedSame(s[1..]);
      assert s == [s[0]] + s[1..];
      if !Special(s[0]) {
        assert Escaped(s)[1..] == Escaped(s[1..]);
      }
    }
  }

  // What the escaper has read after l plain characters and, if there is one, the special behind them.
  lemma NextPiece(s: string, i: nat, l: nat)
    requires i + l <= |s| && forall j :: i <= j < i + l ==> !Special(s[j])
    ensures Escaped(s[..i + l]) == Escaped(s[..i]) + s[i..i + l] && Specials(s[..i + l]) == Specials(s[..i])
    ensures i + l < |s| && Special(s[i + l]) ==>
              && Escaped(s[..i + l + 1]) == Escaped(s[..i + l]) + ['\\', s[i + l]]
              && Specials(s[..i + l + 1]) == Specials(s[..i + l]) + 1
  {
    assert s[..i + l] == s[..i] + s[i..i + l];
    PlainText(s[i..i + l]);
    EscapedJoin(s[..i], s[i..i + l]);
    if i + l < |s| {
      assert s[..i + l + 1] == s[..i + l] + [s[i + l]];
      EscapedJoin(s[..i + l], [s[i + l]]);
    }
  }

  /** The first loop of sym_escape_string_value. */
  method BufferSize(s: string) returns (reslen: nat)
    ensures reslen == |s| + Specials(s) + 3
  {
    reslen := |s| + 2 + 1;
    var p, l := 0, 0;
    while true
      invariant 0 <= p <= |s| && reslen == |s| + Specials(s[..p]) + 3
      decreases |s| - p
    {
      l := StrCSpn(s, p);
      NextPiece(s, p, l);
      p := p + l;
      if p == |s| {
        assert s[..p] == s;
        return;
      }
      reslen := reslen + 1;
      p := p + 1;
    }
  }

  function Quoted(s: string): string { ['"'] + Escaped(s) + ['"'] }

  /** One turn of the second loop: the plain characters at p and the special behind them. */
  method CopyPiece(res: array<char>, s: string, p0: nat) returns (p: nat, done: bool)
    requires NulFree(s) && p0 <= |s| && res.Length == |Escaped(s)| + 3
    requires CText(res[..]) == "\"" + Escaped(s[..p0])
    modifies res
    ensures p0 <= p <= |s| && CText(res[..]) == "\"" + Escaped(s[..p])
    ensures if done then p == |s| else p0 < p
  {
    hide CText, Escaped;
    var l := StrCSpn(s, p0);
    NextPiece(s, p0, l);
    Fits(s, p0 + l);
    StrCat(res, s[p0..p0 + l]);
    p, done := p0 + l, true;
    if p < |s| {
      CopyEscape(res, s, p);
      p, done := p + 1, false;
    }
  }

  /** A quote or backslash, with a backslash before it. */
  method CopyEscape(res: array<char>, s: string, p: nat)
    requires NulFree(s) && p < |s| && res.Length == |Escaped(s)| + 3
    requires Escaped(s[..p + 1]) == Escaped(s[..p]) + "\\" + [s[p]]
    requires CText(res[..]) == "\"" + Escaped(s[..p])
    modifies res
    ensures CText(res[..]) == "\"" + Escaped(s[..p + 1])
  {
    hide CText, Escaped;
    Fits(s, p + 1);
    StrCat(res, "\\");
    StrCat(res, [s[p]]);
  }

  /** sym_escape_string_value: the buffer holds the quoted text and has room for nothing more. */
  method EscapeStringValue(s: string) returns (res: array<char>)
    requires NulFree(s)
    ensures fresh(res) && CText(res[..]) == Quoted(s) && res.Length == |Quoted(s)| + 1
  {
    var reslen := BufferSize(s);
    res := new char[reslen];
    res[0] := NUL;
    CTextIs(res[..], "");
    StrCat(res, "\"");
    var p, done := 0, false;
    while !done
      invariant 0 <= p <= |s| && (done ==> p == |s|) && CText(res[..]) == "\"" + Escaped(s[..p])
      decreases if done then 0 else 1 + |s| - p
    {
      p, done := CopyPiece(res, s, p);
    }
    assert s[..p] == s;
    StrCat(res, "\"");
  }

  lemma Fits(s: string, i: nat)
    requires i <= |s|
    ensures |Escaped(s[..i])| <= |Escaped(s)|
  {
    assert s == s[..i] + s[i..];
    EscapedJoin(s[..i], s[i..]);
  }

  /* ---- reading it back ---- */

  function Prefixed(a: string, v: Option<string>): Option<string> {
    if v.Some? then Some(a + v.value) else None
  }

  /** The value of the text behind an opening quote: up to the first quote without a backslash in front,
      backslashes dropped. */
  function Unescape(t: string): (v: Option<string>)
    ensures v.Some? && NulFree(t) ==> NulFree(v.value)
  {
    if t == [] then None
    else if t[0] == '"' then Some([])
    else if t[0] != '\\' then Prefixed([t[0]], Unescape(t[1..]))
    else if |t| == 1 then None
    else Prefixed([t[1]], Unescape(t[2..]))
  }

  /** Reading back what was written gives the value that was written, whatever follows on the line. */
  lemma {:induction false} UnescapeEscaped(s: string, more: string)
    ensures Unescape(Escaped(s) + ['"'] + more) == Some(s)
  {
    var t := Escaped(s) + ['"'] + more;
    if s != [] {
      var e := Escaped(s[1..]) + ['"'] + more;
      UnescapeEscaped(s[1..], more);
      if Special(s[0]) {
        assert t[1] == s[0] && t[2..] == e;
      } else {
        assert t[0] == s[0] && t[1..] == e;
      }
      assert [s[0]] + s[1..] == s;
    }
  }

  lemma PrefixedTwice(a: string, b: string, v: Option<string>)
    ensures Prefixed(a, Prefixed(b, v)) == Prefixed(a + b, v)
  {
    if v.Some? {
      assert a + (b + v.value) == a + b + v.value;
    }
  }

  lemma {:induction false} UnescapePlain(a: string, t: string)
    requires forall i :: 0 <= i < |a| ==> !Special(a[i])
    ensures Unescape(a + t) == Prefixed(a, Unescape(t))
  {
    if a == [] {
      assert a + t == t && (Unescape(t).Some? ==> a + Unescape(t).value == Unescape(t).value);
    } else {
      UnescapePlain(a[1..], t);
      assert (a + t)[1..] == a[1..] + t && [a[0]] + a[1..] == a;
      PrefixedTwice([a[0]], a[1..], Unescape(t));
    }
  }

  /** strpbrk(&p[q], "\"\\") */
  method StrPBrk(p: array<char>, q0: nat) returns (found: bool, q: nat)
    requires q0 <= p.Length
    ensures q0 <= q <= p.Length && q - q0 <= |CText(p[q0..])|
    ensures forall j :: q0 <= j < q ==> !Special(p[j])
    ensures if found then q < p.Length && Special(p[q]) else q - q0 == |CText(p[q0..])|
  {
    ghost var t := CText(p[q0..]);
    q := q0;
    while q < p.Length && p[q] != NUL
      invariant q0 <= q <= p.Length && q - q0 <= |t|
      invariant forall j :: q0 <= j < q ==> !Special(p[j])
    {
      assert p[q0..][q - q0] == p[q] && q - q0 < |t|;
      if Special(p[q]) {
        return true, q;
      }
      q := q + 1;
    }
    found := false;
    assert q - q0 < |t| ==> t[q - q0] == p[q0..][q - q0];
  }

  datatype Reading = Value(text: string) | NotSet | Invalid

  /** How far the reader has come: out is read, the string at q is still to be read, and the two make up the
      value of the text t. */
  ghost predicate Reads(t: string, p: seq<char>, from: nat, q: nat) {
    && from <= q < |p| && q + |CText(p[q..])| < |p|
    && Unescape(t) == Prefixed(p[from..q], Unescape(CText(p[q..])))
    && (Unescape(t).Some? ==> NulFree(p[from..q]))
  }

  lemma ReadsBounds(t: string, p: seq<char>, from: nat, q: nat)
    requires Reads(t, p, from, q)
    ensures from <= q < |p| && q + |CText(p[q..])| < |p| && (CText(p[q..]) == [] ==> Unescape(t) == None)
  {
  }

  lemma SkipPlain(t: string, p: seq<char>, from: nat, q: nat, r: nat)
    requires Reads(t, p, from, q) && q <= r <= q + |CText(p[q..])|
    requires forall j :: q <= j < r ==> !Special(p[j])
    ensures Reads(t, p, from, r) && CText(p[r..]) == CText(p[q..])[r - q..]
  {
    hide CText, Unescape, Prefixed;
    var c, a := CText(p[q..]), p[q..r];
    var d := c[r - q..];
    CTextFrom(p[q..], r - q);
    assert p[q..][r - q..] == p[r..];
    assert c[..r - q] == a by {
      assert c == p[q..][..|c|];
    }
    assert c == a + d;
    UnescapePlain(a, d);
    assert p[from..q] + a == p[from..r];
    PrefixedTwice(p[from..q], a, Unescape(d));
    assert NulFree(a) by {
      assert forall j :: 0 <= j < |a| ==> a[j] == c[j];
    }
  }

  /** A backslash at q: the tail moves down over it, and the character behind it is read as it is. */
  lemma ShiftOver(t: string, p: seq<char>, from: nat, q: nat, p': seq<char>)
    requires Reads(t, p, from, q) && CText(p[q..]) != [] && p[q] == '\\'
    requires var n := |CText(p[q..])|; p' == p[..q] + p[q + 1..q + 1 + n] + p[q + n..]
    ensures Reads(t, p', from, q + 1)
  {
    var c := CText(p[q..]);
    var n := |c|;
    assert |p'| == |p| && p'[from..q] == p[from..q] && p'[q] == p[q + 1];
    assert c[0] == '\\';
    assert p'[from..q + 1] == p[from..q] + [p[q + 1]];
    if n == 1 {
      assert p[q..][1] == NUL;
      assert p'[q + 1..] == p[q + 1..];
      CTextIs(p[q + 1..], "");
    } else {
      var d := c[2..];
      assert forall j :: 0 <= j < |d| ==> p'[q + 1..][j] == p[q..][j + 2] == d[j];
      assert p'[q + 1..][n - 2] == p[q..][n];
      CTextIs(p'[q + 1..], d);
      assert c[1] == p[q..][1];
      PrefixedTwice(p[from..q], [c[1]], Unescape(d));
    }
  }

  /** A quote at q ends the value. */
  lemma EndAt(t: string, p: seq<char>, from: nat, q: nat)
    requires Reads(t, p, from, q) && q < |p| && p[q] == '"' && from <= |p|
    ensures Unescape(t) == Some(CText(p[q := NUL][from..]))
  {
    SpecialIsText(p, q);
    var c, p' := CText(p[q..]), p[q := NUL];
    assert c[0] == '"' && p[from..q] + [] == p[from..q];
    assert p'[from..][..q - from] == p[from..q];
    CTextIs(p'[from..], p[from..q]);
  }

  lemma StartAt(p: seq<char>, from: nat)
    requires from < |p| && from + |CText(p[from..])| < |p| && p[from] != NUL
    ensures CText(p[from..]) != [] && Reads(CText(p[from..])[1..], p, from + 1, from + 1)
  {
    CTextFrom(p[from..], 1);
    assert p[from..][1..] == p[from + 1..];
    var v := Unescape(CText(p[from + 1..]));
    assert p[from + 1..from + 1] == [] && (v.Some? ==> [] + v.value == v.value);
  }

  /** One turn of the reading loop: up to the next quote, which ends the value, or over the next backslash. */
  method ReadPiece(p: array<char>, ghost t: string, ghost from: nat, q0: nat) returns (more: bool, found: bool, q: nat)
    requires Reads(t, p[..], from, q0)
    modifies p
    ensures more ==> Reads(t, p[..], from, q) && q0 < q
    ensures !more && found ==> from <= p.Length && Unescape(t) == Some(CText(p[from..]))
    ensures !more && !found ==> Unescape(t) == None
  {
    hide Reads, CText, Unescape;
    ReadsBounds(t, p[..], from, q0);
    assert p[..][q0..] == p[q0..];
    found, q := StrPBrk(p, q0);
    SkipPlain(t, p[..], from, q0, q);
    ReadsBounds(t, p[..], from, q);
    assert p[..][q..] == p[q..];
    more := false;
    ghost var was := p[..];
    if found && p[q] == '"' {
      EndAt(t, was, from, q);
      p[q] := NUL;
      assert p[..] == was[q := NUL] && p[..][from..] == p[from..];
    } else if found {
      SpecialIsText(was, q);
      ShiftDown(p, q, |CText(p[q..])|);
      ShiftOver(t, was, from, q, p[..]);
      more, q := true, q + 1;
    }
  }

  lemma SpecialIsText(p: seq<char>, q: nat)
    requires q < |p| && p[q] != NUL
    ensures CText(p[q..]) != []
  {
  }

  /** The S_STRING branch of conf_set_sym_val, on the text of a line from `from` on. */
  method SetStringValue(p: array<char>, from: nat) returns (r: Reading)
    requires from < p.Length && from + |CText(p[from..])| < p.Length
    modifies p
    ensures var t := old(CText(p[from..]));
            r == if t == [] || t[0] != '"' then NotSet
                 else if Unescape(t[1..]).Some? then Value(Unescape(t[1..]).value) else Invalid
    ensures r == NotSet ==> p[..] == old(p[..])
    ensures r.Value? ==> CText(p[from + 1..]) == r.text
  {
    hide Reads, Unescape;
    if p[from] != '"' {
      return NotSet;
    }
    assert p[..][from..] == p[from..];
    StartAt(p[..], from);
    ghost var t := CText(p[from..])[1..];
    var more, found, q := true, true, from + 1;
    while more
      invariant more ==> Reads(t, p[..], from + 1, q) && q <= p.Length
      invariant !more ==> Unescape(t) == if found then Some(CText(p[from + 1..])) else None
      decreases more, p.Length - q
    {
      ReadsBounds(t, p[..], from + 1, q);
      more, found, q := ReadPiece(p, t, from + 1, q);
      if more {
        ReadsBounds(t, p[..], from + 1, q);
      }
    }
    r := if found then Value(CText(p[from + 1..])) else Invalid;
  }

  /** The text an escaped value is written as reads back as that value: sym_escape_string_value and
      conf_set_sym_val are inverse. */
  lemma WrittenThenRead(s: string)
    requires NulFree(s)
    ensures Quoted(s)[0] == '"' && Unescape(Quoted(s)[1..]) == Some(s)
  {
    UnescapeEscaped(s, "");
    assert Quoted(s)[1..] == Escaped(s) + ['"'] + "";
  }
}
