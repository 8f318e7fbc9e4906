/** NUL-terminated strings in character buffers. */
module CString {

  const NUL: char := '\0'

  ghost predicate NulFree(s: string) { forall i :: 0 <= i < |s| ==> s[i] != NUL }

  /** The C string that starts at the beginning of a. */
  function CText(a: seq<char>): (t: string)
    ensures |t| <= |a| && t == a[..|t|] && NulFree(t) && (|t| < |a| ==> a[|t|] == NUL)
  {
    if a == [] || a[0] == NUL then [] else [a[0]] + CText(a[1..])
  }

  lemma {:induction false} CTextIs(a: seq<char>, t: string)
    requires NulFree(t) && |t| < |a| && a[..|t|] == t && a[|t|] == NUL
    ensures CText(a) == t
  {
    if t != [] {
      assert a[0] == t[0] && a[1..][..|t| - 1] == t[1..];
      CTextIs(a[1..], t[1..]);
    }
  }

  lemma CTextEnd(a: seq<char>, e: nat)
    requires e <= |CText(a)| < |a|
    ensures a[e] == NUL <==> e == |CText(a)|
  {
    assert e < |CText(a)| ==> a[e] == a[..|CText(a)|][e];
  }

  lemma {:induction false} CTextFrom(a: seq<char>, n: nat)
    requires n <= |CText(a)|
    ensures CText(a[n..]) == CText(a)[n..]
  {
    if n == 0 {
      assert a[0..] == a;
    } else {
      CTextFrom(a[1..], n - 1);
      assert a[1..][n - 1..] == a[n..];
    }
  }
}
