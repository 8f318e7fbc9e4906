/**
 CoreMark's list benchmark (am-kernels/benchmarks/coremark/src/core_list_join.c): find, reverse, remove and
 undo on the linked list, and the benchmark run that has to leave the list as it found it.
 */
module CoremarkBench {
  import opened CoremarkList

  /* ---- core_list_find ---- */

  predicate Matches(d: ListData, idx: int, data16: nat)
    reads d
  {
    if idx >= 0 then d.idx == idx else d.data16 % 256 == data16
  }

  /** core_list_find: the first cell that matches. */
  method Find(list: ListHead?, idx: int, data16: nat, ghost s: seq<ListHead>)
    returns (found: ListHead?, ghost i: nat)
    requires IsList(list, s)
    ensures i <= |s| && found == (if i < |s| then s[i] else null)
    ensures i < |s| ==> Matches(s[i].info, idx, data16)
    ensures forall j :: 0 <= j < i ==> !Matches(s[j].info, idx, data16)
  {
    found, i := list, 0;
    while found != null && !Matches(found.info, idx, data16)
      invariant i <= |s| && found == if i < |s| then s[i] else null
      invariant forall j :: 0 <= j < i ==> !Matches(s[j].info, idx, data16)
      decreases |s| - i
    {
      found := found.next;
      i := i + 1;
    }
  }

  /* ---- core_list_reverse ---- */

  function Reversed(s: seq<ListHead>): (r: seq<ListHead>)
    ensures |r| == |s| && multiset(r) == multiset(s)
  {
    if s == [] then [] else assert s == [s[0]] + s[1..]; Reversed(s[1..]) + [s[0]]
  }

  lemma {:induction false} ReversedAt(s: seq<ListHead>, j: nat)
    requires j < |s|
    ensures Reversed(s)[j] == s[|s| - 1 - j]
  {
    if j < |s| - 1 {
      ReversedAt(s[1..], j);
    }
  }

  ghost predicate Apart(s: seq<ListHead>) {
    forall i, j :: 0 <= i < j < |s| ==> s[i] != s[j]
  }

  lemma NoRepeatsApart(s: seq<ListHead>)
    requires NoRepeats(multiset(s))
    ensures Apart(s)
  {
    forall i, j | 0 <= i < j < |s| ensures s[i] != s[j] {
      Distinct(s, i, j);
    }
  }

  /** core_list_reverse */
  method Reverse(list0: ListHead, ghost s: seq<ListHead>) returns (lst: ListHead)
    requires IsList(list0, s) && NoRepeats(multiset(s))
    modifies (set x | x in s)`next
    ensures IsList(lst, Reversed(s))
  {
    NoRepeatsApart(s);
    var list: ListHead?, next: ListHead? := list0, null;
    ghost var i := 0;
    while list != null
      invariant 0 <= i <= |s| && list == (if i < |s| then s[i] else null)
      invariant next == (if i == 0 then null else s[i - 1])
      invariant forall j :: i <= j < |s| ==> s[j].next == old(s[j].next)
      invariant forall j {:trigger s[j].next} :: 0 <= j < i ==> s[j].next == if j == 0 then null else s[j - 1]
      decreases |s| - i
    {
      var tmp := list.next;
      list.next := next;
      next := list;
      list := tmp;
      i := i + 1;
    }
    lst := next;
    ghost var r := Reversed(s);
    forall j | 0 <= j < |s| ensures r[j] == s[|s| - 1 - j] {
      ReversedAt(s, j);
    }
  }

  /* ---- remove and undo ---- */

  ghost function Infos(s: seq<ListHead>): (d: seq<ListData>)
    reads s
    ensures |d| == |s| && forall i :: 0 <= i < |s| ==> d[i] == s[i].info
  {
    seq(|s|, i requires 0 <= i < |s| reads s => s[i].info)
  }

  function Without(s: seq<ListHead>, n: nat): seq<ListHead>
    requires n < |s|
  {
    s[..n] + s[n + 1..]
  }

  /** core_list_remove, on the cell at n: its data leaves the list, and with it the next cell. */
  method Remove(item: ListHead, ghost list: ListHead, ghost s: seq<ListHead>, ghost n: nat) returns (ret: ListHead)
    requires IsList(list, s) && NoRepeats(multiset(s)) && n + 1 < |s| && item == s[n]
    modifies item, s[n + 1]
    ensures ret == s[n + 1] && ret.next == null && ret.info == old(item.info)
    ensures IsList(list, Without(s, n + 1))
    ensures Infos(Without(s, n + 1)) == old(Infos(s))[..n] + old(Infos(s))[n + 1..]
  {
    NoRepeatsApart(s);
    ret := item.next;
    var tmp := item.info;
    item.info := ret.info;
    ret.info := tmp;
    item.next := item.next.next;
    ret.next := null;
  }

  /** core_list_undo_remove: the removed data comes back in front of the data of the cell at n. */
  method UndoRemove(removed: ListHead, modified: ListHead, ghost list: ListHead, ghost t: seq<ListHead>, ghost n: nat)
    returns (ret: ListHead)
    requires IsList(list, t) && NoRepeats(multiset(t)) && n < |t| && modified == t[n] && removed !in t
    modifies removed, modified
    ensures ret == removed && IsList(list, t[..n + 1] + [removed] + t[n + 1..])
    ensures Infos(t[..n + 1] + [removed] + t[n + 1..]) ==
            old(Infos(t))[..n] + [old(removed.info)] + old(Infos(t))[n..]
  {
    NoRepeatsApart(t);
    hide NoRepeats;
    var tmp := removed.info;
    removed.info := modified.info;
    modified.info := tmp;
    removed.next := modified.next;
    modified.next := removed;
    ret := removed;
  }

  lemma WithoutOne(s: seq<ListHead>, n: nat)
    requires NoRepeats(multiset(s)) && n < |s|
    ensures var t := Without(s, n); NoRepeats(multiset(t)) && s[n] !in t && t[..n] + [s[n]] + t[n..] == s
  {
    var t := Without(s, n);
    assert s == s[..n] + [s[n]] + s[n + 1..];
    assert multiset(s) == multiset(t) + multiset{s[n]};
    NoRepeatsApart(s);
    forall x | x in multiset(t) ensures multiset(t)[x] <= 1 {
      assert x in multiset(s) && multiset(s)[x] >= multiset(t)[x];
    }
  }

  /** The two cancel: the cells are linked as before and each holds the data it held. */
  method RemoveAndUndo(list: ListHead, ghost s: seq<ListHead>)
    requires IsList(list, s) && NoRepeats(multiset(s)) && |s| >= 3
    modifies s[1], s[2]
    ensures IsList(list, s) && forall x :: x in s ==> x.info == old(x.info)
  {
    ghost var infos := Infos(s);
    WithoutOne(s, 2);
    ghost var t := Without(s, 2);
    var remover := Remove(list.next, list, s, 1);
    remover := UndoRemove(remover, list.next, list, t, 1);
    assert Infos(s) == infos;
    forall x | x in s ensures x.info == old(x.info) {
      var i :| 0 <= i < |s| && s[i] == x;
      assert Infos(s)[i] == infos[i];
    }
  }

  /* ---- the benchmark ---- */

  /** The list links the cells s, and those are the cells s0 in some order. */
  ghost predicate ListOf(list: ListHead, s: seq<ListHead>, s0: seq<ListHead>)
    reads s
  {
    && IsList(list, s) && multiset(s) == multiset(s0) && |s| == |s0|
    && (forall x :: x in s ==> x in s0) && (forall x :: x in s0 ==> x in s)
  }

  lemma OpenList(list: ListHead, s: seq<ListHead>, s0: seq<ListHead>)
    requires ListOf(list, s, s0)
    ensures IsList(list, s) && multiset(s) == multiset(s0) && |s| == |s0| && forall x :: x in s <==> x in s0
  {
  }

  lemma CloseList(list: ListHead, s: seq<ListHead>, s0: seq<ListHead>)
    requires IsList(list, s) && multiset(s) == multiset(s0)
    ensures ListOf(list, s, s0)
  {
    SameCells(s, s0);
  }

  lemma SwapMiddle(a: seq<ListHead>, b: seq<ListHead>, c: seq<ListHead>, d: seq<ListHead>)
    ensures multiset(a + c + b + d) == multiset(a + b + c + d)
  {
  }

  // The cell behind a found one is moved to second place.
  function Fronted(s: seq<ListHead>, i: nat): (r: seq<ListHead>)
    requires i + 1 < |s|
    ensures multiset(r) == multiset(s) && |r| == |s|
  {
    assert s == [s[0]] + s[1..i + 1] + [s[i + 1]] + s[i + 2..];
    SwapMiddle([s[0]], s[1..i + 1], [s[i + 1]], s[i + 2..]);
    [s[0]] + [s[i + 1]] + s[1..i + 1] + s[i + 2..]
  }

  lemma FrontedAt(s: seq<ListHead>, i: nat)
    requires i + 1 < |s|
    ensures Fronted(s, i)[0] == s[0] && Fronted(s, i)[1] == s[i + 1]
    ensures forall k :: 2 <= k <= i + 1 ==> Fronted(s, i)[k] == s[k - 1]
    ensures forall k :: i + 2 <= k < |s| ==> Fronted(s, i)[k] == s[k]
  {
  }

  method ToFront(list: ListHead, found: ListHead, ghost s: seq<ListHead>, ghost i: nat)
    requires IsList(list, s) && NoRepeats(multiset(s)) && i + 1 < |s| && found == s[i]
    modifies (set x | x in s)`next
    ensures IsList(list, Fronted(s, i))
  {
    NoRepeatsApart(s);
    FrontedAt(s, i);
    hide Fronted, NoRepeats;
    var finder := found.next;
    found.next := finder.next;
    finder.next := list.next;
    list.next := finder;
    ghost var r := Fronted(s, i);
    forall j | 0 <= j < |r| - 1 ensures r[j].next == r[j + 1] {
      if j > i + 1 {
        assert s[j].next == s[j + 1];
      } else if 1 < j < i + 1 {
        assert s[j - 1].next == s[j];
      }
    }
  }

  // info.idx++ on a 16-bit field.
  function NextIdx(idx: int): int { if idx == 32767 then -32768 else idx + 1 }

  lemma NextIdxWraps(idx: int)
    requires -32768 <= idx <= 32767
    ensures -32768 <= NextIdx(idx) <= 32767 && (NextIdx(idx) - (idx + 1)) % 65536 == 0
  {
  }

  lemma SameCells(s: seq<ListHead>, s0: seq<ListHead>)
    requires multiset(s) == multiset(s0)
    ensures |s| == |s0| && forall x :: x in s <==> x in s0
  {
    assert |multiset(s)| == |s| && |multiset(s0)| == |s0|;
    assert forall x :: x in s <==> x in multiset(s);
    assert forall x :: x in s0 <==> x in multiset(s0);
  }

  // idx and data16 of each cell.
  ghost function View(s: seq<ListHead>): map<ListHead, (int, nat)>
    reads s`info, InfosOf(s)
  {
    map x | x in s :: (x.info.idx, x.info.data16)
  }

  /** Where a search succeeds, or the length of the list. */
  ghost function FirstMatch(view: map<ListHead, (int, nat)>, s: seq<ListHead>, idx: int, data16: nat): nat {
    if s == [] || (s[0] in view && if idx >= 0 then view[s[0]].0 == idx else view[s[0]].1 % 256 == data16) then 0
    else 1 + FirstMatch(view, s[1..], idx, data16)
  }

  /** The list after one search: reversed, and with the cell behind the found one moved up. */
  ghost function Searched(s: seq<ListHead>, n: nat): (r: seq<ListHead>)
    ensures |r| == |s|
  {
    if 0 < n < |s| then Fronted(Reversed(s), |s| - 1 - n) else Reversed(s)
  }

  /** The list after searches number i up to findNum, and what info.idx is then. */
  ghost function AllSearched(view: map<ListHead, (int, nat)>, s: seq<ListHead>, idx: int, i: int, findNum: int):
      (seq<ListHead>, int)
    decreases findNum - i
  {
    if i >= findNum then (s, idx)
    else AllSearched(view, Searched(s, FirstMatch(view, s, idx, i % 256)),
                     if idx >= 0 then NextIdx(idx) else idx, i + 1, findNum)
  }

  /** Where each cell goes in a search.  The order is reversed; but if the search finds a cell and it is not the first,
      the one before it comes to second place, and those the reversal had put in front of that move down. */
  lemma SearchedAt(s: seq<ListHead>, n: nat, k: nat)
    requires k < |s|
    ensures Searched(s, n)[k] ==
            if 0 < n < |s| && k == 1 then s[n - 1]
            else if 0 < n < |s| && 2 <= k <= |s| - n then s[|s| - k] else s[|s| - 1 - k]
  {
    hide Reversed, Fronted;
    if 0 < n < |s| {
      var i := |s| - 1 - n;
      FrontedAt(Reversed(s), i);
      ReversedAt(s, if k == 0 then 0 else if k == 1 then i + 1 else if k <= i + 1 then k - 1 else k);
    } else {
      ReversedAt(s, k);
    }
  }

  /** What the searches leave of an index: it grows by one with each of them, and once it has wrapped round it stays
      negative. */
  lemma {:induction false} IdxAfter(view: map<ListHead, (int, nat)>, s: seq<ListHead>, idx: int, i: int, findNum: int)
    requires -32768 <= idx <= 32767 && i <= findNum
    ensures AllSearched(view, s, idx, i, findNum).1 ==
            if idx < 0 then idx else if idx + (findNum - i) <= 32767 then idx + (findNum - i) else -32768
    decreases findNum - i
  {
    if i < findNum {
      IdxAfter(view, Searched(s, FirstMatch(view, s, idx, i % 256)), if idx >= 0 then NextIdx(idx) else idx, i + 1,
               findNum);
    }
  }

  lemma {:induction false} FirstMatchIs(view: map<ListHead, (int, nat)>, s: seq<ListHead>, idx: int, data16: nat,
                                        n: nat)
    requires n <= |s| && (forall x :: x in s ==> x in view && view[x] == (x.info.idx, x.info.data16))
    requires n < |s| ==> Matches(s[n].info, idx, data16)
    requires forall j :: 0 <= j < n ==> !Matches(s[j].info, idx, data16)
    ensures FirstMatch(view, s, idx, data16) == n
  {
    if s != [] && n > 0 {
      assert s[0] in s && !Matches(s[0].info, idx, data16);
      forall j | 0 <= j < n - 1 ensures !Matches(s[1..][j].info, idx, data16) {
        assert s[1..][j] == s[j + 1];
      }
      FirstMatchIs(view, s[1..], idx, data16, n - 1);
    } else if s != [] {
      assert s[0] in s;
    }
  }

  /** "Cache next item at the head of the list (if any)": the cell at m has been found. */
  method MoveUp(list: ListHead, found: ListHead, ghost t: seq<ListHead>, ghost m: nat, ghost s0: seq<ListHead>)
    returns (ghost s: seq<ListHead>)
    requires ListOf(list, t, s0) && NoRepeats(multiset(s0)) && m < |t| && found == t[m]
    modifies (set x | x in s0)`next
    ensures ListOf(list, s, s0) && s == if m + 1 < |t| then Fronted(t, m) else t
  {
    hide ListOf;
    OpenList(list, t, s0);
    s := t;
    if found.next != null {
      ToFront(list, found, t, m);
      s := Fronted(t, m);
      CloseList(list, s, s0);
    }
  }

  method ReverseAll(list0: ListHead, ghost t: seq<ListHead>, ghost s0: seq<ListHead>) returns (list: ListHead)
    requires ListOf(list0, t, s0) && NoRepeats(multiset(s0)) && s0 != []
    modifies (set x | x in s0)`next
    ensures ListOf(list, Reversed(t), s0)
  {
    hide ListOf;
    OpenList(list0, t, s0);
    list := Reverse(list0, t);
    CloseList(list, Reversed(t), s0);
  }

  method FindIn(list: ListHead, idx: int, data16: nat, ghost view: map<ListHead, (int, nat)>,
                ghost t: seq<ListHead>, ghost s0: seq<ListHead>) returns (found: ListHead?, ghost n: nat)
    requires ListOf(list, t, s0) && view == View(s0)
    ensures n == FirstMatch(view, t, idx, data16) && n <= |t| && found == if n < |t| then t[n] else null
  {
    found, n := Find(list, idx, data16, t);
    FirstMatchIs(view, t, idx, data16, n);
  }

  /** One turn of the search loop. */
  method FindOne(list0: ListHead, idx: int, data16: nat, ghost view: map<ListHead, (int, nat)>,
                 ghost t: seq<ListHead>, ghost s0: seq<ListHead>)
    returns (list: ListHead, ghost s: seq<ListHead>)
    requires ListOf(list0, t, s0) && NoRepeats(multiset(s0)) && |s0| >= 2 && view == View(s0)
    modifies (set x | x in s0)`next
    ensures ListOf(list, s, s0) && s == Searched(t, FirstMatch(view, t, idx, data16))
  {
    hide ListOf, FirstMatch;
    ghost var n;
    var thisFind;
    thisFind, n := FindIn(list0, idx, data16, view, t, s0);
    list := ReverseAll(list0, t, s0);
    s := Reversed(t);
    if thisFind != null {
      ReversedAt(t, |t| - 1 - n);
      s := MoveUp(list, thisFind, s, |t| - 1 - n, s0);
    }
  }

  /** The search loop: find, reverse, and move a cell after every search that succeeds. */
  method FindAll(list0: ListHead, findNum: int, finderIdx: int, ghost s0: seq<ListHead>)
    returns (list: ListHead, idx: int, ghost s: seq<ListHead>)
    requires IsList(list0, s0) && NoRepeats(multiset(s0)) && |s0| >= 2
    modifies (set x | x in s0)`next
    ensures ListOf(list, s, s0) && (s, idx) == AllSearched(View(s0), s0, finderIdx, 0, findNum)
  {
    hide NoRepeats, Searched, FirstMatch;
    list, idx, s := list0, finderIdx, s0;
    ghost var view := View(s0);
    var i := 0;
    while i < findNum
      invariant ListOf(list, s, s0) && view == View(s0)
      invariant AllSearched(view, s, idx, i, findNum) == AllSearched(view, s0, finderIdx, 0, findNum)
    {
      list, s := FindOne(list, idx, i % 256, view, s, s0);
      if idx >= 0 {
        idx := NextIdx(idx);
      }
      i := i + 1;
    }
  }

  // idx rises from cell to cell.
  ghost predicate Rising(s: seq<ListHead>)
    reads s, InfosOf(s)
  {
    forall i, j :: 0 <= i < j < |s| ==> s[i].info.idx < s[j].info.idx
  }

  // The same two orders by a given map.
  ghost predicate RisingBy(f: map<ListHead, int>, s: seq<ListHead>) {
    forall i, j :: 0 <= i < j < |s| ==> s[i] in f && s[j] in f && f[s[i]] < f[s[j]]
  }

  ghost predicate NeverFallingBy(f: map<ListHead, int>, s: seq<ListHead>) {
    forall i, j :: 0 <= i < j < |s| ==> s[i] in f && s[j] in f && f[s[i]] <= f[s[j]]
  }

  lemma LeastFirst(f: map<ListHead, int>, s: seq<ListHead>, t: seq<ListHead>)
    requires RisingBy(f, s) && NeverFallingBy(f, t) && s != [] && multiset(s) == multiset(t)
    ensures t != [] && s[0] == t[0]
  {
    SameCells(s, t);
    assert s[0] in s && t[0] in t;
    var i :| 0 <= i < |t| && t[i] == s[0];
    var j :| 0 <= j < |s| && s[j] == t[0];
  }

  lemma RestIsSame(x: ListHead, s: seq<ListHead>, t: seq<ListHead>)
    requires multiset([x] + s) == multiset([x] + t)
    ensures multiset(s) == multiset(t)
  {
    assert multiset(s) == multiset([x] + s) - multiset{x} && multiset(t) == multiset([x] + t) - multiset{x};
  }

  lemma {:induction false} UniqueOrder(f: map<ListHead, int>, s: seq<ListHead>, t: seq<ListHead>)
    requires RisingBy(f, s) && NeverFallingBy(f, t) && multiset(s) == multiset(t)
    ensures s == t
  {
    if s == [] {
      assert |multiset(s)| == |s| && |multiset(t)| == |t|;
    } else {
      LeastFirst(f, s, t);
      var s', t' := s[1..], t[1..];
      assert s == [s[0]] + s' && t == [s[0]] + t';
      RestIsSame(s[0], s', t');
      UniqueOrder(f, s', t');
    }
  }

  /** A list whose idx rises is the only order of its cells whose idx never falls. */
  lemma RisingOrderIsUnique(s: seq<ListHead>, t: seq<ListHead>)
    requires Rising(s) && multiset(s) == multiset(t) && NeverFalling(t)
    ensures s == t
  {
    SameCells(s, t);
    UniqueOrder(map x | x in s :: x.info.idx, s, t);
  }

  twostate lemma RisingKept(s: seq<ListHead>)
    requires old(Rising(s)) && forall x: ListHead :: x in s ==> x.info == old(x.info) && x.info.idx == old(x.info.idx)
    ensures Rising(s)
  {
    forall i, j | 0 <= i < j < |s| ensures s[i].info.idx < s[j].info.idx {
      assert s[i] in s && s[j] in s && old(s[i].info.idx < s[j].info.idx);
    }
  }

  // The same cells in the same order are linked in the same way.
  twostate lemma SameLinks(s: seq<ListHead>)
    requires s != [] && old(IsList(s[0], s)) && IsList(s[0], s)
    ensures forall x :: x in s ==> x.next == old(x.next)
  {
    forall x | x in s ensures x.next == old(x.next) {
      var i :| 0 <= i < |s| && s[i] == x;
      assert i == |s| - 1 || (s[i].next == s[i + 1] && old(s[i].next) == s[i + 1]);
    }
  }

  // The order the searches leave the cells in.
  ghost function SearchOrder(s0: seq<ListHead>, findNum: int, finderIdx: int): seq<ListHead>
    reads s0`info, InfosOf(s0)
  {
    AllSearched(View(s0), s0, finderIdx, 0, findNum).0
  }

  // The results stored in the lower byte of each cell's data.
  ghost function Results(s: seq<ListHead>): map<ListHead, int>
    reads s`info, InfosOf(s)
  {
    map x | x in s :: x.info.data16 % 128
  }

  // x comes before y: it has the lesser value, or the same and came first in t.
  ghost predicate Earlier(f: map<ListHead, int>, t: seq<ListHead>, x: ListHead, y: ListHead) {
    && x in t && y in t && x in f && y in f
    && (f[x] < f[y] || (f[x] == f[y] && IndexIn(t, x) < IndexIn(t, y)))
  }

  /** s is t sorted by f, cells of equal value staying in the order they had in t. */
  ghost predicate StablyBy(f: map<ListHead, int>, t: seq<ListHead>, s: seq<ListHead>) {
    multiset(s) == multiset(t) && forall i, j :: 0 <= i < j < |s| ==> Earlier(f, t, s[i], s[j])
  }

  lemma SortedByResults(t: seq<ListHead>, s: seq<ListHead>)
    requires SortedStably(ByData, t, s)
    ensures StablyBy(Results(s), t, s)
  {
    forall i, j | 0 <= i < j < |s| ensures Earlier(Results(s), t, s[i], s[j]) {
      assert s[i] in s && s[j] in s;
      assert StablyBefore(ByData, t, s[i], s[j]);
    }
    hide Earlier;
  }

  method SortByData(list0: ListHead, ghost t: seq<ListHead>, ghost s0: seq<ListHead>)
    returns (list: ListHead, ghost s: seq<ListHead>)
    requires ListOf(list0, t, s0) && NoRepeats(multiset(s0)) && |s0| > 1
    modifies (set x | x in s0)`next, InfosOf(s0)`data16
    ensures ListOf(list, s, s0) && StablyBy(Results(s), t, s)
    ensures forall x :: x in s0 ==> Upper(x.info.data16) == Upper(old(x.info.data16))
    ensures forall x :: x in s0 ==> Cached(x.info.data16)
  {
    hide SortedStably, StablyBy, Cached, Upper;
    assert InfosOf(t) <= InfosOf(s0);
    list, s := MergeSort(ByData, list0, t);
    SortedByResults(t, s);
    SameCells(s, s0);
    forall x | x in s0 ensures Upper(x.info.data16) == Upper(old(x.info.data16)) {
      assert x.info in old(InfosOf(t));
    }
  }

  method RemoveOne(list: ListHead, ghost s: seq<ListHead>, ghost s0: seq<ListHead>)
    requires ListOf(list, s, s0) && NoRepeats(multiset(s0)) && |s0| >= 3
    modifies (set x | x in s0)
    ensures ListOf(list, s, s0) && (forall x :: x in s0 ==> x.info == old(x.info)) && Results(s) == old(Results(s))
  {
    RemoveAndUndo(list, s);
  }

  // The searches and, with a positive finderIdx, the sort by data.
  method SearchAndSort(list0: ListHead, findNum: int, finderIdx: int, ghost s0: seq<ListHead>)
    returns (list: ListHead, ghost s: seq<ListHead>)
    requires IsList(list0, s0) && NoRepeats(multiset(s0)) && |s0| >= 3
    modifies (set x | x in s0)`next, InfosOf(s0)`data16
    ensures ListOf(list, s, s0)
    ensures forall x :: x in s0 ==> Upper(x.info.data16) == Upper(old(x.info.data16))
    ensures finderIdx > 0 ==> StablyBy(Results(s), old(SearchOrder(s0, findNum, finderIdx)), s)
    ensures finderIdx > 0 ==> forall x :: x in s0 ==> Cached(x.info.data16)
    ensures finderIdx <= 0 ==> s == old(SearchOrder(s0, findNum, finderIdx))
    ensures finderIdx <= 0 ==> forall x :: x in s0 ==> x.info.data16 == old(x.info.data16)
  {
    hide ListOf, NoRepeats, AllSearched, Cached, StablyBy, Results, Upper;
    var idx;
    list, idx, s := FindAll(list0, findNum, finderIdx, s0);
    if finderIdx > 0 {
      list, s := SortByData(list, s, s0);
    }
  }

  /** Searching, sorting by data, removing a cell and undoing that.  The searches fix the order; without a positive
      finderIdx it stays, and no data changes; with one it is sorted by the results computed from the data, which are
      then stored in the lower byte. */
  method Shuffle(list0: ListHead, findNum: int, finderIdx: int, ghost s0: seq<ListHead>)
    returns (list: ListHead, ghost s: seq<ListHead>)
    requires IsList(list0, s0) && NoRepeats(multiset(s0)) && |s0| >= 3
    modifies (set x | x in s0), InfosOf(s0)`data16
    ensures ListOf(list, s, s0)
    ensures forall x :: x in s0 ==> x.info == old(x.info) && Upper(x.info.data16) == Upper(old(x.info.data16))
    ensures finderIdx > 0 ==> StablyBy(Results(s), old(SearchOrder(s0, findNum, finderIdx)), s)
    ensures finderIdx > 0 ==> forall x :: x in s0 ==> Cached(x.info.data16)
    ensures finderIdx <= 0 ==> s == old(SearchOrder(s0, findNum, finderIdx))
    ensures finderIdx <= 0 ==> forall x :: x in s0 ==> x.info.data16 == old(x.info.data16)
  {
    hide ListOf, NoRepeats, SearchOrder, Cached, StablyBy, Results, Upper;
    list, s := SearchAndSort(list0, findNum, finderIdx, s0);
    RemoveOne(list, s, s0);
  }

  // idx never falls from cell to cell.
  ghost predicate NeverFalling(s: seq<ListHead>)
    reads s, InfosOf(s)
  {
    forall i, j :: 0 <= i < j < |s| ==> s[i].info.idx <= s[j].info.idx
  }

  method SortByIndex(list0: ListHead, ghost t: seq<ListHead>, ghost s0: seq<ListHead>)
    returns (list: ListHead, ghost s: seq<ListHead>)
    requires ListOf(list0, t, s0) && NoRepeats(multiset(s0)) && |s0| > 1
    modifies (set x | x in s0)`next, InfosOf(s0)`data16
    ensures ListOf(list, s, s0) && NeverFalling(s)
    ensures forall x :: x in s0 ==> x.info.data16 == Regenerate(old(x.info.data16))
  {
    assert InfosOf(t) <= InfosOf(s0);
    list, s := MergeSort(ByIdx(true), list0, t);
    SameCells(s, s0);
  }

  /** A rising list and a sorted one of the same cells are the same list. */
  twostate lemma Restored(s0: seq<ListHead>, new list: ListHead, new s: seq<ListHead>)
    requires s0 != [] && old(IsList(s0[0], s0)) && ListOf(list, s, s0)
    requires old(Rising(s0)) && NeverFalling(s)
    requires forall x: ListHead :: x in s0 ==> x.info == old(x.info) && x.info.idx == old(x.info.idx)
    ensures s == s0 && list == s0[0] && forall x :: x in s0 ==> x.next == old(x.next)
  {
    RisingKept(s0);
    RisingOrderIsUnique(s0, s);
    SameLinks(s0);
  }

  /** Regenerating leaves a 16-bit word alone just when its two bytes are equal. */
  lemma EqualBytes(d: nat)
    requires d < 65536
    ensures Regenerate(d) == d <==> d % 256 == d / 256
  {
    assert d == d / 256 * 256 + d % 256 && d / 256 < 256;
  }

  // No two cells share an idx.
  ghost predicate DistinctIdx(s: seq<ListHead>)
    reads s, InfosOf(s)
  {
    forall i, j :: 0 <= i < j < |s| ==> s[i].info.idx != s[j].info.idx
  }

  /** core_bench_list, without the checksum it returns.  A list in rising order comes back cell for cell.  With
      16-bit data and no idx twice the list comes back as it was just when idx rises and the two bytes of every
      data16 agree. */
  method BenchList(list0: ListHead, findNum: int, finderIdx: int, ghost s0: seq<ListHead>)
    returns (list: ListHead, ghost s: seq<ListHead>)
    requires IsList(list0, s0) && NoRepeats(multiset(s0)) && |s0| >= 3
    modifies (set x | x in s0), InfosOf(s0)`data16
    ensures ListOf(list, s, s0) && NeverFalling(s)
    ensures forall x :: x in s0 ==> x.info == old(x.info) && x.info.data16 == Regenerate(old(x.info.data16))
    ensures old(Rising(s0)) ==> s == s0 && list == list0 && forall x :: x in s0 ==> x.next == old(x.next)
    ensures old(DistinctIdx(s0)) && (forall x :: x in s0 ==> old(x.info.data16) < 65536) ==>
              (s == s0 && list == list0 &&
               (forall x :: x in s0 ==> x.next == old(x.next) && x.info.data16 == old(x.info.data16)) <==>
               old(Rising(s0)) && forall x :: x in s0 ==> old(x.info.data16) % 256 == old(x.info.data16) / 256)
  {
    assert list0 == s0[0];
    hide *;
    list, s := BenchListSteps(list0, findNum, finderIdx, s0);
    ComesBack(s0, list, s);
  }

  /** The condition for a run to leave no trace. */
  twostate lemma ComesBack(s0: seq<ListHead>, new list: ListHead, new s: seq<ListHead>)
    requires s0 != [] && NeverFalling(s)
    requires forall x: ListHead :: x in s0 ==>
               x.info == old(x.info) && x.info.idx == old(x.info.idx) &&
               x.info.data16 == Regenerate(old(x.info.data16))
    requires old(Rising(s0)) ==> s == s0 && list == s0[0] && forall x: ListHead :: x in s0 ==> x.next == old(x.next)
    ensures old(DistinctIdx(s0)) && (forall x: ListHead :: x in s0 ==> old(x.info.data16) < 65536) ==>
              (s == s0 && list == s0[0] &&
               (forall x: ListHead :: x in s0 ==> x.next == old(x.next) && x.info.data16 == old(x.info.data16)) <==>
               old(Rising(s0)) &&
               forall x: ListHead :: x in s0 ==> old(x.info.data16) % 256 == old(x.info.data16) / 256)
  {
    forall x | x in s0 && old(x.info.data16) < 65536
      ensures x.info.data16 == old(x.info.data16) <==> old(x.info.data16) % 256 == old(x.info.data16) / 256
    {
      EqualBytes(old(x.info.data16));
    }
    if s == s0 && old(DistinctIdx(s0)) {
      MustRise(s0);
    }
    hide *;
  }

  // A list of distinct idx that never falls was rising.
  twostate lemma MustRise(s: seq<ListHead>)
    requires old(DistinctIdx(s)) && NeverFalling(s)
    requires forall x: ListHead :: x in s ==> x.info == old(x.info) && x.info.idx == old(x.info.idx)
    ensures old(Rising(s))
  {
    forall i, j | 0 <= i < j < |s| ensures old(s[i].info.idx < s[j].info.idx) {
      assert s[i] in s && s[j] in s && old(s[i].info.idx != s[j].info.idx);
    }
  }

  method BenchListSteps(list0: ListHead, findNum: int, finderIdx: int, ghost s0: seq<ListHead>)
    returns (list: ListHead, ghost s: seq<ListHead>)
    requires IsList(list0, s0) && NoRepeats(multiset(s0)) && |s0| >= 3
    modifies (set x | x in s0), InfosOf(s0)`data16
    ensures ListOf(list, s, s0) && NeverFalling(s)
    ensures forall x :: x in s0 ==> x.info == old(x.info) && x.info.data16 == Regenerate(old(x.info.data16))
    ensures old(Rising(s0)) ==> s == s0 && list == list0 && forall x :: x in s0 ==> x.next == old(x.next)
  {
    hide ListOf, NoRepeats, NeverFalling, Rising, SearchOrder, StablyBy, Results, Cached, Upper, Regenerate;
    list, s := Shuffle(list0, findNum, finderIdx, s0);
    label Shuffled:
    list, s := SortByIndex(list, s, s0);
    forall x | x in s0 ensures x.info == old(x.info) && x.info.data16 == Regenerate(old(x.info.data16)) {
      RegenerateUpper(old@Shuffled(x.info.data16), old(x.info.data16));
    }
    if old(Rising(s0)) {
      Restored(s0, list, s);
    }
  }

  // idx and data16 of the first three cells of a list
  function FirstThree(list: ListHead): seq<(int, nat)>
    requires list.next != null && list.next.next != null
    reads list, list.info, list.next, list.next.info, list.next.next, list.next.next.info
  {
    var c, d := list.next, list.next.next;
    [(list.info.idx, list.info.data16), (c.info.idx, c.info.data16), (d.info.idx, d.info.data16)]
  }

  // idx 1, 0, 2 with data 0x0001, 0, 0
  method ThreeCells() returns (list: ListHead, ghost s: seq<ListHead>)
    ensures |s| == 3 && IsList(list, s) && NoRepeats(multiset(s))
    ensures forall x :: x in s ==> fresh(x) && fresh(x.info)
    ensures s[0].info.idx == 1 && s[1].info.idx == 0 && s[2].info.idx == 2
    ensures s[0].info.data16 == 1 && s[1].info.data16 == 0 && s[2].info.data16 == 0
    ensures list.next != null && list.next.next != null && FirstThree(list) == [(1, 1), (0, 0), (2, 0)]
  {
    var d0 := new ListData(1, 1);
    var d1 := new ListData(0, 0);
    var d2 := new ListData(0, 2);
    var c0 := new ListHead(d0);
    var c1 := new ListHead(d1);
    var c2 := new ListHead(d2);
    c0.next, c1.next := c1, c2;
    list, s := c0, [c0, c1, c2];
  }

  lemma SwapFirstTwo(s: seq<ListHead>)
    requires |s| == 3
    ensures multiset(s) == multiset([s[1], s[0], s[2]])
  {
    assert s == [s[0], s[1], s[2]];
  }

  // The three cells in order of idx.
  lemma ThreeInOrder(list: ListHead, s: seq<ListHead>, s0: seq<ListHead>)
    requires ListOf(list, s, s0) && NeverFalling(s) && |s0| == 3
    requires s0[0].info.idx == 1 && s0[1].info.idx == 0 && s0[2].info.idx == 2
    requires s0[0].info.data16 == 0 && s0[1].info.data16 == 0 && s0[2].info.data16 == 0
    ensures list.next != null && list.next.next != null && FirstThree(list) == [(0, 0), (1, 0), (2, 0)]
  {
    var t := [s0[1], s0[0], s0[2]];
    SwapFirstTwo(s0);
    RisingOrderIsUnique(t, s);
    assert s[0].next == s[1] && s[1].next == s[2];
  }

  method RunOnThree(list0: ListHead, findNum: int, finderIdx: int, ghost s0: seq<ListHead>) returns (list: ListHead)
    requires IsList(list0, s0) && NoRepeats(multiset(s0)) && |s0| == 3
    requires s0[0].info.idx == 1 && s0[1].info.idx == 0 && s0[2].info.idx == 2
    requires s0[0].info.data16 == 1 && s0[1].info.data16 == 0 && s0[2].info.data16 == 0
    modifies (set x | x in s0), InfosOf(s0)`data16
    ensures list.next != null && list.next.next != null && FirstThree(list) == [(0, 0), (1, 0), (2, 0)]
  {
    assert Regenerate(0) == Regenerate(1) == 0;
    ghost var a, b, c := s0[0], s0[1], s0[2];
    assert a in s0 && b in s0 && c in s0;
    hide *;
    ghost var s;
    list, s := BenchList(list0, findNum, finderIdx, s0);
    ThreeInOrder(list, s, s0);
  }

  /** A list that does not come back: neither its order nor the data of its first cell. */
  method FailingList(findNum: int, finderIdx: int) returns (before: seq<(int, nat)>, after: seq<(int, nat)>)
    ensures before == [(1, 1), (0, 0), (2, 0)] && after == [(0, 0), (1, 0), (2, 0)]
  {
    var list;
    ghost var s;
    list, s := ThreeCells();
    before := FirstThree(list);
    assert forall d :: d in InfosOf(s) ==> fresh(d);
    list := RunOnThree(list, findNum, finderIdx, s);
    after := FirstThree(list);
  }
}
