/**
 CoreMark's linked list (am-kernels/benchmarks/coremark/src/core_list_join.c): the bottom-up merge sort on
 `next` pointers and the comparison functions it calls.
 */
module CoremarkList {
  /** list_data.  data16 is the bit pattern of the 16-bit field. */
  class ListData {
    var data16: nat
    var idx: int

    constructor (data16: nat, idx: int)
      ensures this.data16 == data16 && this.idx == idx
    {
      this.data16, this.idx := data16, idx;
    }
  }

  /** list_head */
  class ListHead {
    var next: ListHead?
    var info: ListData

    constructor (info: ListData)
      ensures this.info == info && next == null
    {
      this.info, next := info, null;
    }
  }

  /* ---- the comparison functions ---- */

  /** (data & 0xff00) | (0x00ff & (data >> 8)): the backup in the upper byte replaces the lower one. */
  function Regenerate(d: nat): nat { (d / 256) * 256 + (d / 256) % 256 }

  function Upper(d: nat): nat { d / 256 }

  lemma RegenerateTwice(d: nat)
    ensures Regenerate(Regenerate(d)) == Regenerate(d) && Upper(Regenerate(d)) == Upper(d)
  {
    assert (d / 256 * 256 + d / 256 % 256) / 256 == d / 256;
  }

  // cmp_idx with and without a results record, cmp_complex, and any other function a caller may pass
  datatype Order = ByIdx(regen: bool) | ByData | ByAny

  // The flag that says the lower bits of data16 are a result already computed.
  predicate Cached(d: nat) { (d / 128) % 2 == 1 }

  /** calc_func.  What core_bench_state and core_bench_matrix compute is left open. */
  method CalcFunc(a: ListData) returns (retval: nat)
    modifies a`data16
    ensures retval < 128 && Upper(a.data16) == Upper(old(a.data16))
    ensures Cached(old(a.data16)) ==> a.data16 == old(a.data16)
    ensures old(a.data16) % 8 >= 2 ==> retval == old(a.data16) % 128
    ensures Cached(a.data16) && a.data16 % 128 == retval
  {
    var data := a.data16;
    if (data / 128) % 2 == 1 {
      return data % 128;
    }
    if data % 8 < 2 {
      retval :| 0 <= retval < 128;
    } else {
      retval := data % 128;
    }
    a.data16 := (data / 256) * 256 + 128 + retval;
    Marked(data / 256, retval);
  }

  // A word with upper byte u, the cached flag and the low bits r.
  lemma Marked(u: nat, r: nat)
    requires r < 128
    ensures var d := u * 256 + 128 + r; Upper(d) == u && Cached(d) && d % 128 == r
  {
    assert u * 256 + 128 + r == (u * 2 + 1) * 128 + r;
  }

  /** The comparison the sort was given.  Of a function that is not in this file nothing is known: it may answer
      anything and leave anything in the data it is shown. */
  method Compare(order: Order, a: ListData, b: ListData) returns (c: int)
    modifies a`data16, b`data16
    ensures !order.ByAny? ==> Upper(a.data16) == Upper(old(a.data16)) && Upper(b.data16) == Upper(old(b.data16))
    ensures order.ByIdx? ==> c == a.idx - b.idx
    ensures order.ByData? ==> c == a.data16 % 128 - b.data16 % 128 && Cached(a.data16) && Cached(b.data16)
    ensures order.ByData? && Cached(old(a.data16)) ==> a.data16 == old(a.data16)
    ensures order.ByData? && Cached(old(b.data16)) ==> b.data16 == old(b.data16)
    ensures order == ByIdx(true) ==> a.data16 == Regenerate(old(a.data16)) && b.data16 == Regenerate(old(b.data16))
    ensures order == ByIdx(true) ==> a.data16 == Regenerate(a.data16) && b.data16 == Regenerate(b.data16)
    ensures order == ByIdx(false) ==> a.data16 == old(a.data16) && b.data16 == old(b.data16)
  {
    RegenerateTwice(a.data16);
    RegenerateTwice(b.data16);
    hide Regenerate, Upper, Cached;
    match order {
      case ByAny =>
        a.data16 := *;
        b.data16 := *;
        c := *;
      case ByData =>
        var val1 := CalcFunc(a);
        var val2 := CalcFunc(b);
        c := val1 as int - val2 as int;
      case ByIdx(regen) =>
        if regen {
          a.data16 := Regenerate(a.data16);
          b.data16 := Regenerate(b.data16);
        }
        c := a.idx - b.idx;
    }
  }

  /* ---- lists as sequences of cells ---- */

  /** Each cell but the last points to the next one. */
  ghost predicate Linked(s: seq<ListHead>)
    reads s`next
  {
    forall i {:trigger s[i].next} :: 0 <= i < |s| - 1 ==> s[i].next == s[i + 1]
  }

  /** The cells of a list, from its head to the end. */
  ghost predicate IsList(head: ListHead?, s: seq<ListHead>)
    reads s`next
  {
    Linked(s) && (if s == [] then head == null else head == s[0] && s[|s| - 1].next == null)
  }

  ghost predicate NoRepeats(m: multiset<ListHead>) {
    forall x :: x in m ==> m[x] <= 1
  }

  lemma Distinct(s: seq<ListHead>, i: nat, j: nat)
    requires NoRepeats(multiset(s)) && i < j < |s|
    ensures s[i] != s[j]
  {
    assert s == s[..j] + [s[j]] + s[j + 1..];
    assert s[..j][i] == s[i] && s[i] in multiset(s[..j]) && s[i] in multiset(s);
    assert multiset(s) == multiset(s[..j]) + multiset{s[j]} + multiset(s[j + 1..]);
  }

  /* ---- sorted runs ---- */

  /** The answer of Cells and Merging, which the proofs of the merge carry around closed: a boolean predicate is
      spelled out wherever a contract mentions it, these two only where their bodies are needed. */
  datatype Fact = Holds | Fails

  /** What the sort may assume: the comparison, the place each cell started from, and the cells and data it
      works on. */
  datatype Keys = Keys(order: Order, pos: map<ListHead, int>, cells: set<ListHead>, infos: set<ListData>)

  /** The cells that have been compared, with the value each one counted for. */
  type Compared = map<ListHead, int>

  ghost predicate Extends(seen: Compared, seen': Compared) {
    forall x :: x in seen ==> x in seen' && seen[x] == seen'[x]
  }

  ghost predicate Less(k: Keys, seen: Compared, a: ListHead, b: ListHead) {
    && a in seen && b in seen && a in k.pos && b in k.pos
    && (seen[a] < seen[b] || (seen[a] == seen[b] && k.pos[a] < k.pos[b]))
  }

  // Every cell of a started before every cell of b.
  ghost predicate Before(k: Keys, a: seq<ListHead>, b: seq<ListHead>)
  {
    forall x, y :: x in a && y in b ==> x in k.pos && y in k.pos && k.pos[x] < k.pos[y]
  }

  ghost predicate Sorted(k: Keys, seen: Compared, s: seq<ListHead>) {
    forall i, j :: 0 <= i < j < |s| ==> Less(k, seen, s[i], s[j])
  }

  /** A run the sort has finished: in order, if the comparison is one of this file's, and with every cell compared
      at least once, unless it is a single cell. */
  ghost predicate Run(k: Keys, seen: Compared, s: seq<ListHead>) {
    && (!k.order.ByAny? ==> Sorted(k, seen, s))
    && (|s| >= 2 ==> forall x :: x in s ==> x in seen)
  }

  // The first w cells of s, or all of it.
  function Reach(s: seq<ListHead>, w: nat): nat { if w < |s| then w else |s| }

  /** s is cut into runs of w cells, the last one possibly shorter, in the order they started in. */
  ghost predicate InRuns(k: Keys, seen: Compared, w: nat, s: seq<ListHead>)
    requires w > 0
  {
    s != [] ==>
      var n := Reach(s, w);
      Run(k, seen, s[..n]) && Before(k, s[..n], s[n..]) && InRuns(k, seen, w, s[n..])
  }

  predicate Full(s: seq<ListHead>, w: nat)
    requires w > 0
  {
    s == [] || (|s| >= w && Full(s[w..], w))
  }

  /* ---- one merge ---- */

  // What comparing x has left behind, if it counted for key.
  predicate Settled(order: Order, x: ListData, key: int)
    reads x
  {
    && (order.ByIdx? ==> key == x.idx)
    && (order.ByData? ==> Cached(x.data16) && key == x.data16 % 128)
    && (order == ByIdx(true) ==> x.data16 == Regenerate(x.data16))
  }

  /** What a merge leaves alone and what it may rely on. */
  ghost predicate Context(k: Keys, all: multiset<ListHead>, seen: Compared)
    reads k.cells`info, k.infos
  {
    && NoRepeats(all)
    && (forall x :: x in all ==> x in k.cells && x.info in k.infos && x in k.pos)
    && (forall x :: x in seen && x in all ==> Settled(k.order, x.info, seen[x]))
  }

  // The value a cell just compared counts for.
  function KeyOf(order: Order, x: ListData): int
    reads x
  {
    if order.ByData? then x.data16 % 128 else x.idx
  }

  // p and q have been compared, if they had not been before.
  ghost function Recorded(order: Order, seen: Compared, p: ListHead, q: ListHead): Compared
    reads p`info, q`info, p.info, q.info
  {
    map[p := KeyOf(order, p.info), q := KeyOf(order, q.info)] + seen
  }

  lemma Records(order: Order, seen: Compared, p: ListHead, q: ListHead)
    ensures var seen' := Recorded(order, seen, p, q);
            && Extends(seen, seen') && p in seen' && q in seen'
            && forall x :: x in seen' && x !in seen ==> (x == p || x == q) && seen'[x] == KeyOf(order, x.info)
  {
  }

  /** One comparison.  What a cell counted for when it was first compared it counts for ever after. */
  method CompareCells(order: Order, ghost k: Keys, p: ListHead, q: ListHead, ghost all: multiset<ListHead>,
                      ghost seen: Compared)
    returns (c: int, ghost seen': Compared)
    requires k.order == order && Context(k, all, seen) && p in all && q in all
    modifies k.infos`data16
    ensures Context(k, all, seen') && Extends(seen, seen') && Uppers(k)
    ensures p in seen' && q in seen' && (!k.order.ByAny? ==> (c <= 0 <==> seen'[p] <= seen'[q]))
  {
    c := Compare(order, p.info, q.info);
    seen' := Recorded(order, seen, p, q);
    Records(order, seen, p, q);
    hide Regenerate, Upper, Cached, Recorded, KeyOf;
    forall x: ListHead | x in seen' && x in all ensures Settled(order, x.info, seen'[x]) {
      if x in seen {
        assert old(Settled(order, x.info, seen[x]));
        SettledKept(x.info, order, p.info, q.info, seen[x]);
      } else {
        JustSettled(order, x.info);
      }
    }
    SettledKey(order, p.info, seen'[p]);
    SettledKey(order, q.info, seen'[q]);
  }

  lemma SettledKey(order: Order, x: ListData, key: int)
    requires Settled(order, x, key)
    ensures !order.ByAny? ==> key == KeyOf(order, x)
  {
  }

  // Comparing p and q leaves alone what has been compared before.
  twostate lemma SettledKept(x: ListData, new order: Order, new p: ListData, new q: ListData, new key: int)
    requires old(Settled(order, x, key)) && x.idx == old(x.idx)
    requires x != p && x != q ==> x.data16 == old(x.data16)
    requires order == ByIdx(false) || (order.ByData? && old(Cached(x.data16))) ==> x.data16 == old(x.data16)
    requires order == ByIdx(true) && (x == p || x == q) ==> x.data16 == Regenerate(old(x.data16))
    ensures Settled(order, x, key)
  {
    RegenerateTwice(old(x.data16));
    hide Regenerate, Cached;
  }

  lemma JustSettled(order: Order, x: ListData)
    requires order.ByData? ==> Cached(x.data16)
    requires order == ByIdx(true) ==> x.data16 == Regenerate(x.data16)
    ensures Settled(order, x, KeyOf(order, x))
  {
  }

  /** The three-way choice of the merge loop. */
  method ChooseP(order: Order, ghost k: Keys, p: ListHead?, psize: nat, q: ListHead?, qsize: nat,
                 ghost all: multiset<ListHead>, ghost seen: Compared)
    returns (fromP: bool, ghost seen': Compared)
    requires k.order == order && Context(k, all, seen)
    requires (psize > 0 ==> p != null && p in all) && (q != null ==> q in all)
    requires psize > 0 || (qsize > 0 && q != null)
    modifies k.infos`data16
    ensures Context(k, all, seen') && Extends(seen, seen')
    ensures fromP ==> psize > 0
    ensures !fromP ==> qsize > 0 && q != null
    ensures psize > 0 && qsize > 0 && q != null ==>
              p in seen' && q in seen' && (!k.order.ByAny? ==> (fromP <==> seen'[p] <= seen'[q]))
    ensures Uppers(k)
  {
    seen' := seen;
    if psize == 0 {
      fromP := false;
    } else if qsize == 0 || q == null {
      fromP := true;
    } else {
      var c;
      c, seen' := CompareCells(order, k, p, q, all, seen);
      fromP := c <= 0;
    }
  }

  /** The comparisons of this file never touch the upper byte of a data16, and one writes nothing at all. */
  twostate predicate Uppers(k: Keys)
    reads k.infos
  {
    forall d: ListData :: d in k.infos && !k.order.ByAny? ==>
      Upper(d.data16) == Upper(old(d.data16)) && (k.order == ByIdx(false) ==> d.data16 == old(d.data16))
  }

  /** Link e behind the cells merged so far. */
  method Append(list: ListHead?, tail: ListHead?, e: ListHead, ghost o: seq<ListHead>)
    returns (list': ListHead, tail': ListHead)
    requires Linked(o) && NoRepeats(multiset(o))
    requires if o == [] then tail == null else list == o[0] && tail == o[|o| - 1]
    modifies (if tail == null then {} else {tail})`next
    ensures Linked(o + [e]) && list' == (o + [e])[0] && tail' == e
  {
    list' := e;
    if tail != null {
      forall i | 0 <= i < |o| - 1 ensures o[i] != tail {
        Distinct(o, i, |o| - 1);
      }
      tail.next := e;
      list' := list;
    }
    tail' := e;
  }

  ghost predicate AllLess(k: Keys, seen: Compared, a: seq<ListHead>, b: seq<ListHead>) {
    forall x, y :: x in a && y in b ==> Less(k, seen, x, y)
  }

  ghost predicate Known(k: Keys, s: seq<ListHead>) {
    forall x :: x in s ==> x in k.pos
  }

  /** In an ordered merge everything taken comes before everything left, on either side. */
  ghost predicate InOrder(k: Keys, seen: Compared, m: seq<ListHead>, p: seq<ListHead>, q: seq<ListHead>) {
    && Known(k, p) && Known(k, q) && Sorted(k, seen, m) && Sorted(k, seen, p) && Sorted(k, seen, q)
    && AllLess(k, seen, m, p) && AllLess(k, seen, m, q) && Before(k, p, q)
  }

  lemma SortedAppend(k: Keys, seen: Compared, m: seq<ListHead>, e: ListHead)
    requires Sorted(k, seen, m) && AllLess(k, seen, m, [e])
    ensures Sorted(k, seen, m + [e])
  {
    assert e in [e];
    forall i | 0 <= i < |m| ensures Less(k, seen, m[i], e) {
      assert m[i] in m;
    }
  }

  // e, known to be less than the first cell of s, is less than all of it.
  lemma LessThanAll(k: Keys, seen: Compared, e: ListHead, s: seq<ListHead>)
    requires Sorted(k, seen, s) && (s != [] ==> Less(k, seen, e, s[0]))
    ensures AllLess(k, seen, [e], s)
  {
    forall y | y in s ensures Less(k, seen, e, y) {
      var j :| 0 <= j < |s| && s[j] == y;
      if j > 0 {
        assert Less(k, seen, s[0], s[j]);
      }
    }
  }

  lemma AllLessJoin(k: Keys, seen: Compared, m: seq<ListHead>, e: ListHead, s: seq<ListHead>)
    requires AllLess(k, seen, m, s) && AllLess(k, seen, [e], s)
    ensures AllLess(k, seen, m + [e], s)
  {
    assert e in [e];
  }

  lemma HeadOfSorted(k: Keys, seen: Compared, s: seq<ListHead>)
    requires Sorted(k, seen, s) && s != []
    ensures Sorted(k, seen, s[1..]) && AllLess(k, seen, [s[0]], s[1..])
  {
    LessThanAll(k, seen, s[0], s[1..]);
  }

  lemma TakeP(k: Keys, seen: Compared, m: seq<ListHead>, p: seq<ListHead>, q: seq<ListHead>)
    requires InOrder(k, seen, m, p, q) && p != []
    requires q != [] ==> p[0] in seen && q[0] in seen && seen[p[0]] <= seen[q[0]]
    ensures InOrder(k, seen, m + [p[0]], p[1..], q)
  {
    var e := p[0];
    assert e in p;
    SortedAppend(k, seen, m, e);
    HeadOfSorted(k, seen, p);
    AllLessJoin(k, seen, m, e, p[1..]);
    if q != [] {
      assert q[0] in q;
    }
    LessThanAll(k, seen, e, q);
    AllLessJoin(k, seen, m, e, q);
  }

  lemma TakeQ(k: Keys, seen: Compared, m: seq<ListHead>, p: seq<ListHead>, q: seq<ListHead>)
    requires InOrder(k, seen, m, p, q) && q != []
    requires p != [] ==> p[0] in seen && q[0] in seen && seen[q[0]] < seen[p[0]]
    ensures InOrder(k, seen, m + [q[0]], p, q[1..])
  {
    var e := q[0];
    assert e in q;
    SortedAppend(k, seen, m, e);
    HeadOfSorted(k, seen, q);
    AllLessJoin(k, seen, m, e, q[1..]);
    if p != [] {
      assert p[0] in p;
    }
    LessThanAll(k, seen, e, p);
    AllLessJoin(k, seen, m, e, p);
  }

  // What has been compared stays so.
  lemma SortedSees(k: Keys, seen: Compared, seen': Compared, s: seq<ListHead>)
    requires Sorted(k, seen, s) && Extends(seen, seen')
    ensures Sorted(k, seen', s)
  {
  }

  lemma AllLessSees(k: Keys, seen: Compared, seen': Compared, a: seq<ListHead>, b: seq<ListHead>)
    requires AllLess(k, seen, a, b) && Extends(seen, seen')
    ensures AllLess(k, seen', a, b)
  {
  }

  lemma InOrderSees(k: Keys, seen: Compared, seen': Compared, m: seq<ListHead>, p: seq<ListHead>, q: seq<ListHead>)
    requires InOrder(k, seen, m, p, q) && Extends(seen, seen')
    ensures InOrder(k, seen', m, p, q)
  {
    SortedSees(k, seen, seen', m);
    SortedSees(k, seen, seen', p);
    SortedSees(k, seen, seen', q);
    AllLessSees(k, seen, seen', m, p);
    AllLessSees(k, seen, seen', m, q);
  }

  /** Where a merge stands: o has been linked up from list to tail, ps is left of the first run and qs of
      everything after it; together they are all the cells. */
  ghost function Cells(all: multiset<ListHead>, list: ListHead?, tail: ListHead?, p: ListHead?, q: ListHead?,
                        o: seq<ListHead>, ps: seq<ListHead>, qs: seq<ListHead>): Fact
    reads all`next
  {
    if (
      && NoRepeats(all) && multiset(o) + multiset(ps) + multiset(qs) == all
      && (forall x :: x in o + ps + qs ==> x in all)
      && Linked(o) && (if o == [] then tail == null else list == o[0] && tail == o[|o| - 1])
      && Linked(ps) && (ps != [] ==> p == ps[0]) && IsList(q, qs)
    ) then Holds else Fails
  }

  lemma Split(all: multiset<ListHead>, o: seq<ListHead>, ps: seq<ListHead>, qs: seq<ListHead>)
    requires NoRepeats(all) && multiset(o) + multiset(ps) + multiset(qs) == all
    ensures NoRepeats(multiset(o))
    ensures forall x :: x in o ==> x in all && x !in ps && x !in qs
    ensures forall x :: x in ps ==> x in all && x !in qs
    ensures forall x :: x in qs ==> x in all
  {
    forall x | x in all ensures !(x in o && x in ps) && !(x in o && x in qs) && !(x in ps && x in qs) {
      assert multiset(o)[x] + multiset(ps)[x] + multiset(qs)[x] == all[x] <= 1;
    }
    forall x | x in multiset(o) ensures multiset(o)[x] <= 1 {
      assert x in all && multiset(o)[x] <= all[x];
    }
  }

  method MoveP(list: ListHead?, tail: ListHead?, p: ListHead?, ghost q: ListHead?, ghost all: multiset<ListHead>,
               ghost o: seq<ListHead>, ghost ps: seq<ListHead>, ghost qs: seq<ListHead>)
    returns (list': ListHead, tail': ListHead, p': ListHead?)
    requires Cells(all, list, tail, p, q, o, ps, qs).Holds? && ps != []
    modifies (if tail == null then {} else {tail})`next
    ensures Cells(all, list', tail', p', q, o + [ps[0]], ps[1..], qs).Holds?
  {
    Split(all, o, ps, qs);
    p' := p.next;
    ghost var e, rest := ps[0], ps[1..];
    assert ps == [e] + rest;
    LinkedTail(ps);
    assert e in ps;
    assert tail != null ==> tail in o;
    list', tail' := Append(list, tail, p, o);
    assert Linked(rest) && IsList(q, qs) by {
      assert forall x :: x in rest ==> x in ps;
      assert forall x :: x in rest || x in qs ==> x != tail;
      LinkedKept(rest);
      LinkedKept(qs);
    }
  }

  lemma LinkedTail(s: seq<ListHead>)
    requires Linked(s) && s != []
    ensures Linked(s[1..]) && (|s| > 1 ==> s[0].next == s[1])
  {
    forall i {:trigger s[1..][i].next} | 0 <= i < |s[1..]| - 1 ensures s[1..][i].next == s[1..][i + 1] {
      assert s[i + 1].next == s[i + 2];
    }
  }

  // Cells that were not written are linked as before.
  twostate lemma LinkedKept(s: seq<ListHead>)
    requires old(Linked(s)) && forall x :: x in s ==> x.next == old(x.next)
    ensures Linked(s)
  {
    forall i {:trigger s[i].next} | 0 <= i < |s| - 1 ensures s[i].next == s[i + 1] {
      assert s[i] in s && old(s[i].next) == s[i + 1];
    }
  }

  method MoveQ(list: ListHead?, tail: ListHead?, ghost p: ListHead?, q: ListHead?, ghost all: multiset<ListHead>,
               ghost o: seq<ListHead>, ghost ps: seq<ListHead>, ghost qs: seq<ListHead>)
    returns (list': ListHead, tail': ListHead, q': ListHead?)
    requires Cells(all, list, tail, p, q, o, ps, qs).Holds? && qs != []
    modifies (if tail == null then {} else {tail})`next
    ensures Cells(all, list', tail', p, q', o + [qs[0]], ps, qs[1..]).Holds?
  {
    Split(all, o, ps, qs);
    q' := q.next;
    ghost var e, rest := qs[0], qs[1..];
    assert qs == [e] + rest;
    LinkedTail(qs);
    assert e in qs;
    assert tail != null ==> tail in o;
    assert IsList(q', rest);
    list', tail' := Append(list, tail, q, o);
    assert Linked(ps) && IsList(q', rest) by {
      assert forall x :: x in rest ==> x in qs;
      assert forall x :: x in ps || x in rest ==> x != tail;
      LinkedKept(ps);
      LinkedKept(rest);
    }
  }

  /** A merge under way: m has been taken from the runs ps0 and qs0[..t], ps and the first cells of qs
      are left. */
  datatype Merge = Merge(m: seq<ListHead>, ps: seq<ListHead>, qs: seq<ListHead>,
                         ps0: seq<ListHead>, qs0: seq<ListHead>, t: nat)

  // What may still be taken from the second run.
  function Second(g: Merge, qsize: nat): seq<ListHead> { g.qs[..Reach(g.qs, qsize)] }

  ghost function Merging(k: Keys, g: Merge, qsize: nat, seen: Compared): Fact
  {
    if (
      && |g.qs| <= |g.qs0| && g.t <= |g.qs0| && g.qs == g.qs0[|g.qs0| - |g.qs|..]
      && Reach(g.qs, qsize) == g.t - (|g.qs0| - |g.qs|)
      && multiset(g.m) + multiset(g.ps) + multiset(Second(g, qsize)) == multiset(g.ps0) + multiset(g.qs0[..g.t])
      && (!k.order.ByAny? ==> InOrder(k, seen, g.m, g.ps, Second(g, qsize)))
      && g.ps0 != [] && (g.m == [] ==> g.ps == g.ps0 && g.qs == g.qs0)
      && (g.m != [] && g.t > 0 ==> g.ps0[0] in seen && g.qs0[0] in seen)
    ) then Holds else Fails
  }

  /** What the three-way choice has established when it settles on p or on q. */
  ghost predicate Chosen(k: Keys, g: Merge, qsize: nat, fromP: bool, seen: Compared)
  {
    var a := Second(g, qsize);
    && (if fromP then g.ps != [] else a != [])
    && (g.ps != [] && a != [] ==>
          g.ps[0] in seen && g.qs[0] in seen &&
          (!k.order.ByAny? ==> (fromP <==> seen[g.ps[0]] <= seen[g.qs[0]])))
  }

  lemma MergingTakesP(k: Keys, o: seq<ListHead>, g: Merge, qsize: nat, seen: Compared) returns (g': Merge)
    requires Merging(k, g, qsize, seen).Holds? && Chosen(k, g, qsize, true, seen)
    ensures g.ps != [] && o + g'.m == o + g.m + [g.ps[0]] && g'.ps == g.ps[1..] && g'.qs == g.qs
    ensures g'.ps0 == g.ps0 && g'.qs0 == g.qs0 && g'.t == g.t && Merging(k, g', qsize, seen).Holds?
  {
    var a := Second(g, qsize);
    var e, rest := g.ps[0], g.ps[1..];
    g' := g.(m := g.m + [e], ps := rest);
    assert Second(g', qsize) == a;
    hide *;
    Regroup(o, g.m, e);
    TakeOne(g.m, g.ps, a);
    if !k.order.ByAny? {
      TakeP(k, seen, g.m, g.ps, a);
    }
  }

  lemma Regroup(o: seq<ListHead>, m: seq<ListHead>, e: ListHead)
    ensures o + (m + [e]) == o + m + [e]
  {
  }

  lemma MergingTakesQ(k: Keys, o: seq<ListHead>, g: Merge, qsize: nat, seen: Compared) returns (g': Merge)
    requires Merging(k, g, qsize, seen).Holds? && Chosen(k, g, qsize, false, seen)
    ensures qsize > 0 && g.qs != [] && o + g'.m == o + g.m + [g.qs[0]] && g'.ps == g.ps && g'.qs == g.qs[1..]
    ensures g'.ps0 == g.ps0 && g'.qs0 == g.qs0 && g'.t == g.t && Merging(k, g', qsize - 1, seen).Holds?
  {
    var a := Second(g, qsize);
    Regroup(o, g.m, g.qs[0]);
    g' := g.(m := g.m + [g.qs[0]], qs := g.qs[1..]);
    assert a[0] == g.qs[0] && Second(g', qsize - 1) == a[1..];
    assert g.qs[1..] == g.qs0[|g.qs0| - |g.qs| + 1..];
    TakeOne(g.m, a, g.ps);
    if !k.order.ByAny? {
      TakeQ(k, seen, g.m, g.ps, a);
    }
  }

  lemma Chooses(k: Keys, g: Merge, qsize: nat, fromP: bool, seen: Compared)
    requires fromP ==> g.ps != []
    requires !fromP ==> qsize > 0 && g.qs != []
    requires g.ps != [] && qsize > 0 && g.qs != [] ==>
               g.ps[0] in seen && g.qs[0] in seen &&
               (!k.order.ByAny? ==> (fromP <==> seen[g.ps[0]] <= seen[g.qs[0]]))
    ensures Chosen(k, g, qsize, fromP, seen)
  {
  }

  /** Where the merge loop stands between two turns. */
  ghost predicate Stage(k: Keys, all: multiset<ListHead>, seen: Compared, lst: ListHead?, tl: ListHead?,
                        p: ListHead?, psize: nat, q: ListHead?, qsize: nat, o: seq<ListHead>, g: Merge)
    reads k.cells`info, k.infos, all`next
  {
    && Context(k, all, seen) && Cells(all, lst, tl, p, q, o + g.m, g.ps, g.qs).Holds?
    && psize == |g.ps| && Merging(k, g, qsize, seen).Holds?
  }

  method Decide(order: Order, ghost k: Keys, ghost all: multiset<ListHead>, ghost seen0: Compared,
                ghost lst: ListHead?, ghost tl: ListHead?, p: ListHead?, psize: nat, q: ListHead?, qsize: nat,
                ghost o: seq<ListHead>, ghost g: Merge)
    returns (fromP: bool, ghost seen: Compared)
    requires k.order == order && Stage(k, all, seen0, lst, tl, p, psize, q, qsize, o, g)
    requires psize > 0 || (qsize > 0 && q != null)
    modifies k.infos`data16
    ensures Stage(k, all, seen, lst, tl, p, psize, q, qsize, o, g) && Extends(seen0, seen) && Uppers(k)
    ensures Chosen(k, g, qsize, fromP, seen)
  {
    hide Context, Cells, Merging, Chosen;
    MergeMembers(all, lst, tl, p, q, o + g.m, g.ps, g.qs);
    fromP, seen := ChooseP(order, k, p, psize, q, qsize, all, seen0);
    Chooses(k, g, qsize, fromP, seen);
    MergingSees(k, g, qsize, seen0, seen);
  }

  lemma MergingSees(k: Keys, g: Merge, qsize: nat, seen: Compared, seen': Compared)
    requires Merging(k, g, qsize, seen).Holds? && Extends(seen, seen')
    ensures Merging(k, g, qsize, seen').Holds?
  {
    if !k.order.ByAny? {
      InOrderSees(k, seen, seen', g.m, g.ps, Second(g, qsize));
    }
  }

  /** e comes from p. */
  method StepP(ghost k: Keys, ghost all: multiset<ListHead>, ghost seen: Compared,
               lst0: ListHead?, tl0: ListHead?, p0: ListHead?, psize0: nat, ghost q: ListHead?, ghost qsize: nat,
               ghost o: seq<ListHead>, ghost g0: Merge)
    returns (lst: ListHead?, tl: ListHead?, p: ListHead?, psize: nat, ghost g: Merge)
    requires Stage(k, all, seen, lst0, tl0, p0, psize0, q, qsize, o, g0) && Chosen(k, g0, qsize, true, seen)
    modifies k.cells`next
    ensures Stage(k, all, seen, lst, tl, p, psize, q, qsize, o, g)
    ensures g.ps0 == g0.ps0 && g.qs0 == g0.qs0 && g.t == g0.t && g.qs == g0.qs && psize == psize0 - 1
  {
    hide Context, Cells, Merging, Chosen;
    MergeMembers(all, lst0, tl0, p0, q, o + g0.m, g0.ps, g0.qs);
    g := MergingTakesP(k, o, g0, qsize, seen);
    InContext(k, all, seen, tl0);
    psize := psize0 - 1;
    lst, tl, p := MoveP(lst0, tl0, p0, q, all, o + g0.m, g0.ps, g0.qs);
  }

  /** e comes from q. */
  method StepQ(ghost k: Keys, ghost all: multiset<ListHead>, ghost seen: Compared,
               lst0: ListHead?, tl0: ListHead?, ghost p: ListHead?, ghost psize: nat, q0: ListHead?, qsize0: nat,
               ghost o: seq<ListHead>, ghost g0: Merge)
    returns (lst: ListHead?, tl: ListHead?, q: ListHead?, qsize: nat, ghost g: Merge)
    requires Stage(k, all, seen, lst0, tl0, p, psize, q0, qsize0, o, g0) && Chosen(k, g0, qsize0, false, seen)
    modifies k.cells`next
    ensures Stage(k, all, seen, lst, tl, p, psize, q, qsize, o, g)
    ensures g.ps0 == g0.ps0 && g.qs0 == g0.qs0 && g.t == g0.t && |g.qs| == |g0.qs| - 1
  {
    hide Context, Cells, Merging, Chosen;
    MergeMembers(all, lst0, tl0, p, q0, o + g0.m, g0.ps, g0.qs);
    g := MergingTakesQ(k, o, g0, qsize0, seen);
    InContext(k, all, seen, tl0);
    qsize := qsize0 - 1;
    lst, tl, q := MoveQ(lst0, tl0, p, q0, all, o + g0.m, g0.ps, g0.qs);
  }

  /** One turn of the merge loop. */
  method MergeStep(order: Order, ghost k: Keys, ghost all: multiset<ListHead>, ghost seen0: Compared,
                   lst0: ListHead?, tl0: ListHead?, p0: ListHead?, psize0: nat, q0: ListHead?, qsize0: nat,
                   ghost o: seq<ListHead>, ghost g0: Merge)
    returns (ghost seen: Compared, lst: ListHead?, tl: ListHead?, p: ListHead?, psize: nat,
             q: ListHead?, qsize: nat, ghost g: Merge)
    requires k.order == order && Stage(k, all, seen0, lst0, tl0, p0, psize0, q0, qsize0, o, g0)
    requires psize0 > 0 || (qsize0 > 0 && q0 != null)
    modifies k.cells`next, k.infos`data16
    ensures Stage(k, all, seen, lst, tl, p, psize, q, qsize, o, g) && Extends(seen0, seen) && Uppers(k)
    ensures g.ps0 == g0.ps0 && g.qs0 == g0.qs0 && g.t == g0.t && psize + |g.qs| < psize0 + |g0.qs|
  {
    hide Context, Cells, Merging, Chosen;
    p, psize, q, qsize := p0, psize0, q0, qsize0;
    var fromP: bool;
    fromP, seen := Decide(order, k, all, seen0, lst0, tl0, p0, psize0, q0, qsize0, o, g0);
    if fromP {
      lst, tl, p, psize, g := StepP(k, all, seen, lst0, tl0, p0, psize0, q0, qsize0, o, g0);
    } else {
      lst, tl, q, qsize, g := StepQ(k, all, seen, lst0, tl0, p0, psize0, q0, qsize0, o, g0);
    }
  }

  /** The merge loop: psize cells from p on and up to qsize cells from q on become one run at the end of
      the list. */
  method MergeRuns(order: Order, ghost k: Keys, ghost all: multiset<ListHead>, ghost seen0: Compared,
                   list0: ListHead?, tail0: ListHead?, p0: ListHead, psize0: nat, q0: ListHead?, qsize0: nat,
                   ghost o: seq<ListHead>, ghost ps0: seq<ListHead>, ghost qs0: seq<ListHead>)
    returns (lst: ListHead?, tl: ListHead?, q: ListHead?, ghost m: seq<ListHead>, ghost seen: Compared)
    requires k.order == order && Context(k, all, seen0)
    requires Cells(all, list0, tail0, p0, q0, o, ps0, qs0).Holds? && psize0 == |ps0| > 0
    requires var t := qs0[..Reach(qs0, qsize0)];
             Run(k, seen0, ps0) && Run(k, seen0, t) && Before(k, ps0, t)
    modifies k.cells`next, k.infos`data16
    ensures Context(k, all, seen) && Extends(seen0, seen) && Uppers(k)
    ensures var t := Reach(qs0, qsize0);
            && Cells(all, lst, tl, null, q, o + m, [], qs0[t..]).Holds?
            && multiset(m) == multiset(ps0) + multiset(qs0[..t]) && Run(k, seen, m)
  {
    hide Context, Cells, Merging, Chosen;
    lst, tl, q, seen := list0, tail0, q0, seen0;
    var p: ListHead?, psize: nat, qsize: nat := p0, psize0, qsize0;
    ghost var g := Merge([], ps0, qs0, ps0, qs0, Reach(qs0, qsize0));
    MergeStarts(k, all, seen, lst, tl, p, psize, q, qsize, o, g);
    while psize > 0 || (qsize > 0 && q != null)
      invariant Stage(k, all, seen, lst, tl, p, psize, q, qsize, o, g) && Extends(seen0, seen) && Uppers(k)
      invariant g.ps0 == ps0 && g.qs0 == qs0 && g.t == Reach(qs0, qsize0)
      decreases psize + |g.qs|
    {
      seen, lst, tl, p, psize, q, qsize, g := MergeStep(order, k, all, seen, lst, tl, p, psize, q, qsize, o, g);
    }
    m := g.m;
    MergeEnds(k, all, seen0, seen, lst, tl, p, psize, q, qsize, o, g);
  }

  lemma MergeStarts(k: Keys, all: multiset<ListHead>, seen: Compared, lst: ListHead?, tl: ListHead?,
                    p: ListHead, psize: nat, q: ListHead?, qsize: nat, o: seq<ListHead>, g: Merge)
    requires Context(k, all, seen) && Cells(all, lst, tl, p, q, o, g.ps, g.qs).Holds? && psize == |g.ps| > 0
    requires g.m == [] && g.ps == g.ps0 && g.qs == g.qs0 && g.t == Reach(g.qs, qsize)
    requires Run(k, seen, g.ps) && Run(k, seen, Second(g, qsize)) && Before(k, g.ps, Second(g, qsize))
    ensures Stage(k, all, seen, lst, tl, p, psize, q, qsize, o, g)
  {
    hide Context, Cells, Merging, Chosen;
    assert o + [] == o;
    ContextDomain(k, all, seen);
    CellsTotal(all, lst, tl, p, q, o, g.ps, g.qs);
    MergingStarts(k, all, o, g, qsize, seen);
  }

  lemma MergeEnds(k: Keys, all: multiset<ListHead>, seen0: Compared, seen: Compared, lst: ListHead?,
                  tl: ListHead?, p: ListHead?, psize: nat, q: ListHead?, qsize: nat, o: seq<ListHead>, g: Merge)
    requires Stage(k, all, seen, lst, tl, p, psize, q, qsize, o, g) && psize == 0 && (qsize == 0 || q == null)
    requires Extends(seen0, seen) && g.t <= |g.qs0| && Run(k, seen0, g.ps0) && Run(k, seen0, g.qs0[..g.t])
    ensures Context(k, all, seen) && Cells(all, lst, tl, null, q, o + g.m, [], g.qs0[g.t..]).Holds?
    ensures multiset(g.m) == multiset(g.ps0) + multiset(g.qs0[..g.t]) && Run(k, seen, g.m)
  {
    hide Context, Merging, Chosen;
    MergeMembers(all, lst, tl, p, q, o + g.m, g.ps, g.qs);
    MergingEnds(k, g, qsize, seen0, seen);
  }

  lemma MergingStarts(k: Keys, all: multiset<ListHead>, o: seq<ListHead>, g: Merge, qsize: nat, seen: Compared)
    requires multiset(o) + multiset(g.ps) + multiset(g.qs) == all && g.m == [] && g.ps == g.ps0 && g.qs == g.qs0
    requires forall x :: x in all ==> x in k.pos
    requires g.t == Reach(g.qs, qsize) && g.ps != []
    requires Run(k, seen, g.ps) && Run(k, seen, Second(g, qsize)) && Before(k, g.ps, Second(g, qsize))
    ensures Merging(k, g, qsize, seen).Holds?
  {
    hide Before, Less;
    assert forall x :: x in g.ps ==> x in multiset(g.ps) && x in all;
    assert forall x :: x in Second(g, qsize) ==> x in g.qs && x in multiset(g.qs) && x in all;
  }

  lemma MergingEnds(k: Keys, g: Merge, qsize: nat, seen0: Compared, seen: Compared)
    requires Merging(k, g, qsize, seen).Holds? && g.ps == [] && Second(g, qsize) == [] && Extends(seen0, seen)
    requires g.t <= |g.qs0| && Run(k, seen0, g.ps0) && Run(k, seen0, g.qs0[..g.t])
    ensures multiset(g.m) == multiset(g.ps0) + multiset(g.qs0[..g.t]) && g.qs == g.qs0[g.t..]
    ensures Run(k, seen, g.m)
  {
    assert g.m + g.ps == g.m;
    assert |multiset(g.m)| == |g.m| && |multiset(g.ps0)| == |g.ps0| && |multiset(g.qs0[..g.t])| == g.t;
    forall x | x in g.m && |g.m| >= 2 ensures x in seen {
      assert x in multiset(g.m);
      assert x in g.ps0 || x in g.qs0[..g.t];
      if |g.ps0| == 1 && x in g.ps0 {
        assert x == g.ps0[0] && g.t > 0;
      } else if g.t == 1 && x in g.qs0[..g.t] {
        assert x == g.qs0[0];
      }
    }
  }

  lemma TakeOne(m: seq<ListHead>, a: seq<ListHead>, b: seq<ListHead>)
    requires a != []
    ensures multiset(m + [a[0]]) + multiset(a[1..]) + multiset(b) == multiset(m) + multiset(a) + multiset(b)
    ensures multiset(m + [a[0]]) + multiset(b) + multiset(a[1..]) == multiset(m) + multiset(b) + multiset(a)
  {
    assert a == [a[0]] + a[1..];
  }

  lemma InContext(k: Keys, all: multiset<ListHead>, seen: Compared, x: ListHead?)
    requires Context(k, all, seen) && (x != null ==> x in all)
    ensures x != null ==> x in k.cells && x in k.pos
  {
  }

  lemma ContextDomain(k: Keys, all: multiset<ListHead>, seen: Compared)
    requires Context(k, all, seen)
    ensures NoRepeats(all) && forall x :: x in all ==> x in k.cells && x in k.pos
  {
  }

  lemma CellsTotal(all: multiset<ListHead>, list: ListHead?, tail: ListHead?, p: ListHead?, q: ListHead?,
                   o: seq<ListHead>, ps: seq<ListHead>, qs: seq<ListHead>)
    requires Cells(all, list, tail, p, q, o, ps, qs).Holds?
    ensures multiset(o) + multiset(ps) + multiset(qs) == all && NoRepeats(all)
  {
  }

  lemma MergeMembers(all: multiset<ListHead>, list: ListHead?, tail: ListHead?, p: ListHead?, q: ListHead?,
                     o: seq<ListHead>, ps: seq<ListHead>, qs: seq<ListHead>)
    requires Cells(all, list, tail, p, q, o, ps, qs).Holds?
    ensures ps != [] ==> p == ps[0] && p in all
    ensures q != null <==> qs != []
    ensures qs != [] ==> q == qs[0] && q in all
    ensures tail != null ==> tail in all
  {
    assert ps != [] ==> ps[0] in multiset(ps);
    assert qs != [] ==> qs[0] in multiset(qs);
    assert o != [] ==> o[|o| - 1] in multiset(o);
  }

  /* ---- one pass ---- */

  lemma RunSees(k: Keys, seen: Compared, seen': Compared, s: seq<ListHead>)
    requires Run(k, seen, s) && Extends(seen, seen')
    ensures Run(k, seen', s)
  {
    if !k.order.ByAny? {
      SortedSees(k, seen, seen', s);
    }
  }

  lemma {:induction false} InRunsSeen(k: Keys, seen: Compared, seen': Compared, w: nat, s: seq<ListHead>)
    requires w > 0 && InRuns(k, seen, w, s) && Extends(seen, seen')
    ensures InRuns(k, seen', w, s)
    decreases |s|
  {
    if s != [] {
      RunSees(k, seen, seen', s[..Reach(s, w)]);
      InRunsSeen(k, seen, seen', w, s[Reach(s, w)..]);
    }
  }

  lemma BeforePart(k: Keys, a: seq<ListHead>, b: seq<ListHead>, a': seq<ListHead>, b': seq<ListHead>)
    requires Before(k, a, b) && (forall x :: x in a' ==> x in a) && (forall y :: y in b' ==> y in b)
    ensures Before(k, a', b')
  {
  }

  lemma BeforeBoth(k: Keys, a: seq<ListHead>, b: seq<ListHead>, c: seq<ListHead>)
    ensures Before(k, a, c) && Before(k, b, c) <==> Before(k, a + b, c)
    ensures Before(k, a, b) && Before(k, a, c) <==> Before(k, a, b + c)
  {
    assert forall x :: x in a || x in b ==> x in a + b;
    assert forall x :: x in b || x in c ==> x in b + c;
  }

  lemma BeforeEmpty(k: Keys, a: seq<ListHead>, b: seq<ListHead>)
    requires a == [] || b == []
    ensures Before(k, a, b)
  {
  }

  lemma {:induction false} InRunsAppend(k: Keys, seen: Compared, w: nat, s: seq<ListHead>, m: seq<ListHead>)
    requires w > 0 && InRuns(k, seen, w, s) && Full(s, w)
    requires 0 < |m| <= w && Run(k, seen, m) && Before(k, s, m)
    ensures InRuns(k, seen, w, s + m) && (|m| == w ==> Full(s + m, w))
    decreases |s|
  {
    hide Run, Before;
    if s == [] {
      assert s + m == m && m[..|m|] == m;
      BeforeEmpty(k, m, m[|m|..]);
    } else {
      var h, r := s[..w], s[w..];
      assert h + r == s && (s + m)[..w] == h && (s + m)[w..] == r + m;
      BeforeBoth(k, h, r, m);
      InRunsAppend(k, seen, w, r, m);
    }
  }

  /** Half way through a pass: the runs of w cells in rest are still to be merged in pairs, those in out have
      been. */
  ghost predicate Halved(k: Keys, seen: Compared, w: nat, nmerges: nat, out: seq<ListHead>, rest: seq<ListHead>)
    requires w > 0
  {
    && InRuns(k, seen, w, rest) && InRuns(k, seen, 2 * w, out) && Before(k, out, rest)
    && (rest != [] ==> Full(out, 2 * w)) && (nmerges == 0 <==> out == [])
    && (nmerges == 1 ==> Run(k, seen, out)) && (nmerges >= 2 ==> |out| > 2 * w)
  }

  lemma FirstRun(k: Keys, seen: Compared, w: nat, h: seq<ListHead>, r: seq<ListHead>)
    requires w > 0 && InRuns(k, seen, w, h + r) && |h| == Reach(h + r, w) && h != []
    ensures Run(k, seen, h) && Before(k, h, r) && InRuns(k, seen, w, r)
  {
    hide Before, Run;
    assert (h + r)[..|h|] == h && (h + r)[|h|..] == r;
  }

  // The first two runs: h, and a if there is one.
  lemma NextRuns(k: Keys, seen: Compared, w: nat, h: seq<ListHead>, a: seq<ListHead>, b: seq<ListHead>)
    requires w > 0 && InRuns(k, seen, w, h + (a + b)) && |h| == Reach(h + (a + b), w) && h != []
    requires |a| == Reach(a + b, w)
    ensures Run(k, seen, h) && Run(k, seen, a) && InRuns(k, seen, w, b)
    ensures Before(k, h, a) && Before(k, h, b) && Before(k, a, b)
  {
    FirstRun(k, seen, w, h, a + b);
    if a == [] {
      assert a + b == b == [];
      BeforeEmpty(k, a, b);
    } else {
      FirstRun(k, seen, w, a, b);
    }
    hide Before, InRuns;
    BeforeBoth(k, h, a, b);
  }

  // m, merged from h and a, comes after out and before b.
  lemma MergedBetween(k: Keys, out: seq<ListHead>, h: seq<ListHead>, a: seq<ListHead>, b: seq<ListHead>,
                      m: seq<ListHead>)
    requires Before(k, out, h + (a + b)) && Before(k, h, b) && Before(k, a, b)
    requires multiset(m) == multiset(h) + multiset(a)
    ensures Before(k, out, m) && Before(k, out + m, b)
  {
    hide Before;
    MemberOf(m, h, a);
    BeforeBoth(k, out, h, a + b);
    BeforeBoth(k, out, a, b);
    BeforeBoth(k, out, h, a);
    BeforeBoth(k, h, a, b);
    BeforePart(k, out, h + a, out, m);
    BeforePart(k, h + a, b, m, b);
    BeforeBoth(k, out, m, b);
  }

  lemma MergedPair(k: Keys, seen: Compared, seen': Compared, w: nat, nmerges: nat, out: seq<ListHead>,
                   h: seq<ListHead>, a: seq<ListHead>, b: seq<ListHead>, m: seq<ListHead>)
    requires w > 0 && Halved(k, seen, w, nmerges, out, h + (a + b)) && h != [] && Extends(seen, seen')
    requires |h| == Reach(h + (a + b), w) && |a| == Reach(a + b, w)
    requires Run(k, seen', m) && multiset(m) == multiset(h) + multiset(a)
    ensures Halved(k, seen', w, nmerges + 1, out + m, b)
  {
    hide Before, Run, InRuns;
    NextRuns(k, seen, w, h, a, b);
    InRunsSeen(k, seen, seen', w, b);
    InRunsSeen(k, seen, seen', 2 * w, out);
    assert |multiset(m)| == |m| && |multiset(h)| == |h| && |multiset(a)| == |a|;
    MergedBetween(k, out, h, a, b, m);
    InRunsAppend(k, seen', 2 * w, out, m);
    if nmerges == 0 {
      assert out + m == m;
    }
  }

  lemma MemberOf(m: seq<ListHead>, a: seq<ListHead>, b: seq<ListHead>)
    requires multiset(m) == multiset(a) + multiset(b)
    ensures forall x :: x in m <==> x in a || x in b
  {
    assert forall x :: x in m <==> x in multiset(m);
  }

  /** Step insize places along from p. */
  method StepAlong(p: ListHead, insize: nat, ghost s: seq<ListHead>) returns (q: ListHead?, psize: nat)
    requires insize > 0 && s != [] && IsList(p, s)
    ensures psize == Reach(s, insize) && q == (if psize < |s| then s[psize] else null)
  {
    q, psize := p, 0;
    var i := 0;
    while i < insize
      invariant 0 <= i == psize <= insize && psize < |s| && q == s[psize]
    {
      psize := psize + 1;
      q := q.next;
      if q == null {
        break;
      }
      i := i + 1;
    }
  }

  // The cells still to be merged, cut after the first n of them.
  lemma CutAfter(all: multiset<ListHead>, lst: ListHead?, tl: ListHead?, p: ListHead?, q: ListHead?,
                 o: seq<ListHead>, s: seq<ListHead>, n: nat)
    requires Cells(all, lst, tl, null, p, o, [], s).Holds? && 0 < n <= |s|
    requires q == if n < |s| then s[n] else null
    ensures Cells(all, lst, tl, p, q, o, s[..n], s[n..]).Holds?
  {
    LinkedCut(s, n);
    CellsCut(all, o, s, n);
    hide NoRepeats, Linked;
  }

  lemma CellsCut(all: multiset<ListHead>, o: seq<ListHead>, s: seq<ListHead>, n: nat)
    requires multiset(o) + multiset([]) + multiset(s) == all && n <= |s|
    ensures multiset(o) + multiset(s[..n]) + multiset(s[n..]) == all
    ensures forall x :: x in o + s[..n] + s[n..] ==> x in all
  {
    assert s == s[..n] + s[n..];
    assert multiset(s) == multiset(s[..n]) + multiset(s[n..]);
    assert forall x :: x in o + s[..n] + s[n..] ==> x in multiset(o) || x in multiset(s);
  }

  lemma LinkedCut(s: seq<ListHead>, n: nat)
    requires Linked(s) && 0 < n <= |s|
    ensures Linked(s[..n]) && Linked(s[n..])
  {
    forall i {:trigger s[n..][i].next} | 0 <= i < |s| - n - 1 ensures s[n..][i].next == s[n..][i + 1] {
      assert s[n + i].next == s[n + i + 1];
    }
  }

  lemma ListToMerge(all: multiset<ListHead>, lst: ListHead?, tl: ListHead?, p: ListHead?,
                    o: seq<ListHead>, s: seq<ListHead>)
    requires Cells(all, lst, tl, null, p, o, [], s).Holds?
    ensures IsList(p, s)
  {
  }

  lemma InThree(s: seq<ListHead>, n: nat, t: nat)
    requires n + t <= |s|
    ensures s[n..][..t] + s[n..][t..] == s[n..] && s[..n] + (s[n..][..t] + s[n..][t..]) == s
  {
    assert s[n..][..t] + s[n..][t..] == s[n..];
    assert s[..n] + s[n..] == s;
  }

  /** One turn of a pass: merge the next two runs. */
  method PassTurn(order: Order, ghost k: Keys, ghost all: multiset<ListHead>, ghost seen0: Compared,
                  list0: ListHead?, tail0: ListHead?, p: ListHead, insize: nat, ghost nmerges: nat,
                  ghost out0: seq<ListHead>, ghost rest0: seq<ListHead>)
    returns (ghost seen: Compared, lst: ListHead?, tl: ListHead?, q: ListHead?,
             ghost out: seq<ListHead>, ghost rest: seq<ListHead>)
    requires k.order == order && Context(k, all, seen0) && insize > 0
    requires Cells(all, list0, tail0, null, p, out0, [], rest0).Holds?
    requires Halved(k, seen0, insize, nmerges, out0, rest0)
    modifies k.cells`next, k.infos`data16
    ensures Context(k, all, seen) && Extends(seen0, seen) && Uppers(k) && |rest| < |rest0|
    ensures Cells(all, lst, tl, null, q, out, [], rest).Holds? && Halved(k, seen, insize, nmerges + 1, out, rest)
  {
    hide Context, Cells, Merging, Chosen;
    ListToMerge(all, list0, tail0, p, out0, rest0);
    var psize: nat;
    q, psize := StepAlong(p, insize, rest0);
    CutAfter(all, list0, tail0, p, q, out0, rest0, psize);
    ghost var qs := rest0[psize..];
    ghost var t := Reach(qs, insize);
    InThree(rest0, psize, t);
    NextRuns(k, seen0, insize, rest0[..psize], qs[..t], qs[t..]);
    ghost var m;
    lst, tl, q, m, seen := MergeRuns(order, k, all, seen0, list0, tail0, p, psize, q, insize, out0, rest0[..psize], qs);
    out, rest := out0 + m, qs[t..];
    MergedPair(k, seen0, seen, insize, nmerges, out0, rest0[..psize], qs[..t], rest, m);
  }

  /** The loop of one pass: merge the runs of insize cells in pairs. */
  method MergePairs(order: Order, ghost k: Keys, ghost all: multiset<ListHead>, ghost seen0: Compared,
                    list: ListHead, insize: nat, ghost s0: seq<ListHead>)
    returns (lst: ListHead?, tail: ListHead?, nmerges: nat, ghost seen: Compared, ghost s: seq<ListHead>)
    requires k.order == order && Context(k, all, seen0) && insize > 0
    requires Cells(all, null, null, null, list, [], [], s0).Holds? && Halved(k, seen0, insize, 0, [], s0)
    modifies k.cells`next, k.infos`data16
    ensures Context(k, all, seen) && Uppers(k)
    ensures Cells(all, lst, tail, null, null, s, [], []).Holds? && Halved(k, seen, insize, nmerges, s, [])
  {
    hide Context, Cells, Halved;
    var p: ListHead? := list;
    lst, tail, nmerges, seen, s := null, null, 0, seen0, [];
    ghost var rest := s0;
    while p != null
      invariant Context(k, all, seen) && Uppers(k)
      invariant Cells(all, lst, tail, null, p, s, [], rest).Holds? && Halved(k, seen, insize, nmerges, s, rest)
      decreases |rest|
    {
      seen, lst, tail, p, s, rest := PassTurn(order, k, all, seen, lst, tail, p, insize, nmerges, s, rest);
      nmerges := nmerges + 1;
    }
    NoneLeft(all, lst, tail, s, rest);
  }

  lemma NoneLeft(all: multiset<ListHead>, lst: ListHead?, tl: ListHead?, o: seq<ListHead>, s: seq<ListHead>)
    requires Cells(all, lst, tl, null, null, o, [], s).Holds?
    ensures s == []
  {
  }

  lemma PassStarts(k: Keys, all: multiset<ListHead>, seen: Compared, w: nat, list: ListHead, s: seq<ListHead>)
    requires Context(k, all, seen) && w > 0
    requires IsList(list, s) && multiset(s) == all && InRuns(k, seen, w, s)
    ensures Cells(all, null, null, null, list, [], [], s).Holds? && Halved(k, seen, w, 0, [], s)
  {
    hide Before;
    BeforeEmpty(k, [], s);
    assert forall x :: x in [] + [] + s ==> x in multiset(s);
  }

  lemma PassEnds(k: Keys, all: multiset<ListHead>, seen: Compared, w: nat, nmerges: nat,
                 lst: ListHead?, tl: ListHead?, s: seq<ListHead>)
    requires Cells(all, lst, tl, null, null, s, [], []).Holds? && all != multiset{} && Context(k, all, seen)
    requires w > 0 && Halved(k, seen, w, nmerges, s, [])
    ensures lst != null && tl != null && tl in k.cells && s != [] && multiset(s) == all
    ensures InRuns(k, seen, 2 * w, s) && (nmerges <= 1 ==> Run(k, seen, s)) && (nmerges > 1 ==> |s| > 2 * w)
  {
    hide Before, Run;
    assert multiset(s) + multiset([]) + multiset([]) == multiset(s);
    if s != [] {
      assert s[|s| - 1] in multiset(s);
    }
  }

  /** Terminate the list. */
  method EndList(ghost all: multiset<ListHead>, ghost lst: ListHead, tail: ListHead, ghost s: seq<ListHead>)
    requires Cells(all, lst, tail, null, null, s, [], []).Holds? && s != []
    modifies tail`next
    ensures IsList(lst, s)
  {
    Split(all, s, [], []);
    forall i | 0 <= i < |s| - 1 ensures s[i] != tail {
      Distinct(s, i, |s| - 1);
    }
    tail.next := null;
  }

  /** One pass. */
  method Pass(order: Order, ghost k: Keys, ghost all: multiset<ListHead>, ghost seen0: Compared,
              list: ListHead, insize: nat, ghost s0: seq<ListHead>)
    returns (lst: ListHead, nmerges: nat, ghost seen: Compared, ghost s: seq<ListHead>)
    requires k.order == order && Context(k, all, seen0) && insize > 0 && all != multiset{}
    requires IsList(list, s0) && multiset(s0) == all && InRuns(k, seen0, insize, s0)
    modifies k.cells`next, k.infos`data16
    ensures Context(k, all, seen) && Uppers(k)
    ensures IsList(lst, s) && multiset(s) == all && InRuns(k, seen, 2 * insize, s)
    ensures (nmerges <= 1 ==> Run(k, seen, s)) && (nmerges > 1 ==> |s| > 2 * insize)
  {
    hide Context, Cells, Halved, Run, InRuns;
    PassStarts(k, all, seen0, insize, list, s0);
    var head, tail: ListHead?;
    head, tail, nmerges, seen, s := MergePairs(order, k, all, seen0, list, insize, s0);
    PassEnds(k, all, seen, insize, nmerges, head, tail, s);
    lst := head;
    EndList(all, lst, tail, s);
  }

  /* ---- the sort ---- */

  ghost function InfosOf(s: seq<ListHead>): (d: set<ListData>)
    reads s`info
    ensures forall x :: x in s ==> x.info in d
  {
    set x | x in s :: x.info
  }

  ghost function IndexIn(s: seq<ListHead>, x: ListHead): (i: nat)
    requires x in s
    ensures i < |s| && s[i] == x
  {
    if s[0] == x then 0 else 1 + IndexIn(s[1..], x)
  }

  /** What is taken as given when the cells s are sorted. */
  ghost function KeysOf(order: Order, s: seq<ListHead>): Keys
    reads s`info
  {
    Keys(order, (map x | x in s :: IndexIn(s, x)), (set x | x in s), InfosOf(s))
  }

  lemma {:induction false} FirstRuns(k: Keys, s: seq<ListHead>, from: nat)
    requires from <= |s| && forall x :: x in s ==> x in k.pos && k.pos[x] == IndexIn(s, x)
    requires NoRepeats(multiset(s))
    ensures InRuns(k, map[], 1, s[from..])
    decreases |s| - from
  {
    if from < |s| {
      var r := s[from..];
      FirstRuns(k, s, from + 1);
      assert r[1..] == s[from + 1..];
      forall x, y | x in r[..1] && y in r[1..] ensures x in k.pos && y in k.pos && k.pos[x] < k.pos[y] {
        var j :| 0 <= j < |r[1..]| && r[1..][j] == y;
        assert s[from + 1 + j] == y && s[from] == x;
        IndexOnce(s, from);
        IndexOnce(s, from + 1 + j);
      }
    }
  }

  lemma IndexOnce(s: seq<ListHead>, i: nat)
    requires i < |s| && NoRepeats(multiset(s))
    ensures s[i] in s && IndexIn(s, s[i]) == i
  {
    var j := IndexIn(s, s[i]);
    if j < i {
      Distinct(s, j, i);
    } else if i < j {
      Distinct(s, i, j);
    }
  }

  // Of two cells of s0 the lesser comes first, and of two that count the same the one that came first.
  ghost predicate StablyBefore(order: Order, s0: seq<ListHead>, x: ListHead, y: ListHead)
    requires x in s0 && y in s0
    reads x`info, y`info, x.info, y.info
  {
    KeyOf(order, x.info) < KeyOf(order, y.info) ||
    (KeyOf(order, x.info) == KeyOf(order, y.info) && IndexIn(s0, x) < IndexIn(s0, y))
  }

  /** s is s0 sorted by what the comparison looks at, cells of equal value staying in the order they had in s0. */
  ghost predicate SortedStably(order: Order, s0: seq<ListHead>, s: seq<ListHead>)
    reads s, InfosOf(s)
  {
    && multiset(s) == multiset(s0)
    && forall i, j :: 0 <= i < j < |s| ==> s[i] in s0 && s[j] in s0 && StablyBefore(order, s0, s[i], s[j])
  }

  lemma SortStarts(order: Order, list: ListHead, s: seq<ListHead>)
    requires IsList(list, s) && NoRepeats(multiset(s))
    ensures Context(KeysOf(order, s), multiset(s), map[]) && InRuns(KeysOf(order, s), map[], 1, s)
  {
    FirstRuns(KeysOf(order, s), s, 0);
    assert s[0..] == s;
  }

  /** The passes: insize doubles until one merge is enough. */
  method Passes(order: Order, ghost k: Keys, ghost all: multiset<ListHead>, list: ListHead, ghost s0: seq<ListHead>)
    returns (lst: ListHead, ghost seen: Compared, ghost s: seq<ListHead>)
    requires k.order == order && Context(k, all, map[]) && all != multiset{}
    requires IsList(list, s0) && multiset(s0) == all && InRuns(k, map[], 1, s0)
    modifies k.cells`next, k.infos`data16
    ensures Context(k, all, seen) && Uppers(k)
    ensures IsList(lst, s) && multiset(s) == all && Run(k, seen, s)
  {
    hide Context, Run, InRuns;
    lst, seen, s := list, map[], s0;
    var insize := 1;
    while true
      invariant Context(k, all, seen) && Uppers(k) && insize > 0
      invariant IsList(lst, s) && multiset(s) == all && InRuns(k, seen, insize, s)
      decreases |all| - insize
    {
      var nmerges;
      lst, nmerges, seen, s := Pass(order, k, all, seen, lst, insize, s);
      if nmerges <= 1 {
        return;
      }
      assert |multiset(s)| == |s|;
      insize := insize * 2;
    }
  }

  // Everything compared, and the list in order of what was compared.
  lemma SortedWhenSeen(k: Keys, s0: seq<ListHead>, seen: Compared, s: seq<ListHead>)
    requires !k.order.ByAny? && Context(k, multiset(s0), seen) && Sorted(k, seen, s)
    requires multiset(s) == multiset(s0) && forall x :: x in s0 ==> x in k.pos && k.pos[x] == IndexIn(s0, x)
    ensures SortedStably(k.order, s0, s)
  {
    assert forall x :: x in s <==> x in multiset(s);
    assert forall x :: x in s0 <==> x in multiset(s0);
    forall i, j | 0 <= i < j < |s|
      ensures s[i] in s0 && s[j] in s0 && StablyBefore(k.order, s0, s[i], s[j])
    {
      assert Less(k, seen, s[i], s[j]) && s[i] in s && s[j] in s;
      assert Settled(k.order, s[i].info, seen[s[i]]) && Settled(k.order, s[j].info, seen[s[j]]);
    }
  }

  twostate lemma SortEnds(new order: Order, s0: seq<ListHead>, new seen: Compared, new s: seq<ListHead>)
    requires forall x: ListHead :: x in s0 ==> x.info == old(x.info)
    requires Context(old(KeysOf(order, s0)), multiset(s0), seen) && Run(old(KeysOf(order, s0)), seen, s)
    requires Uppers(old(KeysOf(order, s0))) && multiset(s) == multiset(s0)
    ensures !order.ByAny? ==> SortedStably(order, s0, s)
    ensures order == ByIdx(true) && |s0| > 1 ==> forall x :: x in s0 ==> x.info.data16 == Regenerate(old(x.info.data16))
    ensures order.ByData? && |s0| > 1 ==> forall x :: x in s0 ==> Cached(x.info.data16)
  {
    var k := old(KeysOf(order, s0));
    if !order.ByAny? {
      SortedWhenSeen(k, s0, seen, s);
    }
    assert |multiset(s)| == |s| && |multiset(s0)| == |s0|;
    hide SortedStably, Regenerate, Cached;
    forall x | x in s0 && |s0| > 1 && !order.ByAny?
      ensures order == ByIdx(true) ==> x.info.data16 == Regenerate(old(x.info.data16))
      ensures order.ByData? ==> Cached(x.info.data16)
    {
      assert x in multiset(s0) && x in multiset(s) && x in seen && x.info in k.infos;
      assert Settled(order, x.info, seen[x]);
      RegenerateUpper(x.info.data16, old(x.info.data16));
    }
  }

  lemma RegenerateUpper(d: nat, e: nat)
    requires Upper(d) == Upper(e)
    ensures Regenerate(d) == Regenerate(e)
  {
  }

  /** core_list_mergesort.  Whatever the comparison answers, the cells are relinked into one list; with one of this
      file's comparisons that list is sorted stably, and comparing two cells or more has left its mark on all. */
  method MergeSort(order: Order, list: ListHead, ghost s0: seq<ListHead>)
    returns (lst: ListHead, ghost s: seq<ListHead>)
    requires IsList(list, s0) && s0 != [] && NoRepeats(multiset(s0))
    modifies (set x | x in s0)`next, InfosOf(s0)`data16
    ensures IsList(lst, s) && multiset(s) == multiset(s0)
    ensures !order.ByAny? ==> SortedStably(order, s0, s)
    ensures order == ByIdx(true) && |s0| > 1 ==> forall x :: x in s0 ==> x.info.data16 == Regenerate(old(x.info.data16))
    ensures order.ByData? && |s0| > 1 ==> forall x :: x in s0 ==> Cached(x.info.data16)
    ensures Uppers(old(KeysOf(order, s0)))
  {
    hide Context, Run, InRuns;
    SortStarts(order, list, s0);
    ghost var k, seen: Compared := KeysOf(order, s0), map[];
    assert s0[0] in multiset(s0);
    lst, seen, s := Passes(order, k, multiset(s0), list, s0);
    SortEnds(order, s0, seen, s);
  }
}
