/**
 The set-associative write-back, write-allocate cache both simulators contain
 (ics-workbench-lab4/cachesim/cache.c:30-54, 68-88, 94-118, 179-203 and, copied,
 nemu/src/memory/paddr.c:577-723, 779-803): looking a block up, replacing a line, and the one invariant
 both of them rely on.
 */
module BlockCache {
  import opened Common
  import opened Words

  type byte = x: int | 0 <= x < 256

  const BLOCK_WIDTH: nat := 6
  const BLOCK_SIZE: nat := 64

  /** struct CACHE */
  datatype Line = Line(valid: bool, dirty: bool, tag: nat, data: seq<byte>)

  function Block(m: seq<byte>, b: nat): (r: seq<byte>)
    requires BLOCK_SIZE * b + BLOCK_SIZE <= |m|
    ensures |r| == BLOCK_SIZE
  {
    m[BLOCK_SIZE * b..BLOCK_SIZE * b + BLOCK_SIZE]
  }

  function PutBlock(m: seq<byte>, b: nat, x: seq<byte>): (r: seq<byte>)
    requires BLOCK_SIZE * b + BLOCK_SIZE <= |m| && |x| == BLOCK_SIZE
    ensures |r| == |m|
  {
    m[..BLOCK_SIZE * b] + x + m[BLOCK_SIZE * b + BLOCK_SIZE..]
  }

  lemma PutBlockBlock(m: seq<byte>, b: nat, x: seq<byte>, c: nat)
    requires BLOCK_SIZE * b + BLOCK_SIZE <= |m| && |x| == BLOCK_SIZE && BLOCK_SIZE * c + BLOCK_SIZE <= |m|
    ensures Block(PutBlock(m, b, x), c) == if b == c then x else Block(m, c)
  {
  }

  /* ---- address splitting ---- */

  /** The geometry init_cache derives from its two widths, on addresses of `addrBits` bits. */
  datatype Geometry = Geometry(groupWidth: nat, assocWidth: nat, addrBits: nat)

  ghost predicate Fits(g: Geometry) { g.groupWidth + BLOCK_WIDTH <= g.addrBits }

  function Ways(g: Geometry): (n: nat)
    ensures n >= 1
  {
    Pow2(g.assocWidth)
  }

  function Groups(g: Geometry): (n: nat)
    ensures n >= 1
  {
    Pow2(g.groupWidth)
  }

  function GetTag(g: Geometry, addr: nat): nat
    requires g.groupWidth + BLOCK_WIDTH <= g.addrBits
  {
    Shr(And(addr, HighMask(g.groupWidth + BLOCK_WIDTH, g.addrBits)), g.groupWidth + BLOCK_WIDTH)
  }

  function GetGroup(g: Geometry, addr: nat): nat {
    Shr(And(addr, Shl(Pow2(g.groupWidth) - 1, BLOCK_WIDTH)), BLOCK_WIDTH)
  }

  function GetBlock(addr: nat): nat { And(addr, Pow2(BLOCK_WIDTH) - 1) }

  function GetBlockNum(g: Geometry, addr: nat): nat
    requires g.groupWidth + BLOCK_WIDTH <= g.addrBits
  {
    Shr(And(addr, HighMask(BLOCK_WIDTH, g.addrBits)), BLOCK_WIDTH)
  }

  function GetBlockNumCache(g: Geometry, tag: nat, group: nat): nat { Or(Shl(tag, g.groupWidth), group) }

  /** The masks cut an address into tag, group and offset, and tag and group rebuild the block number. */
  lemma AddressParts(g: Geometry, addr: nat)
    requires Fits(g) && addr < Pow2(g.addrBits)
    ensures GetBlock(addr) == addr % BLOCK_SIZE
    ensures GetBlockNum(g, addr) == addr / BLOCK_SIZE
    ensures GetGroup(g, addr) == Low(addr / BLOCK_SIZE, g.groupWidth)
    ensures GetTag(g, addr) == Shr(addr / BLOCK_SIZE, g.groupWidth)
    ensures GetBlockNumCache(g, GetTag(g, addr), GetGroup(g, addr)) == GetBlockNum(g, addr)
  {
    assert Pow2(BLOCK_WIDTH) == BLOCK_SIZE;
    ShiftParts(addr, BLOCK_WIDTH, g.groupWidth, g.addrBits);
    AndLowMask(addr, BLOCK_WIDTH);
    Rejoin(addr / BLOCK_SIZE, g.groupWidth);
  }

  lemma Rejoin(b: nat, n: nat)
    ensures Or(Shl(Shr(b, n), n), Low(b, n)) == b
  {
    var q, r := Shr(b, n), Low(b, n);
    DivModSum(b, Pow2(n));
    OrShifted(q, r, n);
  }

  lemma ShiftParts(x: nat, k: nat, n: nat, w: nat)
    requires n + k <= w && x < Pow2(w)
    ensures Shr(And(x, HighMask(k, w)), k) == Shr(x, k)
    ensures Shr(And(x, HighMask(n + k, w)), n + k) == Shr(Shr(x, k), n)
    ensures Shr(And(x, Shl(Pow2(n) - 1, k)), k) == Low(Shr(x, k), n)
  {
    AndHighMask(x, k, w);
    DropThenShift(x, Pow2(k));
    AndHighMask(x, n + k, w);
    DropThenShift(x, Pow2(n + k));
    Pow2Add(k, n);
    DivDiv(x, Pow2(k), Pow2(n));
    AndMiddleMask(x, n, k);
    MulDiv(Low(Shr(x, k), n), Pow2(k));
  }

  /* ---- the invariant ---- */

  // The memory block line i holds if its tag is `tag`: the lines of one group are adjacent.
  function BlockOf(g: Geometry, tag: nat, i: nat): nat { GetBlockNumCache(g, tag, Shr(i, g.assocWidth)) }

  /** `contents` is what the memory would hold if every dirty line were written back, and `place` says
      which line holds a block: no block is held by two valid lines, valid lines show the contents, and
      memory shows them wherever no dirty line does. */
  ghost predicate Coherent(g: Geometry, lines: seq<Line>, mem: seq<byte>, contents: seq<byte>, place: map<nat, nat>) {
    && |mem| == |contents|
    && (forall i :: 0 <= i < |lines| && lines[i].valid ==>
          var b := BlockOf(g, lines[i].tag, i);
          b in place && place[b] == i && BLOCK_SIZE * b + BLOCK_SIZE <= |mem| && lines[i].data == Block(contents, b))
    && (forall b :: b in place ==>
          place[b] < |lines| && lines[place[b]].valid && BlockOf(g, lines[place[b]].tag, place[b]) == b)
    && (forall b: nat :: BLOCK_SIZE * b + BLOCK_SIZE <= |mem| ==>
          (b in place && lines[place[b]].dirty) || Block(mem, b) == Block(contents, b))
  }

  /** Which line holds each cached block, and which of these blocks are dirty. */
  datatype Directory = Directory(place: map<nat, nat>, dirty: set<nat>)

  // What is left when line v is emptied.
  function Without(place: map<nat, nat>, v: nat): map<nat, nat> {
    map b | b in place && place[b] != v :: place[b]
  }

  /** Line v gives up its block, if it has one, for block b. */
  function Filled(d: Directory, b: nat, v: nat): Directory {
    Directory(Without(d.place, v)[b := v], set x | x in d.dirty && x in Without(d.place, v))
  }

  /** Line v holds a block that has to be written back. */
  predicate Unsaved(d: Directory, v: nat) {
    exists b :: b in d.dirty && b in d.place && d.place[b] == v
  }

  ghost function DirectoryOf(lines: seq<Line>, place: map<nat, nat>): Directory
    requires forall b :: b in place ==> place[b] < |lines|
  {
    Directory(place, set b | b in place && lines[place[b]].dirty)
  }

  /** Writing a dirty line back keeps the contents. */
  lemma WriteBackCoherent(g: Geometry, lines: seq<Line>, mem: seq<byte>, contents: seq<byte>, place: map<nat, nat>,
                          v: nat)
    requires Coherent(g, lines, mem, contents, place) && v < |lines| && lines[v].valid
    ensures var b := BlockOf(g, lines[v].tag, v);
            && BLOCK_SIZE * b + BLOCK_SIZE <= |mem| && |lines[v].data| == BLOCK_SIZE
            && Coherent(g, lines[v := lines[v].(dirty := false)], PutBlock(mem, b, lines[v].data), contents, place)
  {
    var b := BlockOf(g, lines[v].tag, v);
    var mem' := PutBlock(mem, b, lines[v].data);
    forall c: nat | BLOCK_SIZE * c + BLOCK_SIZE <= |mem|
      ensures Block(mem', c) == if b == c then lines[v].data else Block(mem, c)
    {
      PutBlockBlock(mem, b, lines[v].data, c);
    }
  }

  /** Filling a line that holds nothing unsaved with a block no line holds keeps the contents. */
  lemma FillCoherent(g: Geometry, lines: seq<Line>, mem: seq<byte>, contents: seq<byte>, place: map<nat, nat>,
                     v: nat, tag: nat) returns (place': map<nat, nat>)
    requires Coherent(g, lines, mem, contents, place) && v < |lines| && !(lines[v].valid && lines[v].dirty)
    requires var b := BlockOf(g, tag, v); BLOCK_SIZE * b + BLOCK_SIZE <= |mem| && b !in place
    ensures var b := BlockOf(g, tag, v);
            && Coherent(g, lines[v := Line(true, false, tag, Block(mem, b))], mem, contents, place')
            && place' == Without(place, v)[b := v]
  {
    var b := BlockOf(g, tag, v);
    place' := Without(place, v)[b := v];
  }

  lemma FillDirectory(g: Geometry, lines: seq<Line>, mem: seq<byte>, contents: seq<byte>, place: map<nat, nat>,
                      v: nat, b: nat, l: Line)
    requires Coherent(g, lines, mem, contents, place) && v < |lines| && b !in place && !l.dirty
    ensures var place' := Without(place, v)[b := v];
            && (forall x :: x in place' ==> place'[x] < |lines|)
            && DirectoryOf(lines[v := l], place') == Filled(DirectoryOf(lines, place), b, v)
  {
  }

  lemma UnsavedIs(g: Geometry, lines: seq<Line>, mem: seq<byte>, contents: seq<byte>, place: map<nat, nat>, v: nat)
    requires Coherent(g, lines, mem, contents, place) && v < |lines|
    ensures Unsaved(DirectoryOf(lines, place), v) <==> lines[v].valid && lines[v].dirty
  {
    if lines[v].valid && lines[v].dirty {
      assert BlockOf(g, lines[v].tag, v) in DirectoryOf(lines, place).dirty;
    }
  }

  // Cleaning line v, which is to be filled next, changes nothing of what filling it leaves.
  lemma CleanThenFill(g: Geometry, lines: seq<Line>, mem: seq<byte>, contents: seq<byte>, place: map<nat, nat>,
                      v: nat, b: nat)
    requires Coherent(g, lines, mem, contents, place) && v < |lines|
    ensures Filled(DirectoryOf(lines[v := lines[v].(dirty := false)], place), b, v) ==
            Filled(DirectoryOf(lines, place), b, v)
  {
  }

  lemma StoreDirectory(g: Geometry, lines: seq<Line>, mem: seq<byte>, contents: seq<byte>, place: map<nat, nat>,
                       i: nat, l: Line)
    requires Coherent(g, lines, mem, contents, place) && i < |lines| && lines[i].valid && l.dirty
    ensures var d := DirectoryOf(lines, place);
            DirectoryOf(lines[i := l], place) == d.(dirty := d.dirty + {BlockOf(g, lines[i].tag, i)})
  {
  }

  /** Storing into a valid line stores into the contents, whatever the memory holds. */
  lemma StoreCoherent(g: Geometry, lines: seq<Line>, mem: seq<byte>, contents: seq<byte>, place: map<nat, nat>,
                      i: nat, data: seq<byte>)
    requires Coherent(g, lines, mem, contents, place) && i < |lines| && lines[i].valid && |data| == BLOCK_SIZE
    ensures var b := BlockOf(g, lines[i].tag, i);
            && |contents| == |mem| && BLOCK_SIZE * b + BLOCK_SIZE <= |mem|
            && Coherent(g, lines[i := lines[i].(dirty := true, data := data)], mem,
                        PutBlock(contents, b, data), place)
  {
    var b := BlockOf(g, lines[i].tag, i);
    forall c: nat | BLOCK_SIZE * c + BLOCK_SIZE <= |mem|
      ensures Block(PutBlock(contents, b, data), c) == if b == c then data else Block(contents, c)
    {
      PutBlockBlock(contents, b, data, c);
    }
  }

  /* ---- the lines of a group ---- */

  function GroupBase(g: Geometry, addr: nat): nat { Shl(GetGroup(g, addr), g.assocWidth) }

  // The line a miss replaces, for what rand() returns.
  function Victim(g: Geometry, addr: nat, rand: nat): nat { GroupBase(g, addr) + Low(rand, g.assocWidth) }

  lemma InGroup(group: nat, ways: nat, i: nat)
    requires ways > 0
    ensures group * ways <= i < group * ways + ways <==> i / ways == group
  {
    DivModSum(i, ways);
    if group * ways <= i < group * ways + ways {
      DivModUnique(i, ways, group, i - group * ways);
    }
  }

  lemma OnePair(groups: nat, tag: nat, q: nat, b: nat)
    requires q < groups
    ensures tag * groups + q == b <==> q == b % groups && tag == b / groups
  {
    DivModSum(b, groups);
    if tag * groups + q == b {
      DivModUnique(b, groups, tag, q);
    }
  }

  /** A line belongs to the group of `addr` exactly when it lies in the stretch that is searched. */
  lemma GroupStretch(g: Geometry, addr: nat, i: nat)
    ensures GroupBase(g, addr) <= i < GroupBase(g, addr) + Ways(g) <==> Shr(i, g.assocWidth) == GetGroup(g, addr)
  {
    InGroup(GetGroup(g, addr), Ways(g), i);
  }

  /** Whatever rand() returns, it names one line of the group, full or empty, and as many consecutive values as the
      group has lines name them in turn. */
  lemma VictimTurns(g: Geometry, addr: nat, k: nat, n: nat)
    requires k < Ways(g)
    ensures Victim(g, addr, n * Ways(g) + k) == GroupBase(g, addr) + k
    ensures Shr(Victim(g, addr, n * Ways(g) + k), g.assocWidth) == GetGroup(g, addr)
  {
    DivModUnique(n * Ways(g) + k, Ways(g), n, k);
    GroupStretch(g, addr, GroupBase(g, addr) + k);
  }

  /** There its tag alone decides whether it holds the block of `addr`. */
  lemma TagDecides(g: Geometry, addr: nat, i: nat, tag: nat)
    requires Fits(g) && addr < Pow2(g.addrBits) && Shr(i, g.assocWidth) < Groups(g)
    ensures BlockOf(g, tag, i) == GetBlockNum(g, addr) <==>
            Shr(i, g.assocWidth) == GetGroup(g, addr) && tag == GetTag(g, addr)
  {
    var q := Shr(i, g.assocWidth);
    AddressParts(g, addr);
    OnePair(Groups(g), tag, q, addr / BLOCK_SIZE);
    OrShifted(tag, q, g.groupWidth);
  }

  lemma IndexInGroups(i: nat, groups: nat, ways: nat)
    requires i < groups * ways && ways > 0
    ensures i / ways < groups
  {
    DivModSum(i, ways);
    if i / ways >= groups {
      MulMonotone(groups, i / ways, ways);
    }
  }

  lemma StretchInLines(group: nat, groups: nat, ways: nat)
    requires group < groups
    ensures group * ways + ways <= groups * ways
  {
    MulMonotone(group + 1, groups, ways);
    assert (group + 1) * ways == group * ways + ways;
  }

  lemma BlockInMemory(g: Geometry, addr: nat, size: nat)
    requires Fits(g) && addr < size <= Pow2(g.addrBits) && size % BLOCK_SIZE == 0
    ensures BLOCK_SIZE * GetBlockNum(g, addr) + BLOCK_SIZE <= size
  {
    hide GetBlockNum, GetGroup, GetTag, GetBlock, And, Shr, Pow2;
    AddressParts(g, addr);
    WholeBlocks(addr, size);
  }

  lemma WholeBlocks(addr: nat, size: nat)
    requires addr < size && size % BLOCK_SIZE == 0
    ensures BLOCK_SIZE * (addr / BLOCK_SIZE) + BLOCK_SIZE <= size
  {
  }

  lemma TagOfBlock(g: Geometry, addr: nat, v: nat, size: nat)
    requires Fits(g) && addr < Pow2(g.addrBits) && v < size == Groups(g) * Ways(g)
    requires Shr(v, g.assocWidth) == GetGroup(g, addr)
    ensures BlockOf(g, GetTag(g, addr), v) == GetBlockNum(g, addr)
  {
    IndexInGroups(v, Groups(g), Ways(g));
    TagDecides(g, addr, v, GetTag(g, addr));
  }

  class LineStore {
    const g: Geometry
    const lines: array<Line>
    const mem: array<byte>
    ghost var contents: seq<byte>
    ghost var place: map<nat, nat>

    ghost predicate Valid()
      reads this, lines, mem
    {
      && Fits(g) && lines.Length == Groups(g) * Ways(g)
      && mem.Length <= Pow2(g.addrBits) && mem.Length % BLOCK_SIZE == 0
      && Coherent(g, lines[..], mem[..], contents, place)
    }

    /** The directory the lines amount to. */
    ghost function Held(): Directory
      requires Valid()
      reads this, lines, mem
    {
      DirectoryOf(lines[..], place)
    }

    /** init_cache: every line invalid, with whatever tag malloc left in it. */
    constructor (totalSizeWidth: nat, associativityWidth: nat, addrBits: nat, memory: array<byte>, junk: nat -> nat)
      requires BLOCK_WIDTH + associativityWidth <= totalSizeWidth <= addrBits + associativityWidth
      requires memory.Length <= Pow2(addrBits) && memory.Length % BLOCK_SIZE == 0
      ensures Valid() && mem == memory && contents == memory[..] && fresh(lines)
      ensures g == Geometry(totalSizeWidth - BLOCK_WIDTH - associativityWidth, associativityWidth, addrBits)
      ensures forall i :: 0 <= i < lines.Length ==> !lines[i].valid && !lines[i].dirty
      ensures Held() == Directory(map[], {})
    {
      g := Geometry(totalSizeWidth - BLOCK_WIDTH - associativityWidth, associativityWidth, addrBits);
      mem := memory;
      var n := Pow2(totalSizeWidth - BLOCK_WIDTH);
      lines := new Line[n](i requires 0 <= i => Line(false, false, junk(i), []));
      contents, place := memory[..], map[];
      new;
      Pow2Add(g.groupWidth, g.assocWidth);
      assert lines.Length == Groups(g) * Ways(g);
      for i := 0 to n
        invariant mem[..] == contents && place == map[]
        invariant forall j :: 0 <= j < n ==> !lines[j].valid && !lines[j].dirty
      {
        lines[i] := lines[i].(data := seq(BLOCK_SIZE, _ => 0));
      }
    }

    /** The search loop of cache_read and cache_write. */
    method FindLine(addr: nat) returns (r: Option<nat>)
      requires Valid() && addr < mem.Length
      ensures r.Some? ==> r.value < lines.Length && lines[r.value].valid
                          && BlockOf(g, lines[r.value].tag, r.value) == GetBlockNum(g, addr)
      ensures r.Some? <==> GetBlockNum(g, addr) in place
    {
      AddressParts(g, addr);
      StretchInLines(GetGroup(g, addr), Groups(g), Ways(g));
      var base := GroupBase(g, addr);
      var i := base;
      while i < base + Ways(g)
        invariant base <= i <= base + Ways(g)
        invariant forall j :: base <= j < i ==> !(lines[j].valid && lines[j].tag == GetTag(g, addr))
      {
        if lines[i].tag == GetTag(g, addr) {
          if lines[i].valid {
            IndexInGroups(i, Groups(g), Ways(g));
            GroupStretch(g, addr, i);
            TagDecides(g, addr, i, lines[i].tag);
            return Some(i);
          }
        }
        i := i + 1;
      }
      NotHeld(addr);
      r := None;
    }

    lemma NotHeld(addr: nat)
      requires Valid() && addr < mem.Length && GroupBase(g, addr) + Ways(g) <= lines.Length
      requires forall j :: GroupBase(g, addr) <= j < GroupBase(g, addr) + Ways(g)
                           ==> !(lines[j].valid && lines[j].tag == GetTag(g, addr))
      ensures GetBlockNum(g, addr) !in place
    {
      if GetBlockNum(g, addr) in place {
        var j := place[GetBlockNum(g, addr)];
        IndexInGroups(j, Groups(g), Ways(g));
        GroupStretch(g, addr, j);
        TagDecides(g, addr, j, lines[j].tag);
      }
    }

    /** mem_write: copy a block into memory. */
    method MemWrite(b: nat, data: seq<byte>)
      requires BLOCK_SIZE * b + BLOCK_SIZE <= mem.Length && |data| == BLOCK_SIZE
      modifies mem
      ensures mem[..] == PutBlock(old(mem[..]), b, data)
    {
      forall k | 0 <= k < BLOCK_SIZE {
        mem[BLOCK_SIZE * b + k] := data[k];
      }
    }

    /** wirte_cache */
    method WriteBack(v: nat, addr: nat)
      requires Valid() && v < lines.Length && lines[v].valid && Shr(v, g.assocWidth) == GetGroup(g, addr)
      modifies lines, mem
      ensures Valid() && lines[..] == old(lines[..])[v := old(lines[v]).(dirty := false)]
    {
      hide Coherent;
      WriteBackCoherent(g, lines[..], mem[..], contents, place, v);
      MemWrite(GetBlockNumCache(g, lines[v].tag, GetGroup(g, addr)), lines[v].data);
      lines[v] := lines[v].(valid := true, dirty := false);
      assert lines[..] == old(lines[..])[v := old(lines[v]).(dirty := false)];
    }

    /** read_cache */
    method ReadBlock(v: nat, addr: nat)
      requires Valid() && addr < mem.Length && GetBlockNum(g, addr) !in place
      requires v < lines.Length && !(lines[v].valid && lines[v].dirty) && Shr(v, g.assocWidth) == GetGroup(g, addr)
      modifies this`place, lines
      ensures Valid() && lines[v].valid && !lines[v].dirty
      ensures BlockOf(g, lines[v].tag, v) == GetBlockNum(g, addr)
      ensures lines[..] == old(lines[..])[v := lines[v]]
      ensures Held() == Filled(old(Held()), GetBlockNum(g, addr), v)
    {
      hide Coherent;
      var b := GetBlockNum(g, addr);
      BlockInMemory(g, addr, mem.Length);
      TagOfBlock(g, addr, v, lines.Length);
      hide Pow2, Shr, Div, Mod, Low, BlockOf, GetBlockNum, GetTag, GetGroup, Groups, Ways;
      ghost var l := lines[..];
      ghost var line := Line(true, false, GetTag(g, addr), Block(mem[..], b));
      FillDirectory(g, l, mem[..], contents, place, v, b, line);
      place := FillCoherent(g, l, mem[..], contents, place, v, GetTag(g, addr));
      lines[v] := Line(true, false, GetTag(g, addr), mem[BLOCK_SIZE * b..BLOCK_SIZE * b + BLOCK_SIZE]);
      assert lines[..] == l[v := line];
    }

    /** The miss path: pick a victim, write it back if need be, read the block of `addr` over it. */
    method Refill(addr: nat, rand: nat) returns (v: nat, wroteBack: bool)
      requires Valid() && addr < mem.Length && GetBlockNum(g, addr) !in place
      modifies this`place, lines, mem
      ensures Valid() && v < lines.Length && lines[v].valid && !lines[v].dirty
      ensures v == Victim(g, addr, rand) && BlockOf(g, lines[v].tag, v) == GetBlockNum(g, addr)
      ensures lines[..] == old(lines[..])[v := lines[v]]
      ensures Held() == Filled(old(Held()), GetBlockNum(g, addr), v)
      ensures wroteBack == Unsaved(old(Held()), v) == old(lines[v].valid && lines[v].dirty)
    {
      v := PickVictim(addr, rand);
      UnsavedIs(g, lines[..], mem[..], contents, place, v);
      hide Coherent, Unsaved, Filled, DirectoryOf, GetBlockNum, BlockOf;
      wroteBack := lines[v].dirty && lines[v].valid;
      if wroteBack {
        CleanThenFill(g, lines[..], mem[..], contents, place, v, GetBlockNum(g, addr));
        WriteBack(v, addr);
      }
      ReadBlock(v, addr);
    }

    /** ramdchoose within the group: any line of it, depending on rand(). */
    method PickVictim(addr: nat, rand: nat) returns (v: nat)
      requires Valid() && addr < mem.Length
      ensures v < lines.Length && Shr(v, g.assocWidth) == GetGroup(g, addr)
      ensures v == Victim(g, addr, rand)
    {
      AddressParts(g, addr);
      StretchInLines(GetGroup(g, addr), Groups(g), Ways(g));
      v := GroupBase(g, addr) + Low(rand, g.assocWidth);
      GroupStretch(g, addr, v);
    }

    /** Changing the data of a line that holds the block of `addr`. */
    method StoreLine(i: nat, data: seq<byte>)
      requires Valid() && i < lines.Length && lines[i].valid && |data| == BLOCK_SIZE
      modifies this`contents, lines
      ensures Valid() && lines[..] == old(lines[..])[i := old(lines[i]).(dirty := true, data := data)]
      ensures var b := BlockOf(g, old(lines[i]).tag, i);
              BLOCK_SIZE * b + BLOCK_SIZE <= mem.Length && |old(contents)| == mem.Length
              && contents == PutBlock(old(contents), b, data)
              && Held() == old(Held()).(dirty := old(Held()).dirty + {b})
    {
      StoreDirectory(g, lines[..], mem[..], contents, place, i, lines[i].(dirty := true, data := data));
      hide Coherent;
      StoreCoherent(g, lines[..], mem[..], contents, place, i, data);
      ghost var l := lines[..];
      contents := PutBlock(contents, BlockOf(g, lines[i].tag, i), data);
      lines[i] := lines[i].(dirty := true, data := data);
      assert lines[..] == l[i := l[i].(dirty := true, data := data)];
    }
  }
}
