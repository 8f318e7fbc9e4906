/**
 The lab cache simulator (ics-workbench-lab4/cachesim): 32-bit accesses through the cache against the same
 accesses on a flat memory, and the cycle count.
 */
module Cachesim {
  import opened Words
  import opened BlockCache

  const WORD: nat := 0x1_0000_0000

  /* ---- words in memory ---- */

  function Load32(m: seq<byte>, a: nat): (w: nat)
    requires a + 4 <= |m|
    ensures w < WORD
  {
    var b0: nat, b1: nat, b2: nat, b3: nat := m[a], m[a + 1], m[a + 2], m[a + 3];
    b0 + 0x100 * b1 + 0x1_0000 * b2 + 0x100_0000 * b3
  }

  function Bytes32(w: nat): (r: seq<byte>)
    ensures |r| == 4
  {
    [w % 256, (w / 0x100) % 256, (w / 0x1_0000) % 256, (w / 0x100_0000) % 256]
  }

  function Store32(m: seq<byte>, a: nat, w: nat): (r: seq<byte>)
    requires a + 4 <= |m|
    ensures |r| == |m|
  {
    m[..a] + Bytes32(w) + m[a + 4..]
  }

  // addr & ~0x3
  function Align(addr: nat): nat { addr - addr % 4 }

  // Shifts and masks on uint32_t.
  function Shl32(x: nat, k: nat): nat { Shl(x, k) % WORD }

  /** (data & mask) | (was & ~mask) */
  function Blend(was: nat, data: nat, mask: nat): nat
    requires mask < WORD
  {
    Or(And(data, mask), And(was, WORD - 1 - mask))
  }

  function LenMask(len: nat): (m: nat)
    requires len <= 4
    ensures m < WORD
  {
    match len
    case 0 => 0
    case 1 => 0xff
    case 2 => 0xffff
    case 3 => 0xffffff
    case _ => 0xffffffff
  }

  function OffsetBits(addr: nat): nat { (addr % 4) * 8 }

  /* ---- the flat memory ---- */

  /** mem_uncache_read, mem_uncache_write */
  function FlatRead(m: seq<byte>, addr: nat): nat
    requires Align(addr) + 4 <= |m|
  {
    Load32(m, Align(addr))
  }

  function FlatWrite(m: seq<byte>, addr: nat, data: nat, mask: nat): (r: seq<byte>)
    requires Align(addr) + 4 <= |m| && mask < WORD
    ensures |r| == |m|
  {
    Store32(m, Align(addr), Blend(Load32(m, Align(addr)), data, mask))
  }

  /** cpu_uncache_read, cpu_uncache_write */
  function CpuFlatRead(m: seq<byte>, addr: nat, len: nat): nat
    requires Align(addr) + 4 <= |m| && len <= 4
  {
    And(Shr(FlatRead(m, addr), OffsetBits(addr)), LenMask(len))
  }

  function CpuFlatWrite(m: seq<byte>, addr: nat, len: nat, data: nat): (r: seq<byte>)
    requires Align(addr) + 4 <= |m| && len <= 4
    ensures |r| == |m|
  {
    FlatWrite(m, addr, Shl32(data, OffsetBits(addr)), Shl32(LenMask(len), OffsetBits(addr)))
  }

  /** An aligned word lies inside one block, so reading it from the block or storing it there is reading
      it from memory or storing it there. */
  lemma WordInBlock(m: seq<byte>, addr: nat, w: nat)
    requires addr < |m| && |m| % BLOCK_SIZE == 0
    ensures var b, off := addr / BLOCK_SIZE, Align(addr % BLOCK_SIZE);
            && BLOCK_SIZE * b + BLOCK_SIZE <= |m| && off + 4 <= BLOCK_SIZE && Align(addr) + 4 <= |m|
            && Load32(Block(m, b), off) == Load32(m, Align(addr))
            && PutBlock(m, b, Store32(Block(m, b), off, w)) == Store32(m, Align(addr), w)
  {
    var b, off := addr / BLOCK_SIZE, Align(addr % BLOCK_SIZE);
    AlignInBlock(addr);
    WordAt(m, b, off, Bytes32(w));
  }

  lemma AlignInBlock(addr: nat)
    ensures var b, off := addr / BLOCK_SIZE, Align(addr % BLOCK_SIZE);
            Align(addr) == BLOCK_SIZE * b + off && off + 4 <= BLOCK_SIZE
  {
    var b, r := addr / BLOCK_SIZE, addr % BLOCK_SIZE;
    DivModUnique(addr, 4, 16 * b + r / 4, r % 4);
  }

  lemma WordAt(m: seq<byte>, b: nat, off: nat, x: seq<byte>)
    requires BLOCK_SIZE * b + BLOCK_SIZE <= |m| && off + 4 <= BLOCK_SIZE && |x| == 4
    ensures var a := BLOCK_SIZE * b + off;
            && Block(m, b)[off] == m[a] && Block(m, b)[off + 1] == m[a + 1]
            && Block(m, b)[off + 2] == m[a + 2] && Block(m, b)[off + 3] == m[a + 3]
            && PutBlock(m, b, Block(m, b)[..off] + x + Block(m, b)[off + 4..]) == m[..a] + x + m[a + 4..]
  {
    var a, lo, hi := BLOCK_SIZE * b + off, BLOCK_SIZE * b, BLOCK_SIZE * b + BLOCK_SIZE;
    assert m[..a] == m[..lo] + Block(m, b)[..off];
    assert m[a + 4..] == Block(m, b)[off + 4..] + m[hi..];
  }

  /* ---- the simulator ---- */

  function DirtyOne(l: Line): nat { if l.valid && l.dirty then 1 else 0 }

  function DirtyLines(s: seq<Line>): nat {
    if s == [] then 0 else DirtyLines(s[..|s| - 1]) + DirtyOne(s[|s| - 1])
  }

  lemma {:induction false} DirtyUpdate(s: seq<Line>, i: nat, l: Line)
    requires i < |s|
    ensures DirtyLines(s[i := l]) == DirtyLines(s) - DirtyOne(s[i]) + DirtyOne(l)
  {
    var n := |s| - 1;
    if i == n {
      assert s[i := l][..n] == s[..n];
    } else {
      DirtyUpdate(s[..n], i, l);
      assert s[i := l][..n] == s[..n][i := l];
    }
  }

  lemma {:induction false} NoDirtyLines(s: seq<Line>)
    requires forall i :: 0 <= i < |s| ==> !s[i].dirty
    ensures DirtyLines(s) == 0
  {
    if s != [] {
      NoDirtyLines(s[..|s| - 1]);
    }
  }

  datatype Access = Access(addr: nat, len: nat, isWrite: bool, data: nat)

  /* ---- what the cache does, seen from its directory ---- */

  /** The directory after an access: a block that is absent takes the place of the victim's, and a store makes the
      block dirty. */
  function Touched(g: Geometry, d: Directory, addr: nat, isWrite: bool, rand: nat): Directory
    requires g.groupWidth + BLOCK_WIDTH <= g.addrBits
  {
    var b := GetBlockNum(g, addr);
    var e := if b in d.place then d else Filled(d, b, Victim(g, addr, rand));
    if isWrite then e.(dirty := e.dirty + {b}) else e
  }

  /** What an access adds to the counts of hits and of blocks written back, and the cycles it takes. */
  function HitOf(g: Geometry, d: Directory, addr: nat): nat
    requires g.groupWidth + BLOCK_WIDTH <= g.addrBits
  {
    if GetBlockNum(g, addr) in d.place then 1 else 0
  }

  function WriteBackOf(g: Geometry, d: Directory, addr: nat, rand: nat): nat
    requires g.groupWidth + BLOCK_WIDTH <= g.addrBits
  {
    if GetBlockNum(g, addr) !in d.place && Unsaved(d, Victim(g, addr, rand)) then 1 else 0
  }

  function CyclesOf(g: Geometry, d: Directory, addr: nat, rand: nat): nat
    requires g.groupWidth + BLOCK_WIDTH <= g.addrBits
  {
    1 + 25 * (1 - HitOf(g, d, addr)) + 6 * WriteBackOf(g, d, addr, rand)
  }

  /** The directory after a trace, what its reads and its writes have hit, and the blocks written back. */
  datatype Tally = Tally(d: Directory, readHits: nat, writeHits: nat, writeBacks: nat)

  function Tallied(g: Geometry, d: Directory, trace: seq<Access>, rands: seq<nat>): Tally
    requires g.groupWidth + BLOCK_WIDTH <= g.addrBits && |rands| == |trace|
  {
    if trace == [] then Tally(d, 0, 0, 0)
    else
      var n := |trace| - 1;
      var y, t := Tallied(g, d, trace[..n], rands[..n]), trace[n];
      var hit := HitOf(g, y.d, t.addr);
      Tally(Touched(g, y.d, t.addr, t.isWrite, rands[n]),
            y.readHits + (if t.isWrite then 0 else hit), y.writeHits + (if t.isWrite then hit else 0),
            y.writeBacks + WriteBackOf(g, y.d, t.addr, rands[n]))
  }

  class Simulator {
    const cache: LineStore
    const memDiff: array<byte>     // the memory the uncached accesses use
    var cycleCnt: nat
    var readHit: nat
    var readCount: nat
    var writeHit: nat
    var writeCount: nat
    ghost var writeBacks: nat      // calls of mem_write

    ghost predicate Valid()
      reads this, cache, cache.lines, cache.mem, memDiff
    {
      && cache.Valid() && memDiff.Length == cache.mem.Length && memDiff != cache.mem
      && readHit <= readCount && writeHit <= writeCount
    }

    /** Both memories agree, in the only sense that matters: what the cached one would hold if every dirty
        line were written back. */
    ghost predicate InStep()
      reads this, cache, cache.lines, cache.mem, memDiff
    {
      Valid() && memDiff[..] == cache.contents
    }

    ghost function Misses(): int
      reads this
    {
      (readCount - readHit) + (writeCount - writeHit)
    }

    /** One cycle per access, 25 per block read, 6 per block written back. */
    ghost predicate Accounted()
      reads this, cache, cache.lines
    {
      && cycleCnt == readCount + writeCount + 25 * Misses() + 6 * writeBacks
      && writeBacks + DirtyLines(cache.lines[..]) <= writeCount
    }

    /** init_mem and init_cache: both memories start with the same bytes. */
    constructor (totalSizeWidth: nat, associativityWidth: nat, addrBits: nat, memory: array<byte>, copy: array<byte>,
                 junk: nat -> nat)
      requires BLOCK_WIDTH + associativityWidth <= totalSizeWidth <= addrBits + associativityWidth
      requires memory.Length <= Pow2(addrBits) && memory.Length % BLOCK_SIZE == 0
      requires copy != memory && copy[..] == memory[..]
      ensures InStep() && Accounted() && cache.contents == memory[..] && cache.mem == memory && memDiff == copy
      ensures cache.Held() == Directory(map[], {}) && readHit == writeHit == readCount == writeCount == 0
    {
      var c := new LineStore(totalSizeWidth, associativityWidth, addrBits, memory, junk);
      cache, memDiff := c, copy;
      cycleCnt, readHit, readCount, writeHit, writeCount, writeBacks := 0, 0, 0, 0, 0, 0;
      NoDirtyLines(c.lines[..]);
    }

    /** The miss path with its charges: 6 cycles if a block goes back, 25 for the block read. */
    method Miss(addr: nat, rand: nat) returns (i: nat)
      requires Valid() && addr < cache.mem.Length && GetBlockNum(cache.g, addr) !in cache.place
      modifies this`cycleCnt, this`writeBacks, cache`place, cache.lines, cache.mem
      ensures Valid() && i < cache.lines.Length && cache.lines[i].valid && !cache.lines[i].dirty
      ensures BlockOf(cache.g, cache.lines[i].tag, i) == GetBlockNum(cache.g, addr)
      ensures cycleCnt == old(cycleCnt) + 25 + 6 * (writeBacks - old(writeBacks))
      ensures writeBacks == old(writeBacks) + WriteBackOf(cache.g, old(cache.Held()), addr, rand)
      ensures cache.Held() == Touched(cache.g, old(cache.Held()), addr, false, rand)
      ensures writeBacks + DirtyLines(cache.lines[..]) == old(writeBacks + DirtyLines(cache.lines[..]))
    {
      var wroteBack;
      i, wroteBack := cache.Refill(addr, rand);
      DirtyUpdate(old(cache.lines[..]), i, cache.lines[i]);
      Charge(wroteBack);
    }

    method Charge(wroteBack: bool)
      modifies this`cycleCnt, this`writeBacks
      ensures writeBacks == old(writeBacks) + if wroteBack then 1 else 0
      ensures cycleCnt == old(cycleCnt) + 25 + if wroteBack then 6 else 0
    {
      if wroteBack {
        cycleCnt, writeBacks := cycleCnt + 6, writeBacks + 1;
      }
      cycleCnt := cycleCnt + 25;
    }

    /** get4Bytes on a line that holds the block of addr reads the word from the contents. */
    method Get4Bytes(addr: nat, i: nat) returns (w: nat)
      requires Valid() && addr < cache.mem.Length && i < cache.lines.Length && cache.lines[i].valid
      requires BlockOf(cache.g, cache.lines[i].tag, i) == GetBlockNum(cache.g, addr)
      ensures Align(addr) + 4 <= |cache.contents| && w == FlatRead(cache.contents, addr)
    {
      AddressParts(cache.g, addr);
      WordInBlock(cache.contents, addr, 0);
      w := Load32(cache.lines[i].data, Align(GetBlock(addr)));
    }

    /** cache_read: the word the flat memory would give, for every choice of victim. */
    method CacheRead(addr: nat, rand: nat) returns (w: nat)
      requires Valid() && addr < cache.mem.Length
      modifies this`cycleCnt, this`readCount, this`readHit, this`writeBacks, cache`place, cache.lines, cache.mem
      ensures Valid() && Align(addr) + 4 <= |cache.contents| && w == FlatRead(cache.contents, addr)
      ensures readCount == old(readCount) + 1 && readHit == old(readHit) + HitOf(cache.g, old(cache.Held()), addr)
      ensures writeBacks == old(writeBacks) + WriteBackOf(cache.g, old(cache.Held()), addr, rand)
      ensures cycleCnt + 1 == old(cycleCnt) + CyclesOf(cache.g, old(cache.Held()), addr, rand)
      ensures cache.Held() == Touched(cache.g, old(cache.Held()), addr, false, rand)
      ensures writeBacks + DirtyLines(cache.lines[..]) == old(writeBacks + DirtyLines(cache.lines[..]))
    {
      readCount := readCount + 1;
      var hit := cache.FindLine(addr);
      var i: nat;
      if hit.Some? {
        readHit := readHit + 1;
        i := hit.value;
      } else {
        i := Miss(addr, rand);
      }
      w := Get4Bytes(addr, i);
    }

    /** write4Bytes, and the dirty mark both callers set. */
    method Write4Bytes(addr: nat, i: nat, data: nat, mask: nat)
      requires Valid() && addr < cache.mem.Length && i < cache.lines.Length && cache.lines[i].valid && mask < WORD
      requires BlockOf(cache.g, cache.lines[i].tag, i) == GetBlockNum(cache.g, addr)
      modifies cache`contents, cache.lines
      ensures Valid() && Align(addr) + 4 <= |old(cache.contents)|
      ensures cache.contents == FlatWrite(old(cache.contents), addr, data, mask)
      ensures DirtyLines(cache.lines[..]) <= DirtyLines(old(cache.lines[..])) + 1
      ensures var d := old(cache.Held());
              cache.Held() == d.(dirty := d.dirty + {GetBlockNum(cache.g, addr)})
    {
      AddressParts(cache.g, addr);
      var off := Align(GetBlock(addr));
      var d := cache.lines[i].data;
      WordInBlock(cache.contents, addr, 0);
      var w := Blend(Load32(d, off), data, mask);
      WordInBlock(cache.contents, addr, w);
      ghost var before := cache.lines[..];
      cache.StoreLine(i, Store32(d, off, w));
      DirtyUpdate(before, i, cache.lines[i]);
    }

    /** cache_write: the contents change as the flat memory would, for every choice of victim. */
    method CacheWrite(addr: nat, data: nat, mask: nat, rand: nat)
      requires Valid() && addr < cache.mem.Length && mask < WORD
      modifies this`cycleCnt, this`writeCount, this`writeHit, this`writeBacks
      modifies cache`place, cache`contents, cache.lines, cache.mem
      ensures Valid() && Align(addr) + 4 <= |old(cache.contents)|
      ensures cache.contents == FlatWrite(old(cache.contents), addr, data, mask)
      ensures writeCount == old(writeCount) + 1
      ensures writeHit == old(writeHit) + HitOf(cache.g, old(cache.Held()), addr)
      ensures writeBacks == old(writeBacks) + WriteBackOf(cache.g, old(cache.Held()), addr, rand)
      ensures cycleCnt + 1 == old(cycleCnt) + CyclesOf(cache.g, old(cache.Held()), addr, rand)
      ensures cache.Held() == Touched(cache.g, old(cache.Held()), addr, true, rand)
      ensures writeBacks + DirtyLines(cache.lines[..]) <= old(writeBacks + DirtyLines(cache.lines[..])) + 1
    {
      writeCount := writeCount + 1;
      var hit := cache.FindLine(addr);
      var i: nat;
      if hit.Some? {
        writeHit := writeHit + 1;
        i := hit.value;
      } else {
        i := Miss(addr, rand);
      }
      Write4Bytes(addr, i, data, mask);
    }

    method CpuRead(addr: nat, len: nat, rand: nat) returns (r: nat)
      requires InStep() && Accounted() && addr < cache.mem.Length && len <= 4
      modifies this`cycleCnt, this`readCount, this`readHit, this`writeBacks, cache`place, cache.lines, cache.mem
      ensures InStep() && Accounted() && cache.contents == old(cache.contents)
      ensures Align(addr) + 4 <= |cache.contents| && r == CpuFlatRead(cache.contents, addr, len)
      ensures readCount == old(readCount) + 1 && readHit == old(readHit) + HitOf(cache.g, old(cache.Held()), addr)
      ensures writeBacks == old(writeBacks) + WriteBackOf(cache.g, old(cache.Held()), addr, rand)
      ensures cycleCnt == old(cycleCnt) + CyclesOf(cache.g, old(cache.Held()), addr, rand)
      ensures cache.Held() == Touched(cache.g, old(cache.Held()), addr, false, rand)
    {
      cycleCnt := cycleCnt + 1;
      var w := CacheRead(addr, rand);
      r := And(Shr(w, OffsetBits(addr)), LenMask(len));
    }

    method CpuWrite(addr: nat, len: nat, data: nat, rand: nat)
      requires InStep() && Accounted() && addr < cache.mem.Length && len <= 4
      modifies this`cycleCnt, this`writeCount, this`writeHit, this`writeBacks
      modifies cache`place, cache`contents, cache.lines, cache.mem
      ensures Valid() && Accounted() && Align(addr) + 4 <= |old(cache.contents)|
      ensures cache.contents == CpuFlatWrite(old(cache.contents), addr, len, data)
      ensures writeCount == old(writeCount) + 1
      ensures writeHit == old(writeHit) + HitOf(cache.g, old(cache.Held()), addr)
      ensures writeBacks == old(writeBacks) + WriteBackOf(cache.g, old(cache.Held()), addr, rand)
      ensures cycleCnt == old(cycleCnt) + CyclesOf(cache.g, old(cache.Held()), addr, rand)
      ensures cache.Held() == Touched(cache.g, old(cache.Held()), addr, true, rand)
    {
      cycleCnt := cycleCnt + 1;
      CacheWrite(addr, Shl32(data, OffsetBits(addr)), Shl32(LenMask(len), OffsetBits(addr)), rand);
    }

    /** The bytes from addr on, up to the end of the word, and zeros above them. */
    method CpuUncacheRead(addr: nat, len: nat) returns (r: nat)
      requires Align(addr) + 4 <= memDiff.Length && len <= 4
      ensures r < WORD && r == CpuFlatRead(memDiff[..], addr, len)
      ensures forall j :: 0 <= j < 4 ==>
                Bytes32(r)[j] == if j < len && addr % 4 + j < 4 then memDiff[addr + j] else 0
    {
      var w := Load32(memDiff[..], Align(addr));
      r := And(Shr(w, OffsetBits(addr)), LenMask(len));
      AndBelow(Shr(w, OffsetBits(addr)), LenMask(len));
      forall j | 0 <= j < 4
        ensures Bytes32(r)[j] == if j < len && addr % 4 + j < 4 then memDiff[addr + j] else 0
      {
        CpuFlatReadBytes(memDiff[..], addr, len, j);
      }
    }

    method CpuUncacheWrite(addr: nat, len: nat, data: nat)
      requires Align(addr) + 4 <= memDiff.Length && len <= 4
      modifies memDiff
      ensures memDiff[..] == CpuFlatWrite(old(memDiff[..]), addr, len, data)
    {
      var a := Align(addr);
      ghost var before := memDiff[..];
      var w := Blend(Load32(memDiff[..], a), Shl32(data, OffsetBits(addr)), Shl32(LenMask(len), OffsetBits(addr)));
      var b := Bytes32(w);
      memDiff[a], memDiff[a + 1], memDiff[a + 2], memDiff[a + 3] := b[0], b[1], b[2], b[3];
      assert memDiff[..] == Store32(before, a, w);
    }

    /** trace_exec with is_check: the assertion it makes always holds. */
    method TraceExec(t: Access, rand: nat)
      requires InStep() && Accounted() && t.addr < cache.mem.Length && t.len <= 4
      modifies this, cache`place, cache`contents, cache.lines, cache.mem, memDiff
      ensures InStep() && Accounted()
      ensures Align(t.addr) + 4 <= |old(cache.contents)|
      ensures cache.contents == if t.isWrite then CpuFlatWrite(old(cache.contents), t.addr, t.len, t.data)
                                else old(cache.contents)
      ensures var d, hit := old(cache.Held()), HitOf(cache.g, old(cache.Held()), t.addr);
              && cache.Held() == Touched(cache.g, d, t.addr, t.isWrite, rand)
              && readCount == old(readCount) + (if t.isWrite then 0 else 1)
              && readHit == old(readHit) + (if t.isWrite then 0 else hit)
              && writeCount == old(writeCount) + (if t.isWrite then 1 else 0)
              && writeHit == old(writeHit) + (if t.isWrite then hit else 0)
              && writeBacks == old(writeBacks) + WriteBackOf(cache.g, d, t.addr, rand)
              && cycleCnt == old(cycleCnt) + CyclesOf(cache.g, d, t.addr, rand)
    {
      WordInBlock(cache.contents, t.addr, 0);
      if t.isWrite {
        CpuWrite(t.addr, t.len, t.data, rand);
        CpuUncacheWrite(t.addr, t.len, t.data);
      } else {
        var ret := CpuRead(t.addr, t.len, rand);
        var retUncache := CpuUncacheRead(t.addr, t.len);
        assert ret == retUncache;
      }
    }

    /** Any trace, any victims: every checked read agrees, and at the end the cached memory holds what the
        trace makes of a flat memory, and the counters what the trace makes of the directory. */
    method RunTrace(trace: seq<Access>, rands: seq<nat>)
      requires InStep() && Accounted() && |rands| == |trace| && InRange(trace, cache.mem.Length)
      modifies this, cache`place, cache`contents, cache.lines, cache.mem, memDiff
      ensures InStep() && Accounted() && InRange(trace, |old(cache.contents)|)
      ensures cache.contents == FlatTrace(old(cache.contents), trace)
      ensures var y := Tallied(cache.g, old(cache.Held()), trace, rands);
              && cache.Held() == y.d && writeBacks == old(writeBacks) + y.writeBacks
              && readHit == old(readHit) + y.readHits && writeHit == old(writeHit) + y.writeHits
      ensures readCount + writeCount == old(readCount + writeCount) + |trace|
    {
      ghost var start, d, hits, wbs := cache.contents, cache.Held(), (readHit, writeHit), writeBacks;
      for i := 0 to |trace|
        invariant InStep() && Accounted() && |start| == cache.mem.Length
        invariant FlatTrace(start, trace[..i]) == cache.contents
        invariant var y := Tallied(cache.g, d, trace[..i], rands[..i]);
                  && cache.Held() == y.d && writeBacks == wbs + y.writeBacks
                  && readHit == hits.0 + y.readHits && writeHit == hits.1 + y.writeHits
        invariant readCount + writeCount == old(readCount + writeCount) + i
      {
        hide *;
        OneMore(cache.g, start, d, trace, rands, i);
        TraceExec(trace[i], rands[i]);
      }
      assert trace[..|trace|] == trace && rands[..|trace|] == rands;
    }

    /** check_diff: reading every word back through the cache finds no difference. */
    method CheckDiff(rands: nat -> nat)
      requires InStep() && Accounted()
      modifies this, cache`place, cache.lines, cache.mem
      ensures InStep() && Accounted() && cache.contents == old(cache.contents)
    {
      hide *;
      var addr := 0;
      while addr < cache.mem.Length
        invariant InStep() && Accounted() && addr % 4 == 0 && cache.contents == old(cache.contents)
      {
        var ret := CpuRead(addr, 4, rands(addr));
        var retUncache := CpuUncacheRead(addr, 4);
        assert ret == retUncache;
        addr := addr + 4;
      }
    }
  }

  // What one more access of the trace adds to the flat memory, the directory and the counts.
  lemma OneMore(g: Geometry, m: seq<byte>, d: Directory, trace: seq<Access>, rands: seq<nat>, n: nat)
    requires g.groupWidth + BLOCK_WIDTH <= g.addrBits && |rands| == |trace| && n < |trace| && InRange(trace, |m|)
    ensures InRange(trace[..n], |m|) && InRange(trace[..n + 1], |m|)
    ensures trace[n].addr < |m| && trace[n].len <= 4 && Align(trace[n].addr) + 4 <= |m|
    ensures var t, before := trace[n], FlatTrace(m, trace[..n]);
            FlatTrace(m, trace[..n + 1]) == if t.isWrite then CpuFlatWrite(before, t.addr, t.len, t.data) else before
    ensures var t, y := trace[n], Tallied(g, d, trace[..n], rands[..n]);
            var hit := HitOf(g, y.d, t.addr);
            Tallied(g, d, trace[..n + 1], rands[..n + 1]) ==
            Tally(Touched(g, y.d, t.addr, t.isWrite, rands[n]),
                  y.readHits + (if t.isWrite then 0 else hit), y.writeHits + (if t.isWrite then hit else 0),
                  y.writeBacks + WriteBackOf(g, y.d, t.addr, rands[n]))
  {
    assert trace[..n + 1][..n] == trace[..n] && rands[..n + 1][..n] == rands[..n];
    assert trace[..n + 1][n] == trace[n];
  }

  /** The block of an access is in the cache after it, whatever it replaced. */
  lemma HeldAfter(g: Geometry, d: Directory, addr: nat, isWrite: bool, rand: nat)
    requires g.groupWidth + BLOCK_WIDTH <= g.addrBits
    ensures GetBlockNum(g, addr) in Touched(g, d, addr, isWrite, rand).place
  {
  }

  /** What an access is charged: one cycle if its block is held, 26 if it is not, and 32 if besides the line it takes
      has to be written back. */
  lemma Charges(g: Geometry, d: Directory, addr: nat, rand: nat)
    requires g.groupWidth + BLOCK_WIDTH <= g.addrBits
    ensures if GetBlockNum(g, addr) in d.place then HitOf(g, d, addr) == 1 && CyclesOf(g, d, addr, rand) == 1
            else HitOf(g, d, addr) == 0 &&
                 CyclesOf(g, d, addr, rand) == if Unsaved(d, Victim(g, addr, rand)) then 32 else 26
  {
  }

  /** So an access to the block of the access just before it hits, and takes one cycle. */
  lemma HitAgain(g: Geometry, d: Directory, t: Access, u: Access, r: nat, r': nat)
    requires g.groupWidth + BLOCK_WIDTH <= g.addrBits && GetBlockNum(g, t.addr) == GetBlockNum(g, u.addr)
    ensures var d' := Touched(g, d, t.addr, t.isWrite, r);
            HitOf(g, d', u.addr) == 1 && WriteBackOf(g, d', u.addr, r') == 0 && CyclesOf(g, d', u.addr, r') == 1
  {
    HeldAfter(g, d, t.addr, t.isWrite, r);
  }

  // Access i of the trace misses, in a cache that was empty at first.
  ghost predicate Misses(g: Geometry, trace: seq<Access>, rands: seq<nat>, i: nat)
    requires g.groupWidth + BLOCK_WIDTH <= g.addrBits && |rands| == |trace| && i < |trace|
  {
    GetBlockNum(g, trace[i].addr) !in Tallied(g, Directory(map[], {}), trace[..i], rands[..i]).d.place
  }

  // Access i misses and takes line v.
  ghost predicate Replaces(g: Geometry, trace: seq<Access>, rands: seq<nat>, i: nat, v: nat)
    requires g.groupWidth + BLOCK_WIDTH <= g.addrBits && |rands| == |trace| && i < |trace|
  {
    Misses(g, trace, rands, i) && Victim(g, trace[i].addr, rands[i]) == v
  }

  // Access i brings block b into line v.
  ghost predicate BringsIn(g: Geometry, trace: seq<Access>, rands: seq<nat>, i: nat, b: nat, v: nat)
    requires g.groupWidth + BLOCK_WIDTH <= g.addrBits && |rands| == |trace| && i < |trace|
  {
    Replaces(g, trace, rands, i, v) && GetBlockNum(g, trace[i].addr) == b
  }

  // Access i brings block b into line v, and no later one replaces it.
  ghost predicate LastIn(g: Geometry, trace: seq<Access>, rands: seq<nat>, i: nat, b: nat, v: nat)
    requires g.groupWidth + BLOCK_WIDTH <= g.addrBits && |rands| == |trace| && i < |trace|
  {
    BringsIn(g, trace, rands, i, b, v) && forall j :: i < j < |trace| ==> !Replaces(g, trace, rands, j, v)
  }

  lemma Prefix(g: Geometry, trace: seq<Access>, rands: seq<nat>, n: nat, i: nat, b: nat, v: nat)
    requires g.groupWidth + BLOCK_WIDTH <= g.addrBits && |rands| == |trace| && i < n < |trace|
    ensures Replaces(g, trace[..n], rands[..n], i, v) == Replaces(g, trace, rands, i, v)
    ensures BringsIn(g, trace[..n], rands[..n], i, b, v) == BringsIn(g, trace, rands, i, b, v)
  {
    assert trace[..n][..i] == trace[..i] && rands[..n][..i] == rands[..i];
  }

  // What one access does to the place of block b.
  lemma TouchedPlace(g: Geometry, d: Directory, t: Access, rand: nat, b: nat, v: nat)
    requires g.groupWidth + BLOCK_WIDTH <= g.addrBits
    ensures var p, p' := d.place, Touched(g, d, t.addr, t.isWrite, rand).place;
            var bt, vt := GetBlockNum(g, t.addr), Victim(g, t.addr, rand);
            b in p' && p'[b] == v <==>
            if bt in p then b in p && p[b] == v else (b == bt && v == vt) || (b in p && p[b] == v != vt)
  {
    hide GetBlockNum, Victim;
  }

  /** A block is in the cache exactly if some access has brought it into its line and no miss has replaced it since. */
  lemma {:induction false} HeldIff(g: Geometry, trace: seq<Access>, rands: seq<nat>, b: nat, v: nat)
    requires g.groupWidth + BLOCK_WIDTH <= g.addrBits && |rands| == |trace|
    ensures var p := Tallied(g, Directory(map[], {}), trace, rands).d.place;
            b in p && p[b] == v <==> exists i: nat :: i < |trace| && LastIn(g, trace, rands, i, b, v)
  {
    if trace != [] {
      var n := |trace| - 1;
      var ts, rs := trace[..n], rands[..n];
      HeldIff(g, ts, rs, b, v);
      var p := Tallied(g, Directory(map[], {}), ts, rs).d.place;
      assert Replaces(g, trace, rands, n, v) <==>
             GetBlockNum(g, trace[n].addr) !in p && Victim(g, trace[n].addr, rands[n]) == v;
      forall i: nat | i < n
        ensures LastIn(g, trace, rands, i, b, v) <==>
                LastIn(g, ts, rs, i, b, v) && !Replaces(g, trace, rands, n, v)
      {
        LastInOn(g, trace, rands, i, b, v);
      }
      assert LastIn(g, trace, rands, n, b, v) <==> BringsIn(g, trace, rands, n, b, v);
      TouchedPlace(g, Tallied(g, Directory(map[], {}), ts, rs).d, trace[n], rands[n], b, v);
      hide Replaces, LastIn, GetBlockNum, Victim, Touched;
    }
  }

  lemma LastInOn(g: Geometry, trace: seq<Access>, rands: seq<nat>, i: nat, b: nat, v: nat)
    requires g.groupWidth + BLOCK_WIDTH <= g.addrBits && |rands| == |trace| && i < |trace| - 1
    ensures var n := |trace| - 1;
            LastIn(g, trace, rands, i, b, v) <==>
            LastIn(g, trace[..n], rands[..n], i, b, v) && !Replaces(g, trace, rands, n, v)
  {
    var n := |trace| - 1;
    Prefix(g, trace, rands, n, i, b, v);
    forall j | i < j < n ensures Replaces(g, trace[..n], rands[..n], j, v) == Replaces(g, trace, rands, j, v) {
      Prefix(g, trace, rands, n, j, b, v);
    }
    hide Replaces, BringsIn;
  }

  /** All accesses of the trace fall into one block. */
  predicate OneBlock(g: Geometry, trace: seq<Access>)
    requires g.groupWidth + BLOCK_WIDTH <= g.addrBits
  {
    forall i, j :: 0 <= i < j < |trace| ==> GetBlockNum(g, trace[i].addr) == GetBlockNum(g, trace[j].addr)
  }

  /** A trace that stays in one block misses once if the block was absent, and never otherwise. */
  lemma {:induction false} OneBlockHits(g: Geometry, d: Directory, trace: seq<Access>, rands: seq<nat>)
    requires g.groupWidth + BLOCK_WIDTH <= g.addrBits && |rands| == |trace| > 0 && OneBlock(g, trace)
    ensures var y := Tallied(g, d, trace, rands);
            && y.readHits + y.writeHits + 1 == |trace| + HitOf(g, d, trace[0].addr)
            && GetBlockNum(g, trace[0].addr) in y.d.place
  {
    var n := |trace| - 1;
    var y := Tallied(g, d, trace[..n], rands[..n]);
    if n == 0 {
      assert trace[..0] == [] && rands[..0] == [];
      HeldAfter(g, d, trace[0].addr, trace[0].isWrite, rands[0]);
    } else {
      OneBlockHits(g, d, trace[..n], rands[..n]);
      HeldAfter(g, y.d, trace[n].addr, trace[n].isWrite, rands[n]);
    }
  }

  predicate InRange(trace: seq<Access>, n: nat) {
    n % 4 == 0 && forall i :: 0 <= i < |trace| ==> trace[i].addr < n && trace[i].len <= 4
  }

  /** What a trace makes of a flat memory. */
  function FlatTrace(m: seq<byte>, trace: seq<Access>): (r: seq<byte>)
    requires InRange(trace, |m|)
    ensures |r| == |m|
  {
    if trace == [] then m
    else
      var before := FlatTrace(m, trace[..|trace| - 1]);
      var t := trace[|trace| - 1];
      if t.isWrite then CpuFlatWrite(before, t.addr, t.len, t.data) else before
  }

  /* ---- what an access to the flat memory means ---- */

  // 256^k
  function Scale(k: nat): (p: nat)
    requires k < 4
    ensures p > 0
  {
    match k
    case 0 => 1
    case 1 => 0x100
    case 2 => 0x1_0000
    case _ => 0x100_0000
  }

  lemma PowScale(k: nat)
    requires k < 4
    ensures Pow2(8 * k) == Scale(k)
  {
    match k
    case 0 => assert Pow2(0) == 1;
    case 1 => assert Pow2(8) == 0x100;
    case 2 => assert Pow2(16) == 0x1_0000;
    case _ => assert Pow2(24) == 0x100_0000;
  }

  lemma WordByte(w: nat, k: nat)
    requires k < 4
    ensures ByteOf(w, k) == Bytes32(w)[k]
  {
    PowScale(k);
  }

  /** A word is its four bytes; a longer number is four bytes and the rest, */
  lemma Bytes32Sum(w: nat)
    ensures var b := Bytes32(w);
            w == b[0] as nat + 0x100 * b[1] as nat + 0x1_0000 * b[2] as nat + 0x100_0000 * b[3] as nat
                 + WORD * (w / WORD)
  {
    DivDiv(w, 0x100, 0x100);
    DivDiv(w, 0x1_0000, 0x100);
    DivDiv(w, 0x100_0000, 0x100);
    var w1, w2, w3 := w / 0x100, w / 0x1_0000, w / 0x100_0000;
    assert w == 0x100 * w1 + w % 0x100;
    assert w1 == 0x100 * w2 + w1 % 0x100;
    assert w2 == 0x100 * w3 + w2 % 0x100;
    assert w3 == 0x100 * (w / WORD) + w3 % 0x100;
  }

  /** and no other four bytes and rest make it up. */
  lemma Bytes32Unique(w: nat, b0: nat, b1: nat, b2: nat, b3: nat, h: nat)
    requires b0 < 256 && b1 < 256 && b2 < 256 && b3 < 256
    requires w == b0 + 0x100 * b1 + 0x1_0000 * b2 + 0x100_0000 * b3 + WORD * h
    ensures Bytes32(w) == [b0, b1, b2, b3]
    ensures w % WORD == w - WORD * h
  {
    var q3: nat := b3 + 0x100 * h;
    var q2 := b2 + 0x100 * q3;
    var q1 := b1 + 0x100 * q2;
    DivModUnique(w, 0x100, q1, b0);
    DivModUnique(w, 0x1_0000, q2, b0 + 0x100 * b1);
    DivModUnique(w, 0x100_0000, q3, b0 + 0x100 * b1 + 0x1_0000 * b2);
    DivModUnique(w, WORD, h, w - WORD * h);
    DivModUnique(q1, 0x100, q2, b1);
    DivModUnique(q2, 0x100, q3, b2);
    DivModUnique(q3, 0x100, h, b3);
  }

  lemma LoadBytes(m: seq<byte>, a: nat, k: nat)
    requires a + 4 <= |m| && k < 4
    ensures Bytes32(Load32(m, a))[k] == m[a + k]
  {
    Bytes32Unique(Load32(m, a), m[a], m[a + 1], m[a + 2], m[a + 3], 0);
  }

  /** Shifting left by o bytes moves byte j - o to place j. */
  lemma ShiftedByte(x: nat, o: nat, j: nat)
    requires o < 4 && j < 4
    ensures Bytes32(Shl32(x, 8 * o))[j] == if j < o then 0 else Bytes32(x)[j - o]
  {
    PowScale(o);
    ScaledBytes(x, o);
  }

  lemma ScaledBytes(x: nat, o: nat)
    requires o < 4
    ensures var b := Bytes32(x);
            Bytes32((x * Scale(o)) % WORD) ==
            if o == 0 then b else if o == 1 then [0, b[0], b[1], b[2]]
            else if o == 2 then [0, 0, b[0], b[1]] else [0, 0, 0, b[0]]
  {
    var b, h := Bytes32(x), x / WORD;
    var b0: nat, b1: nat, b2: nat, b3: nat := b[0], b[1], b[2], b[3];
    Bytes32Sum(x);
    if o == 0 {
      Bytes32Unique(x, b0, b1, b2, b3, h);
      Bytes32Unique(x - WORD * h, b0, b1, b2, b3, 0);
    } else if o == 1 {
      Bytes32Unique(x * 0x100, 0, b0, b1, b2, b3 + 0x100 * h);
      Bytes32Unique((x * 0x100) % WORD, 0, b0, b1, b2, 0);
    } else if o == 2 {
      Bytes32Unique(x * 0x1_0000, 0, 0, b0, b1, b2 + 0x100 * b3 + 0x1_0000 * h);
      Bytes32Unique((x * 0x1_0000) % WORD, 0, 0, b0, b1, 0);
    } else {
      Bytes32Unique(x * 0x100_0000, 0, 0, 0, b0, b1 + 0x100 * b2 + 0x1_0000 * b3 + 0x100_0000 * h);
      Bytes32Unique((x * 0x100_0000) % WORD, 0, 0, 0, b0, 0);
    }
  }

  lemma LenMaskBytes(len: nat, j: nat)
    requires len <= 4 && j < 4
    ensures Bytes32(LenMask(len))[j] == if j < len then 255 else 0
  {
    match len
    case 0 => assert Bytes32(0) == [0, 0, 0, 0];
    case 1 => assert Bytes32(0xff) == [255, 0, 0, 0];
    case 2 => assert Bytes32(0xffff) == [255, 255, 0, 0];
    case 3 => assert Bytes32(0xffffff) == [255, 255, 255, 0];
    case _ => assert Bytes32(0xffffffff) == [255, 255, 255, 255];
  }

  lemma ComplementByte(mask: nat, j: nat)
    requires mask < WORD && j < 4
    ensures Bytes32(WORD - 1 - mask)[j] == 255 - Bytes32(mask)[j]
  {
    Bytes32Sum(mask);
    var b := Bytes32(mask);
    assert mask / WORD == 0;
    Bytes32Unique(WORD - 1 - mask, 255 - b[0], 255 - b[1], 255 - b[2], 255 - b[3], 0);
  }

  lemma BlendByte(was: nat, data: nat, mask: nat, j: nat)
    requires mask < WORD && j < 4 && (Bytes32(mask)[j] == 0 || Bytes32(mask)[j] == 255)
    ensures Bytes32(Blend(was, data, mask))[j] == if Bytes32(mask)[j] == 0 then Bytes32(was)[j] else Bytes32(data)[j]
  {
    var other := WORD - 1 - mask;
    ComplementByte(mask, j);
    ByteOfOr(And(data, mask), And(was, other), j);
    ByteOfAnd(data, mask, j);
    ByteOfAnd(was, other, j);
    WordByte(Blend(was, data, mask), j);
    WordByte(data, j);
    WordByte(was, j);
    WordByte(mask, j);
    WordByte(other, j);
    AndByteMask(ByteOf(data, j));
    AndByteMask(ByteOf(was, j));
    OrZero(ByteOf(was, j));
    OrZero(ByteOf(data, j));
  }

  /** A write stores the low bytes of the data at addr and the addresses that follow, up to the end of the
      word, and nothing else. */
  lemma CpuFlatWriteBytes(m: seq<byte>, addr: nat, len: nat, data: nat, a: nat)
    requires Align(addr) + 4 <= |m| && len <= 4 && a < |m|
    ensures CpuFlatWrite(m, addr, len, data)[a] ==
            if addr <= a < addr + len && a < Align(addr) + 4 then Bytes32(data)[a - addr] else m[a]
  {
    var base, o := Align(addr), addr % 4;
    if base <= a < base + 4 {
      WrittenByte(Load32(m, base), o, len, data, a - base);
      LoadBytes(m, base, a - base);
    }
  }

  lemma WrittenByte(was: nat, o: nat, len: nat, data: nat, j: nat)
    requires o < 4 && len <= 4 && j < 4
    ensures Bytes32(Blend(was, Shl32(data, 8 * o), Shl32(LenMask(len), 8 * o)))[j] ==
            if o <= j < o + len then Bytes32(data)[j - o] else Bytes32(was)[j]
  {
    ShiftedByte(data, o, j);
    ShiftedByte(LenMask(len), o, j);
    if j >= o {
      LenMaskBytes(len, j - o);
    }
    BlendByte(was, Shl32(data, 8 * o), Shl32(LenMask(len), 8 * o), j);
  }

  /** A read gives the bytes at addr and after it, up to the end of the word, and no more than len. */
  lemma CpuFlatReadBytes(m: seq<byte>, addr: nat, len: nat, j: nat)
    requires Align(addr) + 4 <= |m| && len <= 4 && j < 4
    ensures Bytes32(CpuFlatRead(m, addr, len))[j] == if j < len && addr % 4 + j < 4 then m[addr + j] else 0
  {
    var w, o := Load32(m, Align(addr)), addr % 4;
    ReadByte(w, o, len, j);
    if o + j < 4 {
      LoadBytes(m, Align(addr), o + j);
    }
  }

  lemma ReadByte(w: nat, o: nat, len: nat, j: nat)
    requires w < WORD && o < 4 && len <= 4 && j < 4
    ensures Bytes32(And(Shr(w, 8 * o), LenMask(len)))[j] == if j < len && o + j < 4 then Bytes32(w)[o + j] else 0
  {
    var x := Shr(w, 8 * o);
    ByteOfAnd(x, LenMask(len), j);
    WordByte(And(x, LenMask(len)), j);
    WordByte(x, j);
    WordByte(LenMask(len), j);
    LenMaskBytes(len, j);
    AndByteMask(ByteOf(x, j));
    PowScale(o);
    ShiftedRight(w, o, j);
  }

  lemma ShiftedRight(w: nat, o: nat, j: nat)
    requires w < WORD && o < 4 && j < 4
    ensures Bytes32(w / Scale(o))[j] == if o + j < 4 then Bytes32(w)[o + j] else 0
  {
    var b := Bytes32(w);
    Bytes32Sum(w);
    assert w / WORD == 0;
    UpperBytes(w, b[0], b[1], b[2], b[3], o);
  }

  lemma UpperBytes(w: nat, b0: nat, b1: nat, b2: nat, b3: nat, o: nat)
    requires b0 < 256 && b1 < 256 && b2 < 256 && b3 < 256 && o < 4
    requires w == b0 + 0x100 * b1 + 0x1_0000 * b2 + 0x100_0000 * b3
    ensures Bytes32(w / Scale(o)) ==
            if o == 0 then [b0, b1, b2, b3] else if o == 1 then [b1, b2, b3, 0]
            else if o == 2 then [b2, b3, 0, 0] else [b3, 0, 0, 0]
  {
    if o == 0 {
      Bytes32Unique(w, b0, b1, b2, b3, 0);
    } else if o == 1 {
      DivModUnique(w, 0x100, b1 + 0x100 * b2 + 0x1_0000 * b3, b0);
      Bytes32Unique(b1 + 0x100 * b2 + 0x1_0000 * b3, b1, b2, b3, 0, 0);
    } else if o == 2 {
      DivModUnique(w, 0x1_0000, b2 + 0x100 * b3, b0 + 0x100 * b1);
      Bytes32Unique(b2 + 0x100 * b3, b2, b3, 0, 0, 0);
    } else {
      DivModUnique(w, 0x100_0000, b3, b0 + 0x100 * b1 + 0x1_0000 * b2);
      Bytes32Unique(b3, b3, 0, 0, 0, 0);
    }
  }

  /** What was written is what is read, when the access stays within one word. */
  lemma ReadAfterWrite(m: seq<byte>, addr: nat, len: nat, data: nat, j: nat)
    requires Align(addr) + 4 <= |m| && addr % 4 + len <= 4 && j < 4
    ensures Bytes32(CpuFlatRead(CpuFlatWrite(m, addr, len, data), addr, len))[j] ==
            if j < len then Bytes32(data)[j] else 0
  {
    CpuFlatReadBytes(CpuFlatWrite(m, addr, len, data), addr, len, j);
    if j < len {
      CpuFlatWriteBytes(m, addr, len, data, addr + j);
    }
  }
}
