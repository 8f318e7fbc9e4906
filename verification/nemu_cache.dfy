/**
 NEMU's memory behind the cache (nemu/src/memory/paddr.c:35-41, 476-520, 632-764) against the same memory
 without it (nemu/include/memory/host.h:21-39).  Addresses are offsets into pmem.
 */
module NemuCache {
  import opened Words
  import opened BlockCache

  predicate ValidLen(len: nat) { len == 1 || len == 2 || len == 4 || len == 8 }

  /** A little-endian integer and its bytes. */
  function LeValue(b: seq<byte>): nat {
    if b == [] then 0 else b[0] as nat + 256 * LeValue(b[1..])
  }

  function LeBytes(x: nat, len: nat): (b: seq<byte>)
    ensures |b| == len
  {
    if len == 0 then [] else [x % 256] + LeBytes(x / 256, len - 1)
  }

  lemma {:induction false} LeRoundTrip(x: nat, len: nat)
    ensures LeValue(LeBytes(x, len)) == Low(x, 8 * len)
  {
    if len == 0 {
      assert Pow2(0) == 1;
    } else {
      LeRoundTrip(x / 256, len - 1);
      Pow2Add(8, 8 * (len - 1));
      assert Pow2(8) == 256;
      LowByteFirst(x, Pow2(8 * (len - 1)));
      assert LeBytes(x, len)[1..] == LeBytes(x / 256, len - 1);
    }
  }

  lemma LowByteFirst(x: nat, p: nat)
    requires p > 0
    ensures x % (256 * p) == x % 256 + 256 * ((x / 256) % p)
  {
    var q, r := (x / 256) / p, (x / 256) % p;
    DivModSum(x / 256, p);
    MulAtLeast2(256, r, p);
    assert 256 * (q * p) == q * (256 * p);
    DivModUnique(x, 256 * p, q, 256 * r + x % 256);
  }

  function Splice(m: seq<byte>, a: nat, x: seq<byte>): (r: seq<byte>)
    requires a + |x| <= |m|
    ensures |r| == |m|
  {
    m[..a] + x + m[a + |x|..]
  }

  /** host_read, host_write */
  function HostRead(m: seq<byte>, a: nat, len: nat): nat
    requires ValidLen(len) ==> a + len <= |m|
  {
    if ValidLen(len) then LeValue(m[a..a + len]) else 0
  }

  function HostWrite(m: seq<byte>, a: nat, len: nat, data: nat): (r: seq<byte>)
    requires ValidLen(len) && a + len <= |m|
    ensures |r| == |m|
  {
    Splice(m, a, LeBytes(data, len))
  }

  /** The access stays within the block of its first byte. */
  predicate InOneBlock(a: nat, len: nat) { a % BLOCK_SIZE + len <= BLOCK_SIZE }

  lemma FieldInBlock(m: seq<byte>, a: nat, x: seq<byte>)
    requires a < |m| && |m| % BLOCK_SIZE == 0 && InOneBlock(a, |x|)
    ensures var b, off := a / BLOCK_SIZE, a % BLOCK_SIZE;
            && BLOCK_SIZE * b + BLOCK_SIZE <= |m| && a + |x| <= |m|
            && PutBlock(m, b, Splice(Block(m, b), off, x)) == Splice(m, a, x)
  {
    var b, off, n := a / BLOCK_SIZE, a % BLOCK_SIZE, |m| / BLOCK_SIZE;
    assert a == BLOCK_SIZE * b + off && |m| == BLOCK_SIZE * n;
    assert b < n;
  }

  lemma FieldOfBlock(m: seq<byte>, a: nat, len: nat)
    requires a < |m| && |m| % BLOCK_SIZE == 0 && InOneBlock(a, len)
    ensures var b, off := a / BLOCK_SIZE, a % BLOCK_SIZE;
            && BLOCK_SIZE * b + BLOCK_SIZE <= |m| && a + len <= |m|
            && Block(m, b)[off..off + len] == m[a..a + len]
  {
    var b, off, n := a / BLOCK_SIZE, a % BLOCK_SIZE, |m| / BLOCK_SIZE;
    assert a == BLOCK_SIZE * b + off && |m| == BLOCK_SIZE * n;
    assert b < n;
    SliceOfSlice(m, BLOCK_SIZE * b, BLOCK_SIZE * b + BLOCK_SIZE, off, len);
  }

  lemma SliceOfSlice(m: seq<byte>, p: nat, q: nat, i: nat, len: nat)
    requires p <= q <= |m| && i + len <= q - p
    ensures m[p..q][i..i + len] == m[p + i..p + i + len]
  {
    var s, x, y := m[p..q], m[p..q][i..i + len], m[p + i..p + i + len];
    forall k | 0 <= k < len ensures x[k] == y[k] {
      assert x[k] == s[i + k] && s[i + k] == m[p + (i + k)] && y[k] == m[p + i + k];
    }
    assert |x| == |y|;
  }

  datatype Access = Access(addr: nat, len: nat, isWrite: bool, data: nat)

  predicate Supported(t: Access, n: nat) {
    t.addr < n && InOneBlock(t.addr, t.len) && (t.isWrite ==> ValidLen(t.len))
  }

  // What is held, and what of it is dirty, once the block of addr has been fetched.
  function Fetched(g: Geometry, d: Directory, addr: nat, rand: nat): Directory
    requires g.groupWidth + BLOCK_WIDTH <= g.addrBits
  {
    var b := GetBlockNum(g, addr);
    if b in d.place then d else Filled(d, b, Victim(g, addr, rand))
  }

  class CachedMemory {
    const cache: LineStore

    constructor (c: LineStore)
      ensures cache == c
    {
      cache := c;
    }

    /** The line both entry points end up with: found, or refilled. */
    method Fetch(addr: nat, rand: nat) returns (i: nat)
      requires cache.Valid() && addr < cache.mem.Length
      modifies cache`place, cache.lines, cache.mem
      ensures cache.Valid() && i < cache.lines.Length && cache.lines[i].valid
      ensures BlockOf(cache.g, cache.lines[i].tag, i) == GetBlockNum(cache.g, addr)
      ensures cache.Held() == Fetched(cache.g, old(cache.Held()), addr, rand)
    {
      var hit := cache.FindLine(addr);
      if hit.Some? {
        i := hit.value;
      } else {
        var wroteBack;
        i, wroteBack := cache.Refill(addr, rand);
      }
    }

    /** cache_read with getlenBytes: what pmem_read gives on the memory's contents. */
    method CacheRead(addr: nat, len: nat, rand: nat) returns (r: nat)
      requires cache.Valid() && addr < cache.mem.Length && InOneBlock(addr, len)
      modifies cache`place, cache.lines, cache.mem
      ensures cache.Valid() && addr + len <= |cache.contents| && r == HostRead(cache.contents, addr, len)
      ensures cache.Held() == Fetched(cache.g, old(cache.Held()), addr, rand)
    {
      var i := Fetch(addr, rand);
      AddressParts(cache.g, addr);
      FieldOfBlock(cache.contents, addr, len);
      r := if ValidLen(len) then LeValue(cache.lines[i].data[GetBlock(addr)..GetBlock(addr) + len]) else 0;
    }

    /** cache_write with writelenBytes: what pmem_write does to the memory's contents. */
    method CacheWrite(addr: nat, data: nat, len: nat, rand: nat)
      requires cache.Valid() && addr < cache.mem.Length && InOneBlock(addr, len) && ValidLen(len)
      modifies cache`place, cache`contents, cache.lines, cache.mem
      ensures cache.Valid() && addr + len <= |old(cache.contents)|
      ensures cache.contents == HostWrite(old(cache.contents), addr, len, data)
      ensures var d := Fetched(cache.g, old(cache.Held()), addr, rand);
              cache.Held() == d.(dirty := d.dirty + {GetBlockNum(cache.g, addr)})
    {
      var i := Fetch(addr, rand);
      AddressParts(cache.g, addr);
      FieldInBlock(cache.contents, addr, LeBytes(data, len));
      cache.StoreLine(i, Splice(cache.lines[i].data, GetBlock(addr), LeBytes(data, len)));
    }

    /** Any run of paddr_read and paddr_write on pmem: the reads return what they return without the
        cache, for every choice of victims. */
    method Run(trace: seq<Access>, rands: seq<nat>) returns (outs: seq<nat>)
      requires cache.Valid() && |rands| == |trace|
      requires forall k :: 0 <= k < |trace| ==> Supported(trace[k], cache.mem.Length)
      modifies cache`place, cache`contents, cache.lines, cache.mem
      ensures cache.Valid() && |old(cache.contents)| == cache.mem.Length
      ensures Runs(|old(cache.contents)|, trace)
      ensures outs == Reads(old(cache.contents), trace) && cache.contents == After(old(cache.contents), trace)
    {
      ghost var start := cache.contents;
      assert Runs(|start|, trace);
      outs := [];
      for k := 0 to |trace|
        invariant cache.Valid() && |start| == cache.mem.Length
        invariant outs == Reads(start, trace[..k]) && cache.contents == After(start, trace[..k])
      {
        var t := trace[k];
        assert trace[..k + 1][..k] == trace[..k];
        assert Supported(t, cache.mem.Length);
        if t.isWrite {
          CacheWrite(t.addr, t.data, t.len, rands[k]);
        } else {
          var r := CacheRead(t.addr, t.len, rands[k]);
          outs := outs + [r];
        }
      }
      assert trace[..|trace|] == trace;
    }
  }

  /** Every access of the run is supported on a memory of n bytes, a multiple of the block size. */
  ghost predicate Runs(n: nat, trace: seq<Access>) {
    n % BLOCK_SIZE == 0 && forall k :: 0 <= k < |trace| ==> Supported(trace[k], n)
  }

  lemma SupportedFits(t: Access, n: nat)
    requires Supported(t, n) && n % BLOCK_SIZE == 0
    ensures t.addr + t.len <= n
  {
    var b := t.addr / BLOCK_SIZE;
    assert t.addr == BLOCK_SIZE * b + t.addr % BLOCK_SIZE;
  }

  /** The memory after a run without a cache, and what its reads returned. */
  ghost function After(m: seq<byte>, trace: seq<Access>): (r: seq<byte>)
    requires Runs(|m|, trace)
    ensures |r| == |m|
  {
    if trace == [] then m
    else
      var before, t := After(m, trace[..|trace| - 1]), trace[|trace| - 1];
      SupportedFits(t, |m|);
      if t.isWrite then HostWrite(before, t.addr, t.len, t.data) else before
  }

  ghost function Reads(m: seq<byte>, trace: seq<Access>): seq<nat>
    requires Runs(|m|, trace)
  {
    if trace == [] then []
    else
      var front, t := trace[..|trace| - 1], trace[|trace| - 1];
      SupportedFits(t, |m|);
      if t.isWrite then Reads(m, front) else Reads(m, front) + [HostRead(After(m, front), t.addr, t.len)]
  }
}
