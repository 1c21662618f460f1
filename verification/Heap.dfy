/** The kernel heap in memory: three-word headers in front of each payload, linked by address. */
module Heap {
  import opened Bytes
  import opened Options
  import opened Blocks

  // ---- headers in memory ------------------------------------------------------------------

  /** Index of the word at an address of the region. */
  function WordOf(base: nat, addr: nat): nat
    requires base <= addr
  {
    (addr - base) / 4
  }

  function NextAddr(bs: seq<Block>, i: nat): nat
    requires i < |bs|
  {
    if i + 1 < |bs| then bs[i + 1].addr else 0
  }

  /** The header of block `i`: size, free flag and address of the next header. */
  predicate Header(m: seq<nat>, base: nat, bs: seq<Block>, i: nat)
    requires i < |bs| && base <= bs[i].addr
  {
    var w := WordOf(base, bs[i].addr);
    && w + 3 <= |m| && m[w] == bs[i].size && m[w + 1] == (if bs[i].free then 1 else 0)
    && m[w + 2] == NextAddr(bs, i)
  }

  predicate Rep(m: seq<nat>, base: nat, bs: seq<Block>) {
    Aligned(bs, base) && forall i :: 0 <= i < |bs| ==> Header(m, base, bs, i)
  }

  /** The words that hold the payload of `b` are the same in both memories. */
  predicate SamePayload(m: seq<nat>, m': seq<nat>, base: nat, b: Block)
    requires base <= b.addr
  {
    |m'| == |m| && forall w :: WordOf(base, b.Payload()) <= w < |m| && 4 * w < b.End() - base ==> m'[w] == m[w]
  }

  /** The words of the header at `addr`. */
  predicate InHeader(base: nat, addr: nat, w: nat)
    requires base <= addr
  {
    WordOf(base, addr) <= w < WordOf(base, addr) + 3
  }

  /** Memories that agree outside the headers at `a` and `b`. */
  predicate AgreeOffHeaders(m: seq<nat>, m': seq<nat>, base: nat, a: nat, b: nat)
    requires base <= a && base <= b
  {
    |m'| == |m| && forall w :: 0 <= w < |m| && !InHeader(base, a, w) && !InHeader(base, b, w) ==> m'[w] == m[w]
  }

  lemma HeaderFrame(m: seq<nat>, m': seq<nat>, base: nat, a: nat, b: nat, bs: seq<Block>, j: nat)
    requires base <= a && base <= b && AgreeOffHeaders(m, m', base, a, b)
    requires j < |bs| && base <= bs[j].addr && Header(m, base, bs, j)
    requires (bs[j].addr - base) % 4 == 0 && (a - base) % 4 == 0 && (b - base) % 4 == 0
    requires bs[j].addr + HDR <= a || a + HDR <= bs[j].addr
    requires bs[j].addr + HDR <= b || b + HDR <= bs[j].addr
    ensures Header(m', base, bs, j)
  {
    var w := WordOf(base, bs[j].addr);
    assert !InHeader(base, a, w) && !InHeader(base, a, w + 1) && !InHeader(base, a, w + 2);
    assert !InHeader(base, b, w) && !InHeader(base, b, w + 1) && !InHeader(base, b, w + 2);
  }

  lemma PayloadFrame(m: seq<nat>, m': seq<nat>, base: nat, a: nat, b: nat, x: Block)
    requires base <= a && base <= b && AgreeOffHeaders(m, m', base, a, b) && base <= x.addr
    requires (x.addr - base) % 4 == 0 && (a - base) % 4 == 0 && (b - base) % 4 == 0
    requires x.End() <= a || a + HDR <= x.Payload()
    requires x.End() <= b || b + HDR <= x.Payload()
    ensures SamePayload(m, m', base, x)
  {
    forall w | WordOf(base, x.Payload()) <= w < |m| && 4 * w < x.End() - base ensures m'[w] == m[w] {
      assert !InHeader(base, a, w) && !InHeader(base, b, w);
    }
  }

  lemma HeaderOf(m: seq<nat>, base: nat, bs: seq<Block>, i: nat)
    requires Rep(m, base, bs) && i < |bs|
    ensures Aligned(bs, base) && Header(m, base, bs, i) && WordOf(base, bs[i].addr) + 3 <= |m|
  {
  }

  /** Block `j` keeps its header when only the headers at `a` and `b`, inside block `i`, are written. */
  lemma OtherHeader(m: seq<nat>, m': seq<nat>, base: nat, hi: nat, bs: seq<Block>, i: nat, b: nat, j: nat)
    requires Tiles(bs, base, hi) && Rep(m, base, bs) && i < |bs| && j < |bs| && j != i
    requires bs[i].addr <= b && b + HDR <= bs[i].End() && (b - base) % 4 == 0
    requires AgreeOffHeaders(m, m', base, bs[i].addr, b)
    ensures Header(m', base, bs, j)
  {
    if i < j { TilesApart(bs, base, hi, i, j); } else { TilesApart(bs, base, hi, j, i); }
    HeaderFrame(m, m', base, bs[i].addr, b, bs, j);
  }

  lemma OtherPayload(m: seq<nat>, m': seq<nat>, base: nat, hi: nat, bs: seq<Block>, i: nat, b: nat, j: nat)
    requires Tiles(bs, base, hi) && Rep(m, base, bs) && i < |bs| && j < |bs| && j != i
    requires bs[i].addr <= b && b + HDR <= bs[i].End() && (b - base) % 4 == 0
    requires AgreeOffHeaders(m, m', base, bs[i].addr, b)
    ensures SamePayload(m, m', base, bs[j])
  {
    if i < j { TilesApart(bs, base, hi, i, j); } else { TilesApart(bs, base, hi, j, i); }
    PayloadFrame(m, m', base, bs[i].addr, b, bs[j]);
  }

  /** A list that differs from `bs` in its middle, seen header by header. */
  lemma RepReplace(m: seq<nat>, m': seq<nat>, base: nat, bs: seq<Block>, i: nat, k: nat, c: seq<Block>)
    requires i < k <= |bs| && c != [] && Aligned(bs, base) && Aligned(c, base) && c[0].addr == bs[i].addr
    requires forall j :: 0 <= j < i || k <= j < |bs| ==> Header(m', base, bs, j)
    requires var ts := bs[..i] + c + bs[k..];
      Aligned(ts, base) && forall j :: i <= j < i + |c| ==> Header(m', base, ts, j)
    ensures Rep(m', base, bs[..i] + c + bs[k..])
  {
    var ts := bs[..i] + c + bs[k..];
    forall j | 0 <= j < |ts| ensures Header(m', base, ts, j) {
      if j < i {
        assert ts[j] == bs[j] && NextAddr(ts, j) == NextAddr(bs, j);
        assert Header(m', base, bs, j);
      } else if j >= i + |c| {
        var x := j - |c| - i + k;
        assert ts[j] == bs[x] && NextAddr(ts, j) == NextAddr(bs, x);
        assert Header(m', base, bs, x);
      }
    }
  }

  /** Memory after block `i` has been carved up by kmalloc. */
  function CarvedMem(m: seq<nat>, base: nat, b: Block, size: nat, next: nat): seq<nat>
    requires base <= b.addr && FitsIn(b, size) && WordOf(base, b.addr) + 3 <= |m|
    requires b.size >= size + HDR + 8 ==> WordOf(base, b.addr + HDR + size) + 3 <= |m|
  {
    var w := WordOf(base, b.addr);
    if b.size >= size + HDR + 8 then
      var rest := b.addr + HDR + size;
      var r := WordOf(base, rest);
      m[r := b.size - size - HDR][r + 1 := 1][r + 2 := next][w := size][w + 2 := rest][w + 1 := 0]
    else m[w + 1 := 0]
  }

  lemma CarvedWords(m: seq<nat>, base: nat, hi: nat, bs: seq<Block>, i: nat, size: nat)
    requires Tiles(bs, base, hi) && Rep(m, base, bs) && i < |bs| && FitsIn(bs[i], size) && size % 8 == 0
    requires hi - base <= 4 * |m|
    ensures WordOf(base, bs[i].addr) + 3 <= |m|
    ensures bs[i].size >= size + HDR + 8 ==> WordOf(base, bs[i].addr + HDR + size) + 3 <= |m|
  {
    TilesAt(bs, base, hi, i);
  }

  lemma CarvedAgrees(m: seq<nat>, base: nat, b: Block, size: nat, next: nat)
    requires base <= b.addr && FitsIn(b, size) && WordOf(base, b.addr) + 3 <= |m|
    requires b.size >= size + HDR + 8 ==> WordOf(base, b.addr + HDR + size) + 3 <= |m|
    ensures var rest := if b.size >= size + HDR + 8 then b.addr + HDR + size else b.addr;
      AgreeOffHeaders(m, CarvedMem(m, base, b, size, next), base, b.addr, rest)
  {
  }

  lemma CarvedHeader(m: seq<nat>, base: nat, bs: seq<Block>, i: nat, size: nat, j: nat)
    requires i < |bs| && Aligned(bs, base) && Header(m, base, bs, i) && FitsIn(bs[i], size) && size % 8 == 0
    requires bs[i].size >= size + HDR + 8 ==> WordOf(base, bs[i].addr + HDR + size) + 3 <= |m|
    requires i <= j < i + |Carve(bs[i], size)|
    ensures j < |Take(bs, i, size)| && base <= Take(bs, i, size)[j].addr
    ensures Header(CarvedMem(m, base, bs[i], size, NextAddr(bs, i)), base, Take(bs, i, size), j)
  {
    var ts := Take(bs, i, size);
    assert WordOf(base, bs[i].addr + HDR + size) >= WordOf(base, bs[i].addr) + 3;
    assert ts[j] == Carve(bs[i], size)[j - i];
    assert i + |Carve(bs[i], size)| < |ts| ==> ts[i + |Carve(bs[i], size)|] == bs[i + 1];
  }

  /** Splitting or marking a block in memory is Take on the list, and touches no other payload. */
  lemma CarveRep(m: seq<nat>, base: nat, hi: nat, bs: seq<Block>, i: nat, size: nat)
    requires Tiles(bs, base, hi) && Rep(m, base, bs) && i < |bs| && FitsIn(bs[i], size) && size % 8 == 0
    requires hi - base <= 4 * |m|
    ensures Header(m, base, bs, i)
    ensures bs[i].size >= size + HDR + 8 ==> WordOf(base, bs[i].addr + HDR + size) + 3 <= |m|
    ensures var m' := CarvedMem(m, base, bs[i], size, NextAddr(bs, i));
      && Rep(m', base, Take(bs, i, size))
      && forall j :: 0 <= j < |bs| && j != i ==> SamePayload(m, m', base, bs[j])
  {
    hide Tiles, SamePayload, Header, CarvedMem, AgreeOffHeaders, WordOf, Rep, NextAddr;
    HeaderOf(m, base, bs, i);
    CarvedWords(m, base, hi, bs, i, size);
    CarveFacts(bs[i], size, base);
    TilesAt(bs, base, hi, i);
    var m' := CarvedMem(m, base, bs[i], size, NextAddr(bs, i));
    CarvedAgrees(m, base, bs[i], size, NextAddr(bs, i));
    var c := Carve(bs[i], size);
    var b := if |c| == 2 then c[1].addr else bs[i].addr;
    forall j | 0 <= j < |bs| && j != i ensures Header(m', base, bs, j) && SamePayload(m, m', base, bs[j]) {
      OtherHeader(m, m', base, hi, bs, i, b, j);
      OtherPayload(m, m', base, hi, bs, i, b, j);
    }
    var ts := bs[..i] + c + bs[i + 1..];
    assert ts == Take(bs, i, size) && Aligned(ts, base);
    forall j | i <= j < i + |c| ensures Header(m', base, ts, j) {
      CarvedHeader(m, base, bs, i, size, j);
    }
    RepReplace(m, m', base, bs, i, i + 1, c);
  }

  function MarkedMem(m: seq<nat>, base: nat, b: Block): seq<nat>
    requires base <= b.addr && WordOf(base, b.addr) + 3 <= |m|
  {
    m[WordOf(base, b.addr) + 1 := 1]
  }

  lemma MarkedHeader(m: seq<nat>, base: nat, bs: seq<Block>, i: nat)
    requires i < |bs| && base <= bs[i].addr && Header(m, base, bs, i)
    ensures AgreeOffHeaders(m, MarkedMem(m, base, bs[i]), base, bs[i].addr, bs[i].addr)
    ensures var c := [bs[i].(free := true)];
      Header(MarkedMem(m, base, bs[i]), base, bs[..i] + c + bs[i + 1..], i)
  {
    var ts := bs[..i] + [bs[i].(free := true)] + bs[i + 1..];
    assert ts[i] == bs[i].(free := true) && (i + 1 < |bs| ==> ts[i + 1] == bs[i + 1]);
  }

  lemma MarkRep(m: seq<nat>, base: nat, hi: nat, bs: seq<Block>, i: nat)
    requires Tiles(bs, base, hi) && Rep(m, base, bs) && i < |bs|
    ensures Header(m, base, bs, i)
    ensures Rep(MarkedMem(m, base, bs[i]), base, bs[i := bs[i].(free := true)])
    ensures forall j :: 0 <= j < |bs| ==> SamePayload(m, MarkedMem(m, base, bs[i]), base, bs[j])
  {
    hide Tiles, SamePayload, Header, MarkedMem, AgreeOffHeaders, WordOf, Rep;
    HeaderOf(m, base, bs, i);
    MarkedHeader(m, base, bs, i);
    TilesAt(bs, base, hi, i);
    var m', a := MarkedMem(m, base, bs[i]), bs[i].addr;
    forall j | 0 <= j < |bs| && j != i ensures Header(m', base, bs, j) && SamePayload(m, m', base, bs[j]) {
      OtherHeader(m, m', base, hi, bs, i, a, j);
      OtherPayload(m, m', base, hi, bs, i, a, j);
    }
    PayloadFrame(m, m', base, a, a, bs[i]);
    var c := [bs[i].(free := true)];
    RepReplace(m, m', base, bs, i, i + 1, c);
    assert bs[..i] + c + bs[i + 1..] == bs[i := c[0]];
  }

  function MergedMem(m: seq<nat>, base: nat, a: Block, b: Block, next: nat): seq<nat>
    requires base <= a.addr && WordOf(base, a.addr) + 3 <= |m|
  {
    var w := WordOf(base, a.addr);
    m[w := a.size + HDR + b.size][w + 2 := next]
  }

  lemma MergedHeader(m: seq<nat>, base: nat, bs: seq<Block>, i: nat)
    requires i + 1 < |bs| && base <= bs[i].addr && Header(m, base, bs, i) && bs[i].free
    ensures AgreeOffHeaders(m, MergedMem(m, base, bs[i], bs[i + 1], NextAddr(bs, i + 1)), base, bs[i].addr, bs[i].addr)
    ensures var c := [Merge(bs[i], bs[i + 1])];
      Header(MergedMem(m, base, bs[i], bs[i + 1], NextAddr(bs, i + 1)), base, bs[..i] + c + bs[i + 2..], i)
  {
    var ts := bs[..i] + [Merge(bs[i], bs[i + 1])] + bs[i + 2..];
    assert ts[i] == Merge(bs[i], bs[i + 1]) && (i + 2 < |bs| ==> ts[i + 1] == bs[i + 2]);
  }

  lemma MergeRep(m: seq<nat>, base: nat, hi: nat, bs: seq<Block>, i: nat)
    requires Tiles(bs, base, hi) && Rep(m, base, bs) && i + 1 < |bs| && bs[i].free && bs[i + 1].free
    ensures Header(m, base, bs, i)
    ensures var m' := MergedMem(m, base, bs[i], bs[i + 1], NextAddr(bs, i + 1));
      && Rep(m', base, bs[..i] + [Merge(bs[i], bs[i + 1])] + bs[i + 2..])
      && forall j :: 0 <= j < |bs| ==> SamePayload(m, m', base, bs[j])
  {
    hide Tiles, SamePayload, Header, MergedMem, AgreeOffHeaders, WordOf, Rep;
    HeaderOf(m, base, bs, i);
    MergedHeader(m, base, bs, i);
    TilesAt(bs, base, hi, i);
    var m', a := MergedMem(m, base, bs[i], bs[i + 1], NextAddr(bs, i + 1)), bs[i].addr;
    forall j | 0 <= j < |bs| && j != i ensures Header(m', base, bs, j) && SamePayload(m, m', base, bs[j]) {
      OtherHeader(m, m', base, hi, bs, i, a, j);
      OtherPayload(m, m', base, hi, bs, i, a, j);
    }
    PayloadFrame(m, m', base, a, a, bs[i]);
    RepReplace(m, m', base, bs, i, i + 2, [Merge(bs[i], bs[i + 1])]);
  }

  // ---- the allocator -----------------------------------------------------------------------

  datatype Stats = Stats(total: nat, used: nat, free: nat, largestFree: nat, blocks: nat)

  class KernelHeap {
    const base: nat
    const total: nat
    const mem: array<nat>
    ghost var bs: seq<Block>

    ghost predicate Valid()
      reads this, mem
    {
      && 0 < base && total <= HEAP_MAX && total <= 4 * mem.Length
      && HeapInv(bs, base, total) && Rep(mem[..], base, bs)
    }

    /** heap_init over a region that has room for a header. */
    constructor (base: nat, total: nat)
      requires 0 < base && HDR <= total <= HEAP_MAX
      ensures Valid() && fresh(mem) && this.base == base && this.total == total
      ensures bs == [Block(base, total - HDR, true)]
    {
      this.base, this.total := base, total;
      mem := new nat[(total + 3) / 4];
      bs := [Block(base, total - HDR, true)];
      new;
      mem[0] := total - HDR;
      mem[1] := 1;
      mem[2] := 0;
      assert bs[1..] == [] && Tiles(bs[1..], bs[0].End(), base + total);
    }

    lemma At(k: nat)
      requires Valid() && k < |bs|
      ensures base <= bs[k].addr && Header(mem[..], base, bs, k) && WordOf(base, bs[k].addr) + 3 <= mem.Length
      ensures NextAddr(bs, k) == 0 <==> k == |bs| - 1
    {
      hide Tiles, NoAdjacentFree;
      HeaderOf(mem[..], base, bs, k);
    }

    /** The writes of kmalloc on the block it has chosen, whose header is at `b`. */
    method CarveAt(b: nat, size: nat, ghost k: nat)
      requires Valid() && k < |bs| && b == bs[k].addr && FitsIn(bs[k], size) && size % 8 == 0
      modifies mem, this`bs
      ensures Valid() && bs == Take(old(bs), k, size)
      ensures forall x :: x in Live(old(bs)) ==> base <= x.addr && SamePayload(old(mem[..]), mem[..], base, x)
    {
      hide HeapInv, Rep, Header, SamePayload, Live, Take, CarvedMem;
      At(k);
      HeaderWords(mem[..], base, bs, k);
      CarveAll(mem[..], base, total, bs, k, size);
      ghost var m := mem[..];
      var w := (b - base) / 4;
      if mem[w] >= size + 12 + 8 {
        var rest := b + 12 + size;
        var r := (rest - base) / 4;
        mem[r] := mem[w] - size - 12;
        mem[r + 1] := 1;
        mem[r + 2] := mem[w + 2];
        mem[w] := size;
        mem[w + 2] := rest;
      }
      mem[w + 1] := 0;
      CarvedIs(m, mem[..], base, bs, k, size);
      bs := Take(bs, k, size);
    }

    /** kmalloc: first fit; no payload of a live block is written. */
    method Kmalloc(n: nat) returns (ptr: nat)
      requires Valid() && n < DWORD
      modifies mem, this`bs
      ensures Valid() && (bs, ptr) == Malloc(old(bs), n)
      ensures forall b :: b in Live(old(bs)) ==> base <= b.addr && SamePayload(old(mem[..]), mem[..], base, b)
    {
      hide HeapInv, Rep, Header, SamePayload, Live, Take, FirstFit;
      SameLive(mem[..], base, total, bs);
      if n == 0 {
        return 0;
      }
      var size := AlignUp(n);
      var b := base;
      ghost var k := 0;
      HeadIsBase(bs, base, total);
      while b != 0
        invariant k <= |bs| && b == (if k < |bs| then bs[k].addr else 0) && mem[..] == old(mem[..]) && bs == old(bs)
        invariant forall j :: 0 <= j < k ==> !FitsIn(bs[j], size)
        decreases |bs| - k
      {
        At(k);
        HeaderWords(mem[..], base, bs, k);
        var w := (b - base) / 4;
        if mem[w + 1] == 0 || mem[w] < size {
          b := mem[w + 2];
          k := k + 1;
          continue;
        }
        FitIs(bs, size, k);
        CarveAt(b, size, k);
        return b + 12;
      }
      if k < |bs| { At(k); }
      NoFit(bs, size);
      return 0;
    }

    /** Valid but for neighbouring free blocks, as in the middle of kfree. */
    ghost predicate Linked()
      reads this, mem
    {
      && 0 < base && total <= HEAP_MAX && total <= 4 * mem.Length
      && bs != [] && Tiles(bs, base, base + total) && Rep(mem[..], base, bs)
    }

    lemma LinkedAt(k: nat)
      requires Linked() && k < |bs|
      ensures base <= bs[k].addr && Header(mem[..], base, bs, k) && WordOf(base, bs[k].addr) + 3 <= mem.Length
      ensures NextAddr(bs, k) == 0 <==> k == |bs| - 1
    {
      hide Tiles;
      HeaderOf(mem[..], base, bs, k);
      if k + 1 < |bs| { HeaderOf(mem[..], base, bs, k + 1); }
    }

    /** One merge of kfree: the free block at `p`, number `k`, swallows its free successor. */
    method MergeNext(p: nat, ghost k: nat)
      requires Linked() && k + 1 < |bs| && p == bs[k].addr && bs[k].free && bs[k + 1].free
      modifies mem, this`bs
      ensures Linked() && bs == old(bs[..k] + [Merge(bs[k], bs[k + 1])] + bs[k + 2..])
      ensures forall j :: 0 <= j < |old(bs)| ==>
        base <= old(bs)[j].addr && SamePayload(old(mem[..]), mem[..], base, old(bs)[j])
    {
      hide Tiles, Rep, Header, SamePayload, MergedMem;
      LinkedAt(k);
      LinkedAt(k + 1);
      HeaderWords(mem[..], base, bs, k);
      HeaderWords(mem[..], base, bs, k + 1);
      MergeRep(mem[..], base, base + total, bs, k);
      MergeTiles(bs, base, base + total, k);
      AddrsAbove(mem[..], base, bs);
      TilesApart(bs, base, base + total, k, k + 1);
      ghost var m := mem[..];
      var w := (p - base) / 4;
      var v := (mem[w + 2] - base) / 4;
      mem[w] := mem[w] + 12 + mem[v];
      mem[w + 2] := mem[v + 2];
      MergedIs(m, mem[..], base, bs, k);
      bs := bs[..k] + [Merge(bs[k], bs[k + 1])] + bs[k + 2..];
    }

    /** The inner loop of kfree: merges at `p` until its successor is in use. */
    method MergeRun(p: nat, ghost done: seq<Block>, ghost rest: seq<Block>) returns (ghost rest': seq<Block>)
      requires Linked() && rest != [] && bs == done + rest && p == rest[0].addr
      modifies mem, this`bs
      ensures Linked() && rest' != [] && bs == done + rest' && p == rest'[0].addr && |rest'| <= |rest|
      ensures Coalesce(rest') == Coalesce(rest) && Live(rest') == Live(rest)
      ensures !(|rest'| > 1 && rest'[0].free && rest'[1].free)
      ensures KeptPayloads(old(mem[..]), mem[..], base, done + rest')
    {
      hide Tiles, Rep, Header, SamePayload, Coalesce, Live, KeptPayloads;
      rest' := rest;
      AddrsAbove(mem[..], base, bs);
      KeptRefl(mem[..], base, bs);
      ghost var k := |done|;
      while true
        invariant Linked() && rest' != [] && bs == done + rest' && p == rest'[0].addr && |rest'| <= |rest|
        invariant Coalesce(rest') == Coalesce(rest) && Live(rest') == Live(rest)
        invariant KeptPayloads(old(mem[..]), mem[..], base, done + rest')
        decreases |rest'|
      {
        LinkedAt(k);
        HeaderWords(mem[..], base, bs, k);
        var w := (p - base) / 4;
        var next := mem[w + 2];
        if mem[w + 1] == 0 || next == 0 {
          return;
        }
        LinkedAt(k + 1);
        HeaderWords(mem[..], base, bs, k + 1);
        if mem[(next - base) / 4 + 1] == 0 {
          return;
        }
        ghost var m, old1 := mem[..], rest';
        MergeNext(p, k);
        rest' := [Merge(rest'[0], rest'[1])] + rest'[2..];
        MergeList(done, old1);
        KeptStep(old(mem[..]), m, mem[..], base, done, old1);
      }
    }

    /** The first step of kfree. */
    method MarkFree(ptr: nat, ghost i: nat)
      requires Valid() && i < |bs| && bs[i].Payload() == ptr
      modifies mem, this`bs
      ensures Linked() && bs == old(bs[i := bs[i].(free := true)]) && bs[0].addr == base
      ensures KeptPayloads(old(mem[..]), mem[..], base, bs)
    {
      hide Tiles, Rep, Header, SamePayload, KeptPayloads, NoAdjacentFree, Aligned;
      At(i);
      MarkRep(mem[..], base, base + total, bs, i);
      MarkTiles(bs, base, base + total, i);
      MarkIs(mem[..], base, bs, i);
      AddrsAbove(mem[..], base, bs);
      ghost var m0 := mem[..];
      mem[(ptr - 12 - base) / 4 + 1] := 1;
      KeptMark(m0, mem[..], base, bs, i);
      bs := bs[i := bs[i].(free := true)];
      TilesHead(bs, base, base + total);
    }

    /** The outer loop of kfree: coalesces every run of free blocks. */
    method MergeAll()
      requires Linked() && bs != [] && bs[0].addr == base
      modifies mem, this`bs
      ensures Linked() && bs == Coalesce(old(bs))
      ensures KeptPayloads(old(mem[..]), mem[..], base, bs)
    {
      hide Tiles, Rep, Header, SamePayload, Coalesce, Live, KeptPayloads, NextAddr;
      AddrsAbove(mem[..], base, bs);
      KeptRefl(mem[..], base, bs);
      var p := base;
      ghost var m0, marked, done, rest := mem[..], bs, [], bs;
      assert done + rest == bs && done + Coalesce(rest) == Coalesce(rest);
      while p != 0
        invariant Linked() && bs == done + rest && p == (if rest == [] then 0 else rest[0].addr)
        invariant Coalesce(marked) == done + Coalesce(rest)
        invariant KeptPayloads(m0, mem[..], base, done + rest)
        decreases |rest|
      {
        ghost var m1, r1 := mem[..], rest;
        rest := MergeRun(p, done, rest);
        KeptTrans(m0, m1, mem[..], base, done, r1, rest);
        LinkedAt(|done|);
        HeaderWords(mem[..], base, bs, |done|);
        p := mem[(p - base) / 4 + 2];
        NextOf(done, rest);
        CoalesceNext(done, rest);
        Shift(done, rest);
        done, rest := done + [rest[0]], rest[1..];
      }
      if rest != [] { LinkedAt(|done|); }
    }

    /** kfree: marks the block free, then coalesces every run of free blocks. */
    method Kfree(ptr: nat)
      requires Valid() && (ptr != 0 ==> PayloadIndex(bs, ptr).Some?)
      modifies mem, this`bs
      ensures Valid() && bs == if ptr == 0 then old(bs) else Release(old(bs), PayloadIndex(old(bs), ptr).value)
      ensures KeptPayloads(old(mem[..]), mem[..], base, Live(bs))
    {
      hide Tiles, Rep, Header, SamePayload, Coalesce, Live, KeptPayloads, PayloadIndex, HeapInv;
      if ptr == 0 {
        KeptLive(mem[..], mem[..], base, total, bs);
        return;
      }
      ghost var i, m0 := PayloadIndex(bs, ptr).value, mem[..];
      ReleaseKeeps(bs, base, total, i);
      MarkFree(ptr, i);
      ghost var m1, marked := mem[..], bs;
      MergeAll();
      CoalesceLive(marked);
      assert [] + marked == marked && [] + bs == bs;
      KeptTrans(m0, m1, mem[..], base, [], marked, bs);
      KeptLiveOf(m0, mem[..], base, bs);
    }

    /** heap_get_stats. */
    method GetStats() returns (st: Stats)
      requires Valid()
      ensures st == Stats(total, UsedBytes(bs), FreeBytes(bs), LargestFree(bs), |bs|)
      ensures st.used + st.free + HDR * st.blocks == st.total && st.used == Sizes(Live(bs))
    {
      hide Tiles, Rep, Header, HeapInv;
      HeadIsBase(bs, base, total);
      var b, used, free, largest, blocks := base, 0, 0, 0, 0;
      SumsBegin(bs);
      while b != 0
        invariant blocks <= |bs| && b == (if blocks < |bs| then bs[blocks].addr else 0)
        invariant used == UsedBytes(bs[..blocks]) && free == FreeBytes(bs[..blocks])
        invariant largest == LargestFree(bs[..blocks])
        decreases |bs| - blocks
      {
        At(blocks);
        HeaderWords(mem[..], base, bs, blocks);
        SumsStep(bs, blocks);
        var w := (b - base) / 4;
        if mem[w + 1] != 0 {
          free := free + mem[w];
          if mem[w] > largest {
            largest := mem[w];
          }
        } else {
          used := used + mem[w];
        }
        blocks := blocks + 1;
        b := mem[w + 2];
      }
      if blocks < |bs| { At(blocks); }
      assert bs[..blocks] == bs;
      AccountingOf(bs, base, total);
      UsedAre(bs);
      st := Stats(total, used, free, largest, blocks);
    }
  }

  lemma SumsBegin(bs: seq<Block>)
    ensures UsedBytes(bs[..0]) == 0 && FreeBytes(bs[..0]) == 0 && LargestFree(bs[..0]) == 0
  {
  }

  lemma {:induction false} SumsStep(bs: seq<Block>, k: nat)
    requires k < |bs|
    ensures UsedBytes(bs[..k + 1]) == UsedBytes(bs[..k]) + (if bs[k].free then 0 else bs[k].size)
    ensures FreeBytes(bs[..k + 1]) == FreeBytes(bs[..k]) + (if bs[k].free then bs[k].size else 0)
    ensures LargestFree(bs[..k + 1])
      == if bs[k].free && bs[k].size > LargestFree(bs[..k]) then bs[k].size else LargestFree(bs[..k])
    decreases k
  {
    if k > 0 {
      SumsStep(bs[1..], k - 1);
      assert bs[..k + 1][1..] == bs[1..][..k] && bs[..k][1..] == bs[1..][..k - 1];
    } else {
      assert bs[..1][1..] == [];
    }
  }

  lemma AccountingOf(bs: seq<Block>, base: nat, total: nat)
    requires HeapInv(bs, base, total)
    ensures UsedBytes(bs) + FreeBytes(bs) + HDR * |bs| == total
  {
    Accounting(bs, base, base + total);
  }

  lemma HeadIsBase(bs: seq<Block>, base: nat, total: nat)
    requires HeapInv(bs, base, total)
    ensures bs != [] && bs[0].addr == base
  {
  }

  /** Live blocks are blocks of the list. */
  lemma {:induction false} LiveMember(bs: seq<Block>)
    ensures forall b :: b in Live(bs) ==> b in bs && !b.free
    decreases |bs|
  {
    if bs != [] {
      LiveMember(bs[1..]);
    }
  }

  lemma SameLive(m: seq<nat>, base: nat, total: nat, bs: seq<Block>)
    requires HeapInv(bs, base, total)
    ensures forall b :: b in Live(bs) ==> base <= b.addr && SamePayload(m, m, base, b)
  {
    LiveMember(bs);
  }

  lemma HeaderWords(m: seq<nat>, base: nat, bs: seq<Block>, k: nat)
    requires k < |bs| && base <= bs[k].addr && Header(m, base, bs, k)
    ensures var w := (bs[k].addr - base) / 4;
      w + 3 <= |m| && m[w] == bs[k].size && m[w + 1] == (if bs[k].free then 1 else 0) && m[w + 2] == NextAddr(bs, k)
  {
  }

  lemma FitIs(bs: seq<Block>, size: nat, k: nat)
    requires k < |bs| && FitsIn(bs[k], size) && forall j :: 0 <= j < k ==> !FitsIn(bs[j], size)
    ensures FirstFit(bs, size) == Some(k)
  {
    hide FitsIn;
    if FirstFit(bs, size).Some? { assert FitsIn(bs[FirstFit(bs, size).value], size); }
  }

  lemma NoFit(bs: seq<Block>, size: nat)
    requires forall j :: 0 <= j < |bs| ==> !FitsIn(bs[j], size)
    ensures FirstFit(bs, size) == None
  {
    hide FitsIn;
  }

  /** Everything kmalloc's writes achieve on block `k`. */
  lemma CarveAll(m: seq<nat>, base: nat, total: nat, bs: seq<Block>, k: nat, size: nat)
    requires HeapInv(bs, base, total) && Rep(m, base, bs) && total <= 4 * |m|
    requires k < |bs| && FitsIn(bs[k], size) && size % 8 == 0
    ensures base <= bs[k].addr && WordOf(base, bs[k].addr) + 3 <= |m|
    ensures bs[k].size >= size + HDR + 8 ==> WordOf(base, bs[k].addr + HDR + size) + 3 <= |m|
    ensures HeapInv(Take(bs, k, size), base, total)
    ensures var m' := CarvedMem(m, base, bs[k], size, NextAddr(bs, k));
      && Rep(m', base, Take(bs, k, size))
      && forall b :: b in Live(bs) ==> base <= b.addr && SamePayload(m, m', base, b)
  {
    hide Rep, Header, SamePayload, Live, CarvedMem, Take, Tiles, Carve;
    HeaderOf(m, base, bs, k);
    CarveRep(m, base, base + total, bs, k, size);
    TakeKeeps(bs, base, total, k, size);
    LiveMember(bs);
  }

  lemma CarvedIs(m: seq<nat>, m': seq<nat>, base: nat, bs: seq<Block>, k: nat, size: nat)
    requires k < |bs| && base <= bs[k].addr && FitsIn(bs[k], size)
    requires var w := (bs[k].addr - base) / 4;
      && w + 3 <= |m| && (bs[k].size >= size + 12 + 8 ==> (bs[k].addr + 12 + size - base) / 4 + 3 <= |m|)
      && m' == if bs[k].size >= size + 12 + 8 then
          var r := (bs[k].addr + 12 + size - base) / 4;
          var m1 := m[r := bs[k].size - size - 12][r + 1 := 1][r + 2 := NextAddr(bs, k)];
          m1[w := size][w + 2 := bs[k].addr + 12 + size][w + 1 := 0]
        else m[w + 1 := 0]
    ensures m' == CarvedMem(m, base, bs[k], size, NextAddr(bs, k))
  {
  }

  // ---- release in memory -----------------------------------------------------------------------

  /** The block whose payload starts at `ptr`. */
  function PayloadIndex(bs: seq<Block>, ptr: nat): (r: Option<nat>)
    ensures r.Some? ==> r.value < |bs| && bs[r.value].Payload() == ptr
  {
    if bs == [] then None
    else if bs[0].Payload() == ptr then Some(0)
    else match PayloadIndex(bs[1..], ptr)
      case None => None
      case Some(k) => Some(k + 1)
  }

  /** The payload words of every block of `xs` are the same in both memories. */
  ghost predicate KeptPayloads(m: seq<nat>, m': seq<nat>, base: nat, xs: seq<Block>) {
    forall j :: 0 <= j < |xs| ==> base <= xs[j].addr && (!xs[j].free ==> SamePayload(m, m', base, xs[j]))
  }

  lemma KeptRefl(m: seq<nat>, base: nat, xs: seq<Block>)
    requires forall j :: 0 <= j < |xs| ==> base <= xs[j].addr
    ensures KeptPayloads(m, m, base, xs)
  {
  }

  lemma AddrsAbove(m: seq<nat>, base: nat, bs: seq<Block>)
    requires Rep(m, base, bs)
    ensures forall j :: 0 <= j < |bs| ==> base <= bs[j].addr
  {
  }

  lemma KeptStep(m0: seq<nat>, m1: seq<nat>, m2: seq<nat>, base: nat, done: seq<Block>, rest: seq<Block>)
    requires |rest| > 1 && KeptPayloads(m0, m1, base, done + rest)
    requires forall j :: 0 <= j < |done + rest| ==>
      base <= (done + rest)[j].addr && SamePayload(m1, m2, base, (done + rest)[j])
    ensures KeptPayloads(m0, m2, base, done + ([Merge(rest[0], rest[1])] + rest[2..]))
  {
    var xs, ys := done + rest, done + ([Merge(rest[0], rest[1])] + rest[2..]);
    forall j | 0 <= j < |ys| ensures base <= ys[j].addr && (!ys[j].free ==> SamePayload(m0, m2, base, ys[j])) {
      if j < |done| {
        assert ys[j] == xs[j];
      } else if j > |done| {
        assert ys[j] == xs[j + 1];
      } else {
        assert ys[j].addr == xs[j].addr;
      }
    }
  }

  lemma NextOf(done: seq<Block>, rest: seq<Block>)
    requires rest != []
    ensures NextAddr(done + rest, |done|) == if rest[1..] == [] then 0 else rest[1..][0].addr
  {
  }

  lemma CoalesceNext(done: seq<Block>, rest: seq<Block>)
    requires rest != [] && !(|rest| > 1 && rest[0].free && rest[1].free)
    ensures done + Coalesce(rest) == (done + [rest[0]]) + Coalesce(rest[1..])
  {
    hide Coalesce;
    CoalesceHead(rest);
    AppendAssoc(done, [rest[0]], Coalesce(rest[1..]));
  }

  lemma Shift(done: seq<Block>, rest: seq<Block>)
    requires rest != []
    ensures done + rest == (done + [rest[0]]) + rest[1..]
  {
  }

  lemma AppendAssoc(a: seq<Block>, b: seq<Block>, c: seq<Block>)
    ensures a + (b + c) == (a + b) + c
  {
  }

  lemma MergeList(done: seq<Block>, rest: seq<Block>)
    requires |rest| > 1 && rest[0].free && rest[1].free
    ensures var r := [Merge(rest[0], rest[1])] + rest[2..];
      && (done + rest)[..|done|] + [Merge(rest[0], rest[1])] + (done + rest)[|done| + 2..] == done + r
      && Coalesce(r) == Coalesce(rest) && Live(r) == Live(rest)
  {
    hide Coalesce, Live, Merge;
    var c := Merge(rest[0], rest[1]);
    assert (done + rest)[|done| + 2..] == rest[2..] && (done + rest)[..|done|] == done;
    AppendAssoc(done, [c], rest[2..]);
    assert rest == [rest[0], rest[1]] + rest[2..];
    MergeBack(rest[0], rest[1], rest[2..]);
    MergeLive(rest[0], rest[1], rest[2..]);
  }

  lemma MergeLive(b: Block, c: Block, d: seq<Block>)
    requires b.free && c.free
    ensures Live([Merge(b, c)] + d) == Live([b, c] + d)
  {
    hide Live;
    LiveFree(Merge(b, c), d);
    LiveFree(b, [c] + d);
    LiveFree(c, d);
    assert [b] + ([c] + d) == [b, c] + d;
  }

  lemma MergeTiles(bs: seq<Block>, lo: nat, hi: nat, k: nat)
    requires Tiles(bs, lo, hi) && k + 1 < |bs|
    ensures Tiles(bs[..k] + [Merge(bs[k], bs[k + 1])] + bs[k + 2..], lo, hi)
  {
    hide Tiles, Merge;
    var a, b, c, d := bs[..k], bs[k], bs[k + 1], bs[k + 2..];
    assert bs == a + ([b, c] + d);
    var mid := TilesSplit(a, [b, c] + d, lo, hi);
    MergeFirst(b, c, d, mid, hi);
    TilesJoin(a, [Merge(b, c)] + d, lo, mid, hi);
    assert a + ([Merge(b, c)] + d) == a + [Merge(b, c)] + d;
  }

  lemma MergeFirst(b: Block, c: Block, d: seq<Block>, lo: nat, hi: nat)
    requires Tiles([b, c] + d, lo, hi)
    ensures Tiles([Merge(b, c)] + d, lo, hi)
  {
    assert ([b, c] + d)[1..] == [c] + d && ([c] + d)[1..] == d && ([Merge(b, c)] + d)[1..] == d;
  }

  lemma MergedIs(m: seq<nat>, m': seq<nat>, base: nat, bs: seq<Block>, k: nat)
    requires k + 1 < |bs| && base <= bs[k].addr && WordOf(base, bs[k].addr) + 3 <= |m|
    requires var w := (bs[k].addr - base) / 4;
      m' == m[w := bs[k].size + 12 + bs[k + 1].size][w + 2 := NextAddr(bs, k + 1)]
    ensures m' == MergedMem(m, base, bs[k], bs[k + 1], NextAddr(bs, k + 1))
  {
  }

  lemma MarkIs(m: seq<nat>, base: nat, bs: seq<Block>, i: nat)
    requires i < |bs| && base <= bs[i].addr && WordOf(base, bs[i].addr) + 3 <= |m|
    ensures m[(bs[i].addr - base) / 4 + 1 := 1] == MarkedMem(m, base, bs[i])
  {
  }

  lemma KeptMark(m: seq<nat>, m': seq<nat>, base: nat, bs: seq<Block>, i: nat)
    requires i < |bs| && forall j :: 0 <= j < |bs| ==> base <= bs[j].addr && SamePayload(m, m', base, bs[j])
    ensures KeptPayloads(m, m', base, bs[i := bs[i].(free := true)])
  {
  }

  lemma KeptTrans(m0: seq<nat>, m1: seq<nat>, m2: seq<nat>, base: nat, done: seq<Block>, rest: seq<Block>,
                  rest': seq<Block>)
    requires KeptPayloads(m0, m1, base, done + rest) && KeptPayloads(m1, m2, base, done + rest')
    requires Live(rest') == Live(rest)
    ensures KeptPayloads(m0, m2, base, done + rest')
  {
    hide SamePayload;
    var xs, ys := done + rest, done + rest';
    LiveSame(done, rest, rest');
    forall j | 0 <= j < |ys| && !ys[j].free ensures SamePayload(m0, m2, base, ys[j]) {
      LiveHas(ys, j);
      LiveMember(xs);
      var k :| 0 <= k < |xs| && xs[k] == ys[j];
      SameTrans(m0, m1, m2, base, ys[j]);
    }
  }

  lemma SameTrans(m0: seq<nat>, m1: seq<nat>, m2: seq<nat>, base: nat, b: Block)
    requires base <= b.addr && SamePayload(m0, m1, base, b) && SamePayload(m1, m2, base, b)
    ensures SamePayload(m0, m2, base, b)
  {
  }

  lemma {:induction false} LiveHas(bs: seq<Block>, j: nat)
    requires j < |bs| && !bs[j].free
    ensures bs[j] in Live(bs)
    decreases |bs|
  {
    if j > 0 {
      LiveHas(bs[1..], j - 1);
    }
  }

  lemma LiveSame(done: seq<Block>, rest: seq<Block>, rest': seq<Block>)
    requires Live(rest') == Live(rest)
    ensures Live(done + rest') == Live(done + rest)
  {
    LiveJoin(done, rest);
    LiveJoin(done, rest');
  }

  lemma CoalesceHead(rest: seq<Block>)
    requires rest != [] && !(|rest| > 1 && rest[0].free && rest[1].free)
    ensures Coalesce(rest) == [rest[0]] + Coalesce(rest[1..])
  {
    if |rest| == 1 { assert rest == [rest[0]] && rest[1..] == []; }
  }

  lemma TilesHead(bs: seq<Block>, lo: nat, hi: nat)
    requires Tiles(bs, lo, hi) && bs != []
    ensures bs[0].addr == lo
  {
  }

  lemma KeptLiveOf(m: seq<nat>, m': seq<nat>, base: nat, bs: seq<Block>)
    requires KeptPayloads(m, m', base, bs)
    ensures KeptPayloads(m, m', base, Live(bs))
  {
    LiveMember(bs);
  }

  lemma KeptLive(m: seq<nat>, m': seq<nat>, base: nat, total: nat, bs: seq<Block>)
    requires HeapInv(bs, base, total) && m' == m
    ensures KeptPayloads(m, m', base, Live(bs))
  {
    LiveMember(bs);
  }
}
