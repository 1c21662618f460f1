/** The kernel heap as a list of blocks: first fit with splitting, and coalescing on release. */
module Blocks {
  import opened Bytes
  import opened Options

  const HDR: nat := 12
  const HEAP_MAX: nat := 0x80_0000
  /** `addr` is the address of the header; the payload follows it. */
  datatype Block = Block(addr: nat, size: nat, free: bool) {
    function Payload(): nat { addr + HDR }
    function End(): nat { addr + HDR + size }
  }

  /** ALIGN_UP on 32-bit values: a request above 0xFFFFFFF8 wraps to 0. */
  function AlignUp(n: nat): (r: nat)
    ensures r % 8 == 0
  {
    (n + 7) % DWORD / 8 * 8
  }

  lemma AlignUpBounds(n: nat)
    requires n < DWORD
    ensures n <= AlignUp(n) < n + 8 <==> n <= 0xFFFF_FFF8
    ensures n > 0xFFFF_FFF8 ==> AlignUp(n) == 0
  {
  }

  // ---- shape of the list ----------------------------------------------------------------

  /** The blocks cover [lo, hi) without gaps or overlaps. */
  predicate Tiles(bs: seq<Block>, lo: nat, hi: nat) {
    if bs == [] then lo == hi else bs[0].addr == lo && Tiles(bs[1..], bs[0].End(), hi)
  }

  predicate NoAdjacentFree(bs: seq<Block>) {
    forall i :: 0 <= i < |bs| - 1 ==> !(bs[i].free && bs[i + 1].free)
  }

  /** Headers lie on word boundaries of the region. */
  predicate Aligned(bs: seq<Block>, base: nat) {
    forall i :: 0 <= i < |bs| ==> base <= bs[i].addr && (bs[i].addr - base) % 4 == 0
  }

  predicate HeapInv(bs: seq<Block>, base: nat, total: nat) {
    bs != [] && Tiles(bs, base, base + total) && NoAdjacentFree(bs) && Aligned(bs, base)
  }

  lemma {:induction false} TilesSplit(a: seq<Block>, b: seq<Block>, lo: nat, hi: nat) returns (mid: nat)
    requires Tiles(a + b, lo, hi)
    ensures lo <= mid <= hi && Tiles(a, lo, mid) && Tiles(b, mid, hi)
    decreases |a|
  {
    if a == [] {
      assert a + b == b;
      mid := lo;
      TilesOrder(b, lo, hi);
    } else {
      assert (a + b)[1..] == a[1..] + b;
      mid := TilesSplit(a[1..], b, a[0].End(), hi);
    }
  }

  lemma {:induction false} TilesOrder(bs: seq<Block>, lo: nat, hi: nat)
    requires Tiles(bs, lo, hi)
    ensures lo + HDR * |bs| <= hi
    decreases |bs|
  {
    if bs != [] {
      TilesOrder(bs[1..], bs[0].End(), hi);
    }
  }

  lemma {:induction false} TilesJoin(a: seq<Block>, b: seq<Block>, lo: nat, mid: nat, hi: nat)
    requires Tiles(a, lo, mid) && Tiles(b, mid, hi)
    ensures Tiles(a + b, lo, hi)
    decreases |a|
  {
    if a == [] {
      assert a + b == b;
    } else {
      assert (a + b)[1..] == a[1..] + b;
      TilesJoin(a[1..], b, a[0].End(), mid, hi);
    }
  }

  /** Blocks follow one another: an earlier block ends before a later one starts. */
  lemma {:induction false} TilesApart(bs: seq<Block>, lo: nat, hi: nat, i: nat, j: nat)
    requires Tiles(bs, lo, hi) && i < j < |bs|
    ensures lo <= bs[i].addr && bs[i].End() <= bs[j].addr && bs[j].End() <= hi
    decreases |bs|
  {
    TilesOrder(bs, lo, hi);
    TilesAt(bs, lo, hi, j);
    if i > 0 {
      TilesApart(bs[1..], bs[0].End(), hi, i - 1, j - 1);
    } else {
      TilesAt(bs[1..], bs[0].End(), hi, j - 1);
    }
  }

  lemma {:induction false} TilesAt(bs: seq<Block>, lo: nat, hi: nat, i: nat)
    requires Tiles(bs, lo, hi) && i < |bs|
    ensures lo <= bs[i].addr && bs[i].End() <= hi
    ensures bs[i].End() == if i + 1 < |bs| then bs[i + 1].addr else hi
    decreases |bs|
  {
    TilesOrder(bs[1..], bs[0].End(), hi);
    if i > 0 {
      TilesAt(bs[1..], bs[0].End(), hi, i - 1);
    } else if |bs| > 1 {
      assert bs[1..][0] == bs[1];
    }
  }

  // ---- accounting ----------------------------------------------------------------------------

  function UsedBytes(bs: seq<Block>): nat {
    if bs == [] then 0 else (if bs[0].free then 0 else bs[0].size) + UsedBytes(bs[1..])
  }

  function FreeBytes(bs: seq<Block>): nat {
    if bs == [] then 0 else (if bs[0].free then bs[0].size else 0) + FreeBytes(bs[1..])
  }

  function LargestFree(bs: seq<Block>): nat {
    if bs == [] then 0
    else
      var rest := LargestFree(bs[1..]);
      if bs[0].free && bs[0].size > rest then bs[0].size else rest
  }

  /** The figures heap_get_stats reports account for every byte of the region. */
  lemma {:induction false} Accounting(bs: seq<Block>, lo: nat, hi: nat)
    requires Tiles(bs, lo, hi)
    ensures UsedBytes(bs) + FreeBytes(bs) + HDR * |bs| == hi - lo
    decreases |bs|
  {
    if bs != [] {
      Accounting(bs[1..], bs[0].End(), hi);
    }
  }

  // ---- allocation -------------------------------------------------------------------------------

  /** Bytes in a list of blocks. */
  function Sizes(xs: seq<Block>): nat { if xs == [] then 0 else xs[0].size + Sizes(xs[1..]) }

  /** The bytes in use are those of the blocks handed out. */
  lemma {:induction false} UsedAre(bs: seq<Block>)
    ensures UsedBytes(bs) == Sizes(Live(bs))
  {
    if bs != [] {
      UsedAre(bs[1..]);
      var rest := Live(bs[1..]);
      if bs[0].free {
        assert Live(bs) == [] + rest == rest;
      } else {
        assert Live(bs) == [bs[0]] + rest && ([bs[0]] + rest)[1..] == rest;
      }
    }
  }

  /** The largest free block: no free block is larger, and there is one of that size unless none is free. */
  lemma {:induction false} LargestIs(bs: seq<Block>)
    ensures forall i :: 0 <= i < |bs| && bs[i].free ==> bs[i].size <= LargestFree(bs)
    ensures LargestFree(bs) > 0 ==> exists i :: 0 <= i < |bs| && bs[i].free && bs[i].size == LargestFree(bs)
  {
    if bs != [] {
      var rest := bs[1..];
      LargestIs(rest);
      forall i | 0 <= i < |bs| && bs[i].free ensures bs[i].size <= LargestFree(bs) {
        if i > 0 { assert rest[i - 1] == bs[i]; }
      }
      if LargestFree(bs) > 0 && LargestFree(bs) == LargestFree(rest) {
        var j :| 0 <= j < |rest| && rest[j].free && rest[j].size == LargestFree(rest);
        assert bs[j + 1] == rest[j];
      } else if LargestFree(bs) > 0 {
        assert bs[0].free;
      }
    }
  }

  /** So it tells which requests will be met. */
  lemma LargestServes(bs: seq<Block>, n: nat)
    requires 0 < n <= 0xFFFF_FFF8 && forall i :: 0 <= i < |bs| ==> bs[i].addr > 0
    ensures Malloc(bs, n).1 != 0 <==> AlignUp(n) <= LargestFree(bs)
  {
    hide FirstFit, LargestFree;
    LargestIs(bs);
    AlignUpBounds(n);
    if AlignUp(n) <= LargestFree(bs) {
      var i :| 0 <= i < |bs| && bs[i].free && bs[i].size == LargestFree(bs);
      assert FitsIn(bs[i], AlignUp(n));
    }
  }

  predicate FitsIn(b: Block, size: nat) { b.free && b.size >= size }

  function FirstFit(bs: seq<Block>, size: nat): (r: Option<nat>)
    ensures r.Some? ==> r.value < |bs| && FitsIn(bs[r.value], size)
    ensures r.Some? ==> forall j :: 0 <= j < r.value ==> !FitsIn(bs[j], size)
    ensures r == None ==> forall j :: 0 <= j < |bs| ==> !FitsIn(bs[j], size)
  {
    if bs == [] then None
    else if FitsIn(bs[0], size) then Some(0)
    else match FirstFit(bs[1..], size)
      case None => None
      case Some(k) => Some(k + 1)
  }

  /** What block `b` becomes when `size` bytes are taken from it. */
  function Carve(b: Block, size: nat): (r: seq<Block>)
    requires FitsIn(b, size)
    ensures |r| >= 1 && r[0].addr == b.addr && !r[0].free
  {
    if b.size >= size + HDR + 8
    then [Block(b.addr, size, false), Block(b.addr + HDR + size, b.size - size - HDR, true)]
    else [b.(free := false)]
  }

  function Take(bs: seq<Block>, i: nat, size: nat): seq<Block>
    requires i < |bs| && FitsIn(bs[i], size)
  {
    bs[..i] + Carve(bs[i], size) + bs[i + 1..]
  }

  /** kmalloc: the block list and the address returned (0 on failure). */
  function Malloc(bs: seq<Block>, n: nat): (seq<Block>, nat) {
    if n == 0 then (bs, 0)
    else match FirstFit(bs, AlignUp(n))
      case None => (bs, 0)
      case Some(i) => (Take(bs, i, AlignUp(n)), bs[i].Payload())
  }

  /** The address returned is that of the lowest free block that is large enough. */
  lemma MallocPlace(bs: seq<Block>, n: nat)
    requires 0 < n <= 0xFFFF_FFF8 && Malloc(bs, n).1 != 0
    ensures exists i ::
      && 0 <= i < |bs| && bs[i].free && n <= bs[i].size && Malloc(bs, n).1 == bs[i].addr + 12
      && forall j :: 0 <= j < i && bs[j].free ==> bs[j].size < AlignUp(n)
  {
    hide FirstFit;
    AlignUpBounds(n);
    var i := FirstFit(bs, AlignUp(n)).value;
    assert bs[i].free && Malloc(bs, n).1 == bs[i].addr + 12;
    assert forall j :: 0 <= j < i && bs[j].free ==> !FitsIn(bs[j], AlignUp(n));
  }

  // ---- release --------------------------------------------------------------------------------------

  function Merge(a: Block, b: Block): Block { Block(a.addr, a.size + HDR + b.size, true) }

  /** Runs of free blocks become one. */
  function Coalesce(bs: seq<Block>): (r: seq<Block>)
    ensures bs == [] <==> r == []
    ensures bs != [] ==> r[0].addr == bs[0].addr && r[0].free == bs[0].free
    decreases |bs|
  {
    if |bs| < 2 then bs
    else if bs[0].free && bs[1].free then Coalesce([Merge(bs[0], bs[1])] + bs[2..])
    else [bs[0]] + Coalesce(bs[1..])
  }

  /** kfree of the payload of block `i`. */
  function Release(bs: seq<Block>, i: nat): seq<Block>
    requires i < |bs|
  {
    Coalesce(bs[i := bs[i].(free := true)])
  }

  /** The blocks handed out, in address order. */
  function Live(bs: seq<Block>): seq<Block> {
    if bs == [] then [] else (if bs[0].free then [] else [bs[0]]) + Live(bs[1..])
  }

  lemma {:induction false} LiveJoin(a: seq<Block>, b: seq<Block>)
    ensures Live(a + b) == Live(a) + Live(b)
    decreases |a|
  {
    if a == [] {
      assert a + b == b;
    } else {
      assert (a + b)[1..] == a[1..] + b;
      LiveJoin(a[1..], b);
    }
  }

  // ---- what allocation keeps --------------------------------------------------------------------------

  lemma CarveLive(b: Block, size: nat)
    requires FitsIn(b, size)
    ensures Live(Carve(b, size)) == [Carve(b, size)[0]]
  {
    var r := Carve(b, size);
    if |r| == 2 {
      assert r == [r[0], r[1]] && r[1..] == [r[1]] && r[1..][1..] == [];
      assert Live(r[1..]) == [];
    } else {
      assert r == [r[0]] && r[1..] == [];
    }
  }

  lemma CarveFacts(b: Block, size: nat, base: nat)
    requires FitsIn(b, size) && size % 8 == 0 && base <= b.addr && (b.addr - base) % 4 == 0
    ensures Tiles(Carve(b, size), b.addr, b.End()) && Aligned(Carve(b, size), base) && NoAdjacentFree(Carve(b, size))
    ensures size <= Carve(b, size)[0].size < size + HDR + 8
  {
    hide Live;
    var r := Carve(b, size);
    if |r| == 2 {
      assert r[1..] == [r[1]] && r[1..][1..] == [];
      assert Tiles(r[1..][1..], r[1].End(), b.End());
      assert Tiles(r[1..], r[0].End(), b.End());
    } else {
      assert r[1..] == [];
    }
  }

  lemma LiveFree(b: Block, d: seq<Block>)
    requires b.free
    ensures Live([b] + d) == Live(d)
  {
    assert ([b] + d)[1..] == d;
  }

  lemma JoinNoAdjacent(a: seq<Block>, c: seq<Block>, d: seq<Block>)
    requires c != [] && NoAdjacentFree(a) && NoAdjacentFree(c) && NoAdjacentFree(d)
    requires !c[0].free && (d != [] ==> !d[0].free || !c[|c| - 1].free)
    ensures NoAdjacentFree(a + c + d)
  {
  }

  lemma TakeTiles(bs: seq<Block>, base: nat, hi: nat, i: nat, size: nat)
    requires Tiles(bs, base, hi) && i < |bs| && FitsIn(bs[i], size) && size % 8 == 0 && Aligned(bs, base)
    ensures Tiles(Take(bs, i, size), base, hi)
  {
    hide Carve, FitsIn;
    var a, b, c, d := bs[..i], [bs[i]], Carve(bs[i], size), bs[i + 1..];
    assert bs == a + (b + d) && (b + d)[1..] == d;
    var mid := TilesSplit(a, b + d, base, hi);
    CarveFacts(bs[i], size, base);
    TilesJoin(c, d, mid, bs[i].End(), hi);
    TilesJoin(a, c + d, base, mid, hi);
    assert a + (c + d) == a + c + d;
  }

  lemma TakeLive(bs: seq<Block>, i: nat, size: nat)
    requires i < |bs| && FitsIn(bs[i], size)
    ensures Live(Take(bs, i, size)) == Live(bs[..i]) + [Carve(bs[i], size)[0]] + Live(bs[i + 1..])
    ensures Live(bs) == Live(bs[..i]) + Live(bs[i + 1..])
  {
    hide Carve, Live;
    var a, b, c, d := bs[..i], [bs[i]], Carve(bs[i], size), bs[i + 1..];
    assert bs == a + (b + d);
    LiveJoin(a, b + d);
    LiveFree(bs[i], d);
    LiveJoin(a + c, d);
    LiveJoin(a, c);
    CarveLive(bs[i], size);
  }

  /** Allocation from a heap without adjacent free blocks keeps the heap's invariant. */
  lemma TakeKeeps(bs: seq<Block>, base: nat, total: nat, i: nat, size: nat)
    requires HeapInv(bs, base, total) && i < |bs| && FitsIn(bs[i], size) && size % 8 == 0
    ensures HeapInv(Take(bs, i, size), base, total)
    ensures size <= Carve(bs[i], size)[0].size < size + HDR + 8
  {
    TakeTiles(bs, base, base + total, i, size);
    CarveFacts(bs[i], size, base);
    hide Tiles, Carve;
    var a, c, d := bs[..i], Carve(bs[i], size), bs[i + 1..];
    JoinNoAdjacent(a, c, d);
  }

  // ---- what release keeps -----------------------------------------------------------------------------

  lemma {:induction false} CoalesceTiles(bs: seq<Block>, lo: nat, hi: nat)
    requires Tiles(bs, lo, hi)
    ensures Tiles(Coalesce(bs), lo, hi)
    decreases |bs|
  {
    if |bs| >= 2 {
      assert bs[1..][1..] == bs[2..];
      if bs[0].free && bs[1].free {
        var cs := [Merge(bs[0], bs[1])] + bs[2..];
        assert cs[1..] == bs[2..];
        CoalesceTiles(cs, lo, hi);
      } else {
        CoalesceTiles(bs[1..], bs[0].End(), hi);
        var r := [bs[0]] + Coalesce(bs[1..]);
        assert r[1..] == Coalesce(bs[1..]);
      }
    }
  }

  /** After coalescing no two neighbours are free, whatever the list was. */
  lemma {:induction false} CoalesceSeparates(bs: seq<Block>)
    ensures NoAdjacentFree(Coalesce(bs))
    decreases |bs|
  {
    if |bs| >= 2 {
      if bs[0].free && bs[1].free {
        CoalesceSeparates([Merge(bs[0], bs[1])] + bs[2..]);
      } else {
        CoalesceSeparates(bs[1..]);
        var c := Coalesce(bs[1..]);
        assert c[0].free == bs[1].free;
      }
    }
  }

  lemma {:induction false} CoalesceAligned(bs: seq<Block>, base: nat)
    requires Aligned(bs, base)
    ensures Aligned(Coalesce(bs), base)
    decreases |bs|
  {
    if |bs| >= 2 {
      if bs[0].free && bs[1].free {
        CoalesceAligned([Merge(bs[0], bs[1])] + bs[2..], base);
      } else {
        CoalesceAligned(bs[1..], base);
      }
    }
  }

  /** Coalescing neither moves nor drops a live block. */
  lemma {:induction false} CoalesceLive(bs: seq<Block>)
    ensures Live(Coalesce(bs)) == Live(bs)
    decreases |bs|
  {
    if |bs| >= 2 {
      assert bs[1..][1..] == bs[2..] && bs[1..][0] == bs[1];
      if bs[0].free && bs[1].free {
        var cs := [Merge(bs[0], bs[1])] + bs[2..];
        assert cs[1..] == bs[2..];
        CoalesceLive(cs);
      } else {
        CoalesceLive(bs[1..]);
        var r := [bs[0]] + Coalesce(bs[1..]);
        assert r[1..] == Coalesce(bs[1..]);
      }
    }
  }

  /** A list without adjacent free blocks is left alone. */
  lemma {:induction false} CoalesceFixed(bs: seq<Block>)
    requires NoAdjacentFree(bs)
    ensures Coalesce(bs) == bs
    decreases |bs|
  {
    if |bs| >= 2 {
      CoalesceFixed(bs[1..]);
      assert [bs[0]] + bs[1..] == bs;
    }
  }

  lemma {:induction false} CoalesceFront(a: seq<Block>, b: seq<Block>)
    requires NoAdjacentFree(a) && (a != [] && b != [] ==> !(a[|a| - 1].free && b[0].free))
    ensures Coalesce(a + b) == a + Coalesce(b)
    decreases |a|
  {
    if a == [] {
      assert a + b == b;
    } else {
      assert (a + b)[1..] == a[1..] + b;
      CoalesceFront(a[1..], b);
      if |a + b| < 2 {
        assert b == [];
      } else {
        assert !((a + b)[0].free && (a + b)[1].free);
        assert [a[0]] + (a[1..] + Coalesce(b)) == a + Coalesce(b);
      }
    }
  }

  lemma MarkTiles(bs: seq<Block>, lo: nat, hi: nat, i: nat)
    requires Tiles(bs, lo, hi) && i < |bs|
    ensures Tiles(bs[i := bs[i].(free := true)], lo, hi)
  {
    var a, b, d := bs[..i], bs[i].(free := true), bs[i + 1..];
    assert bs == a + ([bs[i]] + d) && bs[i := b] == a + ([b] + d);
    var mid := TilesSplit(a, [bs[i]] + d, lo, hi);
    assert ([bs[i]] + d)[1..] == d && ([b] + d)[1..] == d;
    TilesJoin(a, [b] + d, lo, mid, hi);
  }

  lemma MarkLive(bs: seq<Block>, i: nat)
    requires i < |bs|
    ensures Live(bs[i := bs[i].(free := true)]) == Live(bs[..i]) + Live(bs[i + 1..])
  {
    hide Live;
    var a, b, d := bs[..i], bs[i].(free := true), bs[i + 1..];
    assert bs[i := b] == a + ([b] + d);
    LiveJoin(a, [b] + d);
    LiveFree(b, d);
  }

  /** Release keeps the heap's invariant and every other live block. */
  lemma ReleaseKeeps(bs: seq<Block>, base: nat, total: nat, i: nat)
    requires HeapInv(bs, base, total) && i < |bs|
    ensures HeapInv(Release(bs, i), base, total)
    ensures Live(Release(bs, i)) == Live(bs[..i]) + Live(bs[i + 1..])
  {
    hide Coalesce, Live, Tiles;
    var cs := bs[i := bs[i].(free := true)];
    MarkTiles(bs, base, base + total, i);
    CoalesceTiles(cs, base, base + total);
    CoalesceSeparates(cs);
    CoalesceAligned(cs, base);
    CoalesceLive(cs);
    MarkLive(bs, i);
  }

  // ---- release undoes allocation ------------------------------------------------------------------------

  /** Freeing a fresh allocation gives back the exact earlier block list. */
  lemma ReleaseUndoesTake(bs: seq<Block>, i: nat, size: nat)
    requires NoAdjacentFree(bs) && i < |bs| && FitsIn(bs[i], size)
    ensures i < |Take(bs, i, size)| && Take(bs, i, size)[i].addr == bs[i].addr
    ensures Release(Take(bs, i, size), i) == bs
  {
    hide Coalesce;
    var a, b, c, d := bs[..i], bs[i], Carve(bs[i], size), bs[i + 1..];
    var ts := Take(bs, i, size);
    var back := ts[i := ts[i].(free := true)];
    assert bs == a + ([b] + d) && a + [b] == bs[..i + 1];
    if |c| == 1 {
      assert back == bs;
      CoalesceFixed(bs);
    } else {
      var f := c[0].(free := true);
      assert back == a + ([f, c[1]] + d);
      CoalesceFront(a, [f, c[1]] + d);
      MergeBack(f, c[1], d);
      assert Merge(f, c[1]) == b;
      assert NoAdjacentFree([b] + d);
      CoalesceFixed([b] + d);
    }
  }

  lemma MergeBack(f: Block, g: Block, d: seq<Block>)
    requires f.free && g.free
    ensures Coalesce([f, g] + d) == Coalesce([Merge(f, g)] + d)
  {
    var s := [f, g] + d;
    assert s[2..] == d;
  }

  /** A heap with nothing handed out is one block spanning the region. */
  lemma NothingLive(bs: seq<Block>, base: nat, total: nat)
    requires HeapInv(bs, base, total) && Live(bs) == []
    ensures total >= HDR && bs == [Block(base, total - HDR, true)]
  {
    AllFree(bs);
    assert bs[1..] == [] && Tiles(bs[1..], bs[0].End(), base + total);
  }

  lemma {:induction false} AllFree(bs: seq<Block>)
    requires Live(bs) == []
    ensures forall i :: 0 <= i < |bs| ==> bs[i].free
    decreases |bs|
  {
    if bs != [] {
      AllFree(bs[1..]);
    }
  }

  /**
   * kmalloc fails exactly when no free block is large enough. Otherwise the
   * block handed out wastes less than 20 bytes beyond the rounded request, holds
   * the request unless rounding it up wrapped around, and freeing it at once
   * restores the list.
   */
  lemma MallocMeets(bs: seq<Block>, base: nat, total: nat, n: nat)
    requires HeapInv(bs, base, total) && 0 < n < DWORD && total <= HEAP_MAX
    ensures Malloc(bs, n).1 == 0 <==> forall j :: 0 <= j < |bs| && bs[j].free ==> bs[j].size < AlignUp(n)
    ensures Malloc(bs, n).1 != 0 ==>
      exists i :: 0 <= i < |bs| && FitsIn(bs[i], AlignUp(n)) && i < |Malloc(bs, n).0|
        && (var b := Malloc(bs, n).0[i];
            && b.Payload() == Malloc(bs, n).1 && !b.free
            && AlignUp(n) <= b.size < AlignUp(n) + HDR + 8
            && (n <= b.size <==> n <= 0xFFFF_FFF8)
            && Release(Malloc(bs, n).0, i) == bs)
  {
    hide Tiles, Release, Carve;
    var size := AlignUp(n);
    if FirstFit(bs, size).Some? {
      var i := FirstFit(bs, size).value;
      assert FitsIn(bs[i], size);
      TakeKeeps(bs, base, total, i, size);
      ReleaseUndoesTake(bs, i, size);
      AlignUpBounds(n);
      BlockSmall(Take(bs, i, size), base, total, i);
      var b := Malloc(bs, n).0[i];
      assert b == Carve(bs[i], size)[0];
    } else {
      assert forall j :: 0 <= j < |bs| && bs[j].free ==> !FitsIn(bs[j], size);
    }
  }

  lemma BlockSmall(bs: seq<Block>, base: nat, total: nat, i: nat)
    requires HeapInv(bs, base, total) && i < |bs|
    ensures bs[i].size + HDR <= total
  {
    TilesAt(bs, base, base + total, i);
  }

  /** On a fresh heap a request that wraps around succeeds, with a block smaller than the request. */
  lemma MallocWraps(base: nat, total: nat)
    requires 0 < base && HDR <= total <= HEAP_MAX
    ensures var (bs, ptr) := Malloc([Block(base, total - HDR, true)], 0xFFFF_FFFF);
      ptr == base + HDR && bs != [] && bs[0].Payload() == ptr && !bs[0].free && bs[0].size < 0xFFFF_FFFF
  {
    var bs := [Block(base, total - HDR, true)];
    assert AlignUp(0xFFFF_FFFF) == 0;
    assert FirstFit(bs, 0) == Some(0);
    assert bs[..0] == [] && bs[1..] == [];
  }

  // ---- the live blocks determine the list ------------------------------------------------------------

  lemma FirstLive(bs: seq<Block>, lo: nat, hi: nat)
    requires Tiles(bs, lo, hi) && NoAdjacentFree(bs) && bs != [] && bs[0].free
    ensures Live(bs) == Live(bs[1..])
    ensures bs[0].End() == if Live(bs) == [] then hi else Live(bs)[0].addr
    ensures bs[1..] != [] <==> Live(bs) != []
  {
    var r := bs[1..];
    if r != [] {
      assert r[0] == bs[1] && !bs[1].free;
    }
  }

  lemma LiveHead(bs: seq<Block>)
    requires bs != [] && !bs[0].free
    ensures Live(bs) != [] && Live(bs)[0] == bs[0] && Live(bs)[1..] == Live(bs[1..])
  {
  }

  lemma {:induction false} TilesDetermined(a: seq<Block>, b: seq<Block>, lo: nat, hi: nat)
    requires Tiles(a, lo, hi) && Tiles(b, lo, hi) && NoAdjacentFree(a) && NoAdjacentFree(b) && Live(a) == Live(b)
    ensures a == b
    decreases |a| + |b|
  {
    hide Live;
    TilesOrder(a, lo, hi);
    TilesOrder(b, lo, hi);
    if a != [] && b != [] {
      if a[0].free { FirstLive(a, lo, hi); } else { LiveHead(a); }
      if b[0].free { FirstLive(b, lo, hi); } else { LiveHead(b); }
      assert a[0].End() == b[0].End();
      TilesDetermined(a[1..], b[1..], a[0].End(), hi);
      assert a == [a[0]] + a[1..] && b == [b[0]] + b[1..];
    }
  }

  /** Two heaps over one region with the same blocks handed out are the same list. */
  lemma LiveDetermines(bs: seq<Block>, bs': seq<Block>, base: nat, total: nat)
    requires HeapInv(bs, base, total) && HeapInv(bs', base, total) && Live(bs) == Live(bs')
    ensures bs == bs'
  {
    TilesDetermined(bs, bs', base, base + total);
  }

  predicate Ascending(xs: seq<Block>) { forall i, j :: 0 <= i < j < |xs| ==> xs[i].addr < xs[j].addr }

  lemma {:induction false} LiveAscending(bs: seq<Block>, lo: nat, hi: nat)
    requires Tiles(bs, lo, hi)
    ensures Ascending(Live(bs)) && forall b :: b in Live(bs) ==> lo <= b.addr
    decreases |bs|
  {
    if bs != [] {
      LiveAscending(bs[1..], bs[0].End(), hi);
      hide Tiles, Ascending;
      AscendingCons(bs[0], Live(bs[1..]));
    }
  }

  lemma AscendingCons(b: Block, r: seq<Block>)
    requires Ascending(r) && forall x :: x in r ==> b.End() <= x.addr
    ensures Ascending([b] + r)
  {
    forall i, j | 0 <= i < j < |[b] + r|
      ensures ([b] + r)[i].addr < ([b] + r)[j].addr
    {
      assert r[j - 1] in r;
    }
  }

  lemma {:induction false} AscendingSame(xs: seq<Block>, ys: seq<Block>)
    requires Ascending(xs) && Ascending(ys) && forall b :: b in xs <==> b in ys
    ensures xs == ys
    decreases |xs|
  {
    SomeMember(ys);
    if xs != [] {
      assert xs[0] in ys;
      assert ys[0] in xs;
      assert xs[0] == ys[0];
      var x, y := xs[1..], ys[1..];
      TailMembers(xs);
      TailMembers(ys);
      AscendingSame(x, y);
    }
  }

  lemma SomeMember(xs: seq<Block>)
    ensures xs == [] || xs[0] in xs
  {
  }

  lemma TailMembers(xs: seq<Block>)
    requires Ascending(xs) && xs != []
    ensures xs == [xs[0]] + xs[1..] && Ascending(xs[1..]) && forall b :: b in xs[1..] <==> b in xs && b != xs[0]
  {
    var x := xs[1..];
    assert forall i :: 0 <= i < |x| ==> x[i] == xs[i + 1];
    assert xs[0] !in x;
    assert xs == [xs[0]] + x;
  }

  /**
   * It is enough that the same blocks are handed out, in whatever order it came
   * about: what was allocated and given back in between has left no trace.
   */
  lemma MembersDetermine(bs: seq<Block>, bs': seq<Block>, base: nat, total: nat)
    requires HeapInv(bs, base, total) && HeapInv(bs', base, total) && forall b :: b in Live(bs) <==> b in Live(bs')
    ensures bs == bs'
  {
    hide Live;
    LiveAscending(bs, base, base + total);
    LiveAscending(bs', base, base + total);
    AscendingSame(Live(bs), Live(bs'));
    LiveDetermines(bs, bs', base, total);
  }
}
