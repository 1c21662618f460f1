/** Runs of kmalloc and kfree: every allocation keeps its address, its size and its distance from the others. */
module HeapRuns {
  import opened Bytes
  import opened Blocks
  import opened Heap
  import opened Payloads

  /** What a caller was promised: the bytes asked for and the bytes of the block. */
  datatype Grant = Grant(request: nat, size: nat)

  /** The block list, and the grants still held, by payload address. */
  datatype State = State(bs: seq<Block>, grants: map<nat, Grant>)

  datatype HeapOp = Alloc(n: nat) | Free(ptr: nat)

  /** kfree is called with addresses kmalloc gave out and has not taken back. */
  predicate OpOk(s: State, op: HeapOp) {
    match op
    case Alloc(n) => n < DWORD
    case Free(ptr) => ptr in s.grants && PayloadIndex(s.bs, ptr).Some?
  }

  /** Size of the block at payload address `ptr`. */
  function SizeAt(bs: seq<Block>, ptr: nat): nat {
    match PayloadIndex(bs, ptr)
    case None => 0
    case Some(i) => bs[i].size
  }

  function Apply(s: State, op: HeapOp): State
    requires OpOk(s, op)
  {
    match op
    case Alloc(n) =>
      var (bs, ptr) := Malloc(s.bs, n);
      State(bs, if ptr == 0 then s.grants else s.grants[ptr := Grant(n, SizeAt(bs, ptr))])
    case Free(ptr) => State(Release(s.bs, PayloadIndex(s.bs, ptr).value), s.grants - {ptr})
  }

  predicate IsRun(s: State, ops: seq<HeapOp>)
    decreases |ops|
  {
    ops != [] ==> OpOk(s, ops[0]) && IsRun(Apply(s, ops[0]), ops[1..])
  }

  function After(s: State, ops: seq<HeapOp>): State
    requires IsRun(s, ops)
    decreases |ops|
  {
    if ops == [] then s else After(Apply(s, ops[0]), ops[1..])
  }

  // ---- the invariant ----------------------------------------------------------------------------

  /** The block of a grant: handed out, with exactly the size promised. */
  ghost predicate Held(bs: seq<Block>, ptr: nat, g: Grant) {
    exists b :: b in Live(bs) && b.Payload() == ptr && b.size == g.size
  }

  /** The grants are the live blocks. */
  ghost predicate Granted(s: State) {
    && (forall ptr :: ptr in s.grants ==> Held(s.bs, ptr, s.grants[ptr]))
    && (forall b :: b in Live(s.bs) ==> b.Payload() in s.grants)
  }

  /** The block holds the request, unless rounding it up wrapped around, and wastes less than 20 bytes. */
  predicate Meets(g: Grant) {
    && AlignUp(g.request) <= g.size < AlignUp(g.request) + HDR + 8
    && (g.request <= g.size <==> g.request <= 0xFFFF_FFF8)
  }

  ghost predicate Inv(s: State, base: nat, total: nat) {
    && HeapInv(s.bs, base, total) && total <= HEAP_MAX && Granted(s)
    && forall ptr :: ptr in s.grants ==> Meets(s.grants[ptr])
  }

  /** No two payloads share a byte. */
  ghost predicate Apart(grants: map<nat, Grant>) {
    forall p, q :: p in grants && q in grants && p < q ==> p + grants[p].size <= q
  }

  // ---- steps ----------------------------------------------------------------------------------

  /** The live blocks after taking from block `i`: those before, and the new one. */
  lemma TakeMembers(bs: seq<Block>, i: nat, size: nat)
    requires i < |bs| && FitsIn(bs[i], size)
    ensures forall b :: b in Live(Take(bs, i, size)) <==> b in Live(bs) || b == Carve(bs[i], size)[0]
  {
    hide Take, Carve, Live;
    TakeLive(bs, i, size);
  }

  lemma ReleaseMembers(bs: seq<Block>, base: nat, total: nat, i: nat)
    requires HeapInv(bs, base, total) && i < |bs| && !bs[i].free
    ensures forall b :: b in Live(bs) <==> b in Live(Release(bs, i)) || b == bs[i]
    ensures forall b :: b in Live(Release(bs, i)) ==> b.Payload() != bs[i].Payload()
  {
    hide Release, Live, Tiles;
    ReleaseKeeps(bs, base, total, i);
    var a, d := bs[..i], bs[i + 1..];
    assert bs == a + ([bs[i]] + d);
    LiveJoin(a, [bs[i]] + d);
    LiveJoin([bs[i]], d);
    LiveOne(bs[i]);
    LiveMember(a);
    LiveMember(d);
    forall b | b in Live(Release(bs, i)) ensures b.Payload() != bs[i].Payload() {
      Elsewhere(bs, base, base + total, i, b);
    }
  }

  /** The blocks around one lie elsewhere. */
  lemma Elsewhere(bs: seq<Block>, lo: nat, hi: nat, i: nat, b: Block)
    requires Tiles(bs, lo, hi) && i < |bs| && (b in bs[..i] || b in bs[i + 1..])
    ensures b.Payload() != bs[i].Payload()
  {
    hide Tiles;
    var j :| 0 <= j < |bs| && j != i && bs[j] == b;
    if b.Payload() == bs[i].Payload() { OnePayload(bs, lo, hi, j, i); }
  }

  lemma LiveOne(b: Block)
    requires !b.free
    ensures Live([b]) == [b]
  {
    assert [b][1..] == [];
  }

  /** Everything about the block kmalloc hands out. */
  lemma NewBlock(bs: seq<Block>, base: nat, total: nat, n: nat) returns (c: Block)
    requires HeapInv(bs, base, total) && total <= HEAP_MAX && 0 < n < DWORD && Malloc(bs, n).1 != 0
    ensures HeapInv(Malloc(bs, n).0, base, total)
    ensures c.Payload() == Malloc(bs, n).1 && c.size == SizeAt(Malloc(bs, n).0, Malloc(bs, n).1)
    ensures Meets(Grant(n, c.size))
    ensures forall b :: b in Live(Malloc(bs, n).0) <==> b in Live(bs) || b == c
    ensures forall b :: b in Live(bs) ==> b.Payload() != c.Payload()
  {
    hide Tiles, Live, FirstFit, PayloadIndex, NoAdjacentFree, Aligned;
    var size := AlignUp(n);
    var i := FirstFit(bs, size).value;
    c := Carve(bs[i], size)[0];
    var ts := Take(bs, i, size);
    TakeKeeps(bs, base, total, i, size);
    TakeMembers(bs, i, size);
    assert ts[i] == c;
    IndexOf(ts, c.Payload(), i);
    OnePayload(ts, base, base + total, i, PayloadIndex(ts, c.Payload()).value);
    AlignUpBounds(n);
    BlockSmall(ts, base, total, i);
    MallocPtrs(bs, base, total, n);
    forall b | b in Live(bs) ensures b.Payload() != c.Payload() { PtrsOf(Live(bs), b); }
  }

  /** In terms of addresses: kmalloc adds the one it returns, kfree removes the one it is given. */
  lemma MallocMembers(bs: seq<Block>, base: nat, total: nat, n: nat)
    requires HeapInv(bs, base, total) && total <= HEAP_MAX && 0 < n < DWORD && Malloc(bs, n).1 != 0
    ensures HeapInv(Malloc(bs, n).0, base, total)
    ensures forall b :: b in Live(bs) <==> b in Live(Malloc(bs, n).0) && b.Payload() != Malloc(bs, n).1
  {
    hide HeapInv, Live, Malloc, SizeAt, Meets;
    var c := NewBlock(bs, base, total, n);
  }

  lemma FreeMembers(bs: seq<Block>, base: nat, total: nat, ptr: nat)
    requires HeapInv(bs, base, total) && PayloadIndex(bs, ptr).Some?
    ensures var bs' := Release(bs, PayloadIndex(bs, ptr).value);
      HeapInv(bs', base, total) && forall b :: b in Live(bs') <==> b in Live(bs) && b.Payload() != ptr
  {
    hide Live, Release, PayloadIndex, Tiles;
    var i := PayloadIndex(bs, ptr).value;
    ReleaseKeeps(bs, base, total, i);
    if bs[i].free {
      FreeAlready(bs, base, total, i);
    } else {
      ReleaseMembers(bs, base, total, i);
    }
  }

  lemma FreeAlready(bs: seq<Block>, base: nat, total: nat, i: nat)
    requires HeapInv(bs, base, total) && i < |bs| && bs[i].free
    ensures forall b :: b in Live(Release(bs, i)) <==> b in Live(bs) && b.Payload() != bs[i].Payload()
  {
    hide Live, Tiles, Coalesce, NoAdjacentFree, Aligned;
    assert bs[i := bs[i].(free := true)] == bs;
    CoalesceFixed(bs);
    LiveMember(bs);
    forall b | b in Live(bs) ensures b.Payload() != bs[i].Payload() {
      var j :| 0 <= j < |bs| && bs[j] == b;
      if b.Payload() == bs[i].Payload() { OnePayload(bs, base, base + total, i, j); }
    }
  }

  lemma {:induction false} PtrsOf(xs: seq<Block>, b: Block)
    requires b in xs
    ensures b.Payload() in Ptrs(xs)
    decreases |xs|
  {
    if b != xs[0] { PtrsOf(xs[1..], b); }
  }

  lemma ApplyKeeps(s: State, base: nat, total: nat, op: HeapOp)
    requires Inv(s, base, total) && OpOk(s, op)
    ensures Inv(Apply(s, op), base, total)
    ensures forall ptr :: ptr in s.grants && op != Free(ptr) ==>
      ptr in Apply(s, op).grants && Apply(s, op).grants[ptr] == s.grants[ptr]
  {
    match op
    case Alloc(n) => AllocKeeps(s, base, total, n);
    case Free(ptr) => FreeKeeps(s, base, total, ptr);
  }

  lemma AllocKeeps(s: State, base: nat, total: nat, n: nat)
    requires Inv(s, base, total) && n < DWORD
    ensures Inv(Apply(s, Alloc(n)), base, total)
    ensures forall ptr :: ptr in s.grants ==>
      ptr in Apply(s, Alloc(n)).grants && Apply(s, Alloc(n)).grants[ptr] == s.grants[ptr]
  {
    hide HeapInv, Live, Malloc, SizeAt, Meets, Granted;
    if n == 0 { MallocNothing(s.bs); } else { MallocPtrs(s.bs, base, total, n); }
    if Malloc(s.bs, n).1 != 0 {
      var c := NewBlock(s.bs, base, total, n);
      GrantAdded(s, Malloc(s.bs, n).0, c, n);
    }
  }

  lemma MallocNothing(bs: seq<Block>)
    ensures Malloc(bs, 0) == (bs, 0)
  {
  }

  lemma GrantAdded(s: State, bs': seq<Block>, c: Block, n: nat)
    requires Granted(s) && forall b :: b in Live(bs') <==> b in Live(s.bs) || b == c
    requires forall b :: b in Live(s.bs) ==> b.Payload() != c.Payload()
    ensures c.Payload() !in s.grants && Granted(State(bs', s.grants[c.Payload() := Grant(n, c.size)]))
  {
    hide Live, Held;
    var s' := State(bs', s.grants[c.Payload() := Grant(n, c.size)]);
    forall ptr | ptr in s.grants ensures ptr != c.Payload() { HeldElsewhere(s.bs, ptr, s.grants[ptr], c); }
    forall ptr | ptr in s'.grants ensures Held(s'.bs, ptr, s'.grants[ptr]) {
      if ptr != c.Payload() { HeldStays(s.bs, s'.bs, ptr, s.grants[ptr]); } else { HeldBy(bs', c, n); }
    }
  }

  lemma HeldBy(bs: seq<Block>, c: Block, n: nat)
    requires c in Live(bs)
    ensures Held(bs, c.Payload(), Grant(n, c.size))
  {
    hide Live;
  }

  lemma HeldStays(bs: seq<Block>, bs': seq<Block>, ptr: nat, g: Grant)
    requires Held(bs, ptr, g) && forall b :: b in Live(bs) ==> b in Live(bs')
    ensures Held(bs', ptr, g)
  {
    hide Live;
  }

  lemma HeldElsewhere(bs: seq<Block>, ptr: nat, g: Grant, c: Block)
    requires Held(bs, ptr, g) && forall b :: b in Live(bs) ==> b.Payload() != c.Payload()
    ensures ptr != c.Payload()
  {
    hide Live;
  }

  lemma FreeKeeps(s: State, base: nat, total: nat, ptr: nat)
    requires Inv(s, base, total) && OpOk(s, Free(ptr))
    ensures Inv(Apply(s, Free(ptr)), base, total)
  {
    hide HeapInv, Live, Release, Meets, PayloadIndex;
    var s', i := Apply(s, Free(ptr)), PayloadIndex(s.bs, ptr).value;
    assert Held(s.bs, ptr, s.grants[ptr]);
    LiveIndex(s.bs, base, total, ptr, s.grants[ptr], i);
    ReleaseKeeps(s.bs, base, total, i);
    ReleaseMembers(s.bs, base, total, i);
    forall p | p in s'.grants ensures Held(s'.bs, p, s'.grants[p]) {
      assert Held(s.bs, p, s.grants[p]);
      var b :| b in Live(s.bs) && b.Payload() == p && b.size == s.grants[p].size;
      assert b in Live(s'.bs);
    }
  }

  lemma LiveIndex(bs: seq<Block>, base: nat, total: nat, ptr: nat, g: Grant, i: nat)
    requires HeapInv(bs, base, total) && Held(bs, ptr, g) && i < |bs| && bs[i].Payload() == ptr
    ensures !bs[i].free && bs[i].size == g.size
  {
    hide Tiles, Live;
    LiveMember(bs);
    var b :| b in Live(bs) && b.Payload() == ptr && b.size == g.size;
    var j :| 0 <= j < |bs| && bs[j] == b;
    OnePayload(bs, base, base + total, i, j);
  }

  /** Grants of a heap are apart and inside the region. */
  lemma GrantsApart(s: State, base: nat, total: nat)
    requires Inv(s, base, total)
    ensures Apart(s.grants)
    ensures forall p :: p in s.grants ==> base + HDR <= p && p + s.grants[p].size <= base + total
  {
    hide Tiles, Live, Meets, NoAdjacentFree, Aligned;
    forall p | p in s.grants ensures base + HDR <= p && p + s.grants[p].size <= base + total {
      var i := HeldAt(s.bs, p, s.grants[p]);
      TilesAt(s.bs, base, base + total, i);
    }
    forall p, q | p in s.grants && q in s.grants && p < q ensures p + s.grants[p].size <= q {
      var i := HeldAt(s.bs, p, s.grants[p]);
      var j := HeldAt(s.bs, q, s.grants[q]);
      if i < j { TilesApart(s.bs, base, base + total, i, j); }
      if j < i { TilesApart(s.bs, base, base + total, j, i); }
    }
  }

  lemma HeldAt(bs: seq<Block>, ptr: nat, g: Grant) returns (i: nat)
    requires Held(bs, ptr, g)
    ensures i < |bs| && bs[i].Payload() == ptr && bs[i].size == g.size
  {
    hide Live;
    LiveMember(bs);
    var b :| b in Live(bs) && b.Payload() == ptr && b.size == g.size;
    i :| 0 <= i < |bs| && bs[i] == b;
  }

  // ---- runs ------------------------------------------------------------------------------------------

  /** heap_init leaves one free block and nothing granted: the invariant holds. */
  lemma FreshHeap(base: nat, total: nat)
    requires HDR <= total <= HEAP_MAX
    ensures Inv(State([Block(base, total - HDR, true)], map[]), base, total)
  {
    var bs := [Block(base, total - HDR, true)];
    assert bs[1..] == [] && Tiles(bs[1..], bs[0].End(), base + total);
    assert Live(bs) == [];
  }

  /**
   * Over any run of kmalloc and kfree: the blocks tile the region without free
   * neighbours; the live blocks are exactly the grants, each with the size it was
   * given, holding its request and less than 20 bytes more than that rounded up;
   * no two overlap; and with nothing handed out the heap is one block again.
   */
  lemma {:induction false} RunKeeps(s: State, base: nat, total: nat, ops: seq<HeapOp>)
    requires Inv(s, base, total) && IsRun(s, ops)
    ensures Inv(After(s, ops), base, total) && Apart(After(s, ops).grants)
    ensures After(s, ops).grants == map[] ==> total >= HDR && After(s, ops).bs == [Block(base, total - HDR, true)]
    decreases |ops|
  {
    hide Inv, Apply, OpOk, Apart, Live;
    if ops == [] {
      GrantsApart(s, base, total);
      if s.grants == map[] { EmptyHeap(s, base, total); }
    } else {
      ApplyKeeps(s, base, total, ops[0]);
      RunKeeps(Apply(s, ops[0]), base, total, ops[1..]);
    }
  }

  lemma EmptyHeap(s: State, base: nat, total: nat)
    requires Inv(s, base, total) && s.grants == map[]
    ensures total >= HDR && s.bs == [Block(base, total - HDR, true)]
  {
    hide HeapInv;
    SomeMember(Live(s.bs));
    NothingLive(s.bs, base, total);
  }

  /** An allocation keeps its address and size until it is freed, whatever else is allocated and freed. */
  lemma {:induction false} GrantStays(s: State, base: nat, total: nat, ops: seq<HeapOp>, ptr: nat)
    requires Inv(s, base, total) && IsRun(s, ops) && ptr in s.grants && Free(ptr) !in ops
    ensures ptr in After(s, ops).grants && After(s, ops).grants[ptr] == s.grants[ptr]
    ensures Held(After(s, ops).bs, ptr, s.grants[ptr])
    decreases |ops|
  {
    hide Apply, OpOk, HeapInv, Held;
    if ops != [] {
      ApplyKeeps(s, base, total, ops[0]);
      assert ops[0] in ops && forall op :: op in ops[1..] ==> op in ops;
      GrantStays(Apply(s, ops[0]), base, total, ops[1..], ptr);
    }
  }
}
