/** The addresses the heap has handed out, as a multiset that kmalloc and kfree change by one element. */
module Payloads {
  import opened Options
  import opened Bytes
  import opened Blocks
  import opened Heap

  function Ptrs(xs: seq<Block>): multiset<nat> {
    if xs == [] then multiset{} else multiset{xs[0].Payload()} + Ptrs(xs[1..])
  }

  lemma {:induction false} PtrsJoin(a: seq<Block>, b: seq<Block>)
    ensures Ptrs(a + b) == Ptrs(a) + Ptrs(b)
    decreases |a|
  {
    if a == [] {
      assert a + b == b;
    } else {
      assert (a + b)[1..] == a[1..] + b;
      PtrsJoin(a[1..], b);
    }
  }

  lemma {:induction false} PtrsMember(xs: seq<Block>, ptr: nat)
    requires ptr in Ptrs(xs)
    ensures exists b :: b in xs && b.Payload() == ptr
    decreases |xs|
  {
    if xs[0].Payload() == ptr {
      assert xs[0] in xs;
    } else {
      PtrsMember(xs[1..], ptr);
    }
  }

  /** The payload addresses of a tiling are distinct. */
  lemma OnePayload(bs: seq<Block>, lo: nat, hi: nat, i: nat, j: nat)
    requires Tiles(bs, lo, hi) && i < |bs| && j < |bs| && bs[i].Payload() == bs[j].Payload()
    ensures i == j
  {
    hide Tiles;
    if i < j { TilesApart(bs, lo, hi, i, j); }
    if j < i { TilesApart(bs, lo, hi, j, i); }
  }

  lemma LivePayload(bs: seq<Block>, base: nat, total: nat, ptr: nat) returns (j: nat)
    requires HeapInv(bs, base, total) && ptr in Ptrs(Live(bs))
    ensures j < |bs| && bs[j].Payload() == ptr && !bs[j].free
  {
    hide Tiles;
    PtrsMember(Live(bs), ptr);
    LiveMember(bs);
    var b :| b in Live(bs) && b.Payload() == ptr;
    j :| 0 <= j < |bs| && bs[j] == b;
  }

  /** kmalloc hands out one new address, or changes nothing. */
  lemma MallocPtrs(bs: seq<Block>, base: nat, total: nat, n: nat)
    requires HeapInv(bs, base, total) && 0 < n
    ensures Malloc(bs, n).1 == 0 ==> Malloc(bs, n).0 == bs
    ensures Malloc(bs, n).1 == 0 <==> FirstFit(bs, AlignUp(n)) == None
    ensures Malloc(bs, n).1 != 0 ==> Malloc(bs, n).1 !in Ptrs(Live(bs))
    ensures Malloc(bs, n).1 != 0 ==> Ptrs(Live(Malloc(bs, n).0)) == Ptrs(Live(bs)) + multiset{Malloc(bs, n).1}
  {
    hide Tiles, Carve, Live, FirstFit, Take, Ptrs, NoAdjacentFree, Aligned;
    var size := AlignUp(n);
    if FirstFit(bs, size).Some? {
      var i := FirstFit(bs, size).value;
      TakePtrs(bs, i, size);
      if bs[i].Payload() in Ptrs(Live(bs)) {
        var j := LivePayload(bs, base, total, bs[i].Payload());
        OnePayload(bs, base, base + total, i, j);
      }
    }
  }

  lemma TakePtrs(bs: seq<Block>, i: nat, size: nat)
    requires i < |bs| && FitsIn(bs[i], size)
    ensures Ptrs(Live(Take(bs, i, size))) == Ptrs(Live(bs)) + multiset{bs[i].Payload()}
  {
    hide Carve, Live, Take, Ptrs;
    var a, c, d := Live(bs[..i]), Carve(bs[i], size)[0], Live(bs[i + 1..]);
    TakeLive(bs, i, size);
    PtrsJoin(a, d);
    PtrsJoin(a + [c], d);
    PtrsJoin(a, [c]);
    PtrsOne(c);
  }

  lemma PtrsOne(b: Block)
    ensures Ptrs([b]) == multiset{b.Payload()}
  {
    assert [b][1..] == [];
  }

  /** kfree of an address handed out takes back exactly that one. */
  lemma FreePtrs(bs: seq<Block>, base: nat, total: nat, ptr: nat)
    requires HeapInv(bs, base, total) && ptr in Ptrs(Live(bs))
    ensures PayloadIndex(bs, ptr).Some?
    ensures Ptrs(Live(Release(bs, PayloadIndex(bs, ptr).value))) == Ptrs(Live(bs)) - multiset{ptr}
  {
    hide Tiles, Live, Release, PayloadIndex;
    var j := LivePayload(bs, base, total, ptr);
    IndexOf(bs, ptr, j);
    var i := PayloadIndex(bs, ptr).value;
    OnePayload(bs, base, base + total, i, j);
    ReleaseKeeps(bs, base, total, i);
    PtrsJoin(Live(bs[..i]), Live(bs[i + 1..]));
    LivePtrsSplit(bs, i);
  }

  /** Giving a fresh address back at once restores the list. */
  lemma MallocFree(bs: seq<Block>, base: nat, total: nat, n: nat)
    requires HeapInv(bs, base, total) && 0 < n && Malloc(bs, n).1 != 0
    ensures HeapInv(Malloc(bs, n).0, base, total) && PayloadIndex(Malloc(bs, n).0, Malloc(bs, n).1).Some?
    ensures Release(Malloc(bs, n).0, PayloadIndex(Malloc(bs, n).0, Malloc(bs, n).1).value) == bs
  {
    hide Tiles, Carve, FirstFit, Release, PayloadIndex, Aligned;
    var size := AlignUp(n);
    var i := FirstFit(bs, size).value;
    var ts := Take(bs, i, size);
    TakeKeeps(bs, base, total, i, size);
    ReleaseUndoesTake(bs, i, size);
    IndexOf(ts, bs[i].Payload(), i);
    OnePayload(ts, base, base + total, i, PayloadIndex(ts, bs[i].Payload()).value);
  }

  lemma {:induction false} IndexOf(bs: seq<Block>, ptr: nat, j: nat)
    requires j < |bs| && bs[j].Payload() == ptr
    ensures PayloadIndex(bs, ptr).Some?
    decreases |bs|
  {
    if j > 0 && bs[0].Payload() != ptr {
      IndexOf(bs[1..], ptr, j - 1);
    }
  }

  lemma LivePtrsSplit(bs: seq<Block>, i: nat)
    requires i < |bs| && !bs[i].free
    ensures Ptrs(Live(bs)) == Ptrs(Live(bs[..i])) + multiset{bs[i].Payload()} + Ptrs(Live(bs[i + 1..]))
  {
    hide Ptrs;
    var a, b, c := bs[..i], [bs[i]], bs[i + 1..];
    assert bs == a + (b + c) && (b + c)[1..] == c;
    LiveJoin(a, b + c);
    PtrsJoin(Live(a), Live(b + c));
    PtrsJoin(b, Live(c));
    PtrsOne(bs[i]);
  }

  // ---- what others keep ---------------------------------------------------------------------------

  /** No block in use has lost a byte. */
  ghost predicate LiveKept(m: seq<nat>, m': seq<nat>, base: nat, bs: seq<Block>) {
    forall b :: b in Live(bs) ==> base <= b.addr && SamePayload(m, m', base, b)
  }

  lemma LiveKeptTrans(m0: seq<nat>, m1: seq<nat>, m2: seq<nat>, base: nat, bs: seq<Block>)
    requires LiveKept(m0, m1, base, bs) && LiveKept(m1, m2, base, bs)
    ensures LiveKept(m0, m2, base, bs)
  {
    hide Live;
  }

  lemma LiveKeptRefl(m: seq<nat>, base: nat, total: nat, bs: seq<Block>)
    requires HeapInv(bs, base, total)
    ensures LiveKept(m, m, base, bs)
  {
    hide SamePayload, Live;
    SameLive(m, base, total, bs);
  }

  lemma LiveKeptOf(m: seq<nat>, m': seq<nat>, base: nat, bs: seq<Block>)
    requires KeptPayloads(m, m', base, Live(bs))
    ensures LiveKept(m, m', base, bs)
  {
    hide Live, SamePayload;
    LiveMember(bs);
  }

  /** kmalloc, in the terms used here. */
  method Grab(heap: KernelHeap, n: nat) returns (ptr: nat)
    requires heap.Valid() && 0 < n < DWORD
    modifies heap.mem, heap`bs
    ensures heap.Valid() && (heap.bs, ptr) == Malloc(old(heap.bs), n) && HeapInv(old(heap.bs), heap.base, heap.total)
    ensures ptr == 0 ==> heap.bs == old(heap.bs)
    ensures LiveKept(old(heap.mem[..]), heap.mem[..], heap.base, old(heap.bs))
  {
    hide HeapInv, Rep, Malloc, Live, SamePayload;
    MallocPtrs(heap.bs, heap.base, heap.total, n);
    ptr := heap.Kmalloc(n);
  }

  // ---- sharing out the addresses ------------------------------------------------------------------

  /** All the addresses in a list of shares. */
  function Total(xs: seq<multiset<nat>>): multiset<nat> {
    if xs == [] then multiset{} else xs[0] + Total(xs[1..])
  }

  lemma {:induction false} TotalSet(xs: seq<multiset<nat>>, i: nat, x: multiset<nat>)
    requires i < |xs|
    ensures xs[i] <= Total(xs) && Total(xs[i := x]) == Total(xs) - xs[i] + x
    decreases |xs|
  {
    if i == 0 {
      assert xs[i := x][1..] == xs[1..];
    } else {
      assert xs[i := x][1..] == xs[1..][i - 1 := x];
      TotalSet(xs[1..], i - 1, x);
    }
  }

  lemma {:induction false} TotalNone(xs: seq<multiset<nat>>)
    requires forall i :: 0 <= i < |xs| ==> xs[i] == multiset{}
    ensures Total(xs) == multiset{}
    decreases |xs|
  {
    if xs != [] { TotalNone(xs[1..]); }
  }
}
