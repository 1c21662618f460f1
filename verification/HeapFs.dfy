/** The file operations with their heap buffers: scratch space is given back exactly, contents land in a block. */
module HeapFs {
  import opened Options
  import opened Bytes
  import opened Names
  import opened Paths
  import opened Blocks
  import opened Heap
  import opened Payloads
  import opened Buffers
  import opened Driver
  import HeapRuns
  import opened Sectors
  import FsState
  import FsUnique
  import Tree

  /** kmalloc(n) will succeed. */
  predicate Has(bs: seq<Block>, n: nat) { Malloc(bs, n).1 != 0 }

  /** Giving back a scratch block: the list is what it was before it was taken. */
  method FreeScratch(heap: KernelHeap, ptr: nat, n: nat, ghost bs: seq<Block>, ghost m: seq<nat>)
    requires heap.Valid() && HeapInv(bs, heap.base, heap.total) && 0 < n && ptr != 0 && (heap.bs, ptr) == Malloc(bs, n)
    requires LiveKept(m, heap.mem[..], heap.base, bs)
    modifies heap.mem, heap`bs
    ensures heap.Valid() && heap.bs == bs && LiveKept(m, heap.mem[..], heap.base, bs)
  {
    hide HeapInv, Rep, Malloc, Release, LiveKept, KeptPayloads, PayloadIndex;
    MallocFree(bs, heap.base, heap.total, n);
    ghost var m1 := heap.mem[..];
    heap.Kfree(ptr);
    LiveKeptOf(m1, heap.mem[..], heap.base, bs);
    LiveKeptTrans(m, m1, heap.mem[..], heap.base, bs);
  }

  /**
   * fat_write_file with the cluster buffer of chain_write, taken up front as
   * nothing before it touches the heap: the heap is as before, whatever the outcome.
   */
  method WriteFile(fs: FatDriver, heap: KernelHeap, path: Text, data: seq<Byte>)
    returns (ok: bool, lost: bool, ghost h: nat)
    requires fs.Valid() && heap.Valid() && Start(fs.cwdCluster, path) in fs.tree.dirs && PathOk(path) && |data| < DWORD
    modifies fs.vol, fs`chains, fs`tree, heap.mem, heap`bs
    ensures heap.Valid() && heap.bs == old(heap.bs) && LiveKept(old(heap.mem[..]), heap.mem[..], heap.base, heap.bs)
    ensures ok <==> old(fs.CanWrite(path, |data|, Has(heap.bs, fs.vol.g.ClusterBytes())))
    ensures lost <==> !ok && old(fs.Rewrites(path))
    ensures fs.Valid() <==> !lost
    ensures lost ==> fs.vol.Valid() && FsUnique.NoTree(fs.vol.g, fs.vol.disk)
    ensures lost ==> FsState.Rep(fs.vol.g, fs.vol.disk, fs.chains, fs.tree, old(fs.Replaced(path)))
    ensures ok ==> Written(old(fs.tree), old(fs.Place(path)), h, data, fs.tree)
    ensures ok ==> Start(fs.cwdCluster, path) in fs.tree.dirs && fs.Contents(path) == Some(data)
    ensures !ok ==> fs.tree == old(fs.tree)
  {
    hide HeapInv, Rep, FsState.Rep, Tree.TreeOk, Malloc, LiveKept, Written, FsUnique.NoTree;
    hide FatDriver.Place, FatDriver.Contents, FatDriver.Replaced, FatDriver.Room;
    ghost var bs, m := heap.bs, heap.mem[..];
    LiveKeptRefl(m, heap.base, heap.total, bs);
    var n, buf := fs.vol.g.spc * 512, 0;
    if data != [] {
      buf := Grab(heap, n);
    }
    ok, lost, h := fs.WriteFile(path, data, buf != 0);
    if buf != 0 {
      FreeScratch(heap, buf, n, bs, m);
    }
  }

  /** What an allocation leaves alone, and where it is. */
  lemma NewAt(bs: seq<Block>, base: nat, total: nat, n: nat) returns (k: nat)
    requires HeapInv(bs, base, total) && total <= HEAP_MAX && 0 < n < DWORD && Has(bs, n)
    ensures HeapInv(Malloc(bs, n).0, base, total)
    ensures k < |Malloc(bs, n).0| && Malloc(bs, n).0[k].Payload() == Malloc(bs, n).1 && !Malloc(bs, n).0[k].free
    ensures n <= 0xFFFF_FFF8 ==> n <= Malloc(bs, n).0[k].size
    ensures forall b :: b in Live(bs) ==> b in Live(Malloc(bs, n).0) && b.Payload() != Malloc(bs, n).1
  {
    hide Malloc, Live, Tiles, HeapRuns.SizeAt, NoAdjacentFree, Aligned;
    var c := HeapRuns.NewBlock(bs, base, total, n);
    var ts := Malloc(bs, n).0;
    LiveMember(ts);
    assert c in Live(ts);
    k :| 0 <= k < |ts| && ts[k] == c;
  }

  lemma KeptWider(m0: seq<nat>, m1: seq<nat>, m2: seq<nat>, base: nat, bs: seq<Block>, bs1: seq<Block>)
    requires LiveKept(m0, m1, base, bs) && LiveKept(m1, m2, base, bs1) && forall b :: b in Live(bs) ==> b in Live(bs1)
    ensures LiveKept(m0, m2, base, bs)
  {
    hide Live;
  }

  /** Writing the block at `ptr` leaves the blocks with other addresses alone. */
  lemma PokeKeeps(m: seq<nat>, m': seq<nat>, base: nat, bs: seq<Block>, bs1: seq<Block>, k: nat)
    requires k < |bs1| && forall j :: 0 <= j < |bs1| && j != k ==>
      base <= bs1[j].addr && SamePayload(m, m', base, bs1[j])
    requires forall b :: b in Live(bs) ==> b in Live(bs1) && b.Payload() != bs1[k].Payload()
    ensures LiveKept(m, m', base, bs)
  {
    hide Live, SamePayload;
    LiveMember(bs1);
    forall b | b in Live(bs) ensures base <= b.addr && SamePayload(m, m', base, b) {
      var j :| 0 <= j < |bs1| && bs1[j] == b;
    }
  }

  /** Filling a new block from its start. */
  method Fill(heap: KernelHeap, ptr: nat, data: seq<Byte>, n: nat, ghost bs: seq<Block>, ghost m: seq<nat>)
    requires heap.Valid() && HeapInv(bs, heap.base, heap.total) && |data| <= n && 0 < n <= 0xFFFF_FFF8
    requires ptr != 0 && (heap.bs, ptr) == Malloc(bs, n) && LiveKept(m, heap.mem[..], heap.base, bs)
    modifies heap.mem
    ensures heap.Valid() && LiveKept(m, heap.mem[..], heap.base, bs)
    ensures Data(heap.mem[..], heap.base, ptr, |data|) == data
  {
    hide HeapInv, Rep, Malloc, LiveKept, Live, SamePayload, Data, Splice;
    ghost var m1 := heap.mem[..];
    ghost var k := NewAt(bs, heap.base, heap.total, n);
    Poke(heap, ptr, 0, data, k);
    PokeKeeps(m1, heap.mem[..], heap.base, bs, heap.bs, k);
    LiveKeptTrans(m, m1, heap.mem[..], heap.base, bs);
    assert Splice(Data(m1, heap.base, ptr, |data|), 0, data) == data;
  }

  /** Bytes kmalloc is asked for to hold a file. */
  function Room(size: nat): nat { if size == 0 then 1 else size }

  /** The heap can hold the contents and, meanwhile, one cluster. */
  predicate CanHold(bs: seq<Block>, size: nat, cluster: nat) {
    Has(bs, Room(size)) && Has(Malloc(bs, Room(size)).0, cluster)
  }

  /**
   * fat_read_file: a new block with the contents of the file, or the heap as it
   * was. File sizes within seven bytes of 4 GiB, where rounding wraps, are
   * excluded; they take clusters of more than 64 KiB.
   */
  method ReadFile(fs: FatDriver, heap: KernelHeap, path: Text) returns (ptr: nat, size: nat, ghost s: seq<nat>)
    requires fs.Valid() && heap.Valid() && Start(fs.cwdCluster, path) in fs.tree.dirs
    requires fs.vol.g.spc > 128 && fs.Contents(path).Some? ==> |fs.Contents(path).value| <= 0xFFFF_FFF8
    modifies heap.mem, heap`bs
    ensures heap.Valid() && LiveKept(old(heap.mem[..]), heap.mem[..], heap.base, old(heap.bs))
    ensures ptr != 0 <==>
      fs.Contents(path).Some? && CanHold(old(heap.bs), |fs.Contents(path).value|, fs.vol.g.ClusterBytes())
    ensures ptr == 0 ==> heap.bs == old(heap.bs)
    ensures ptr != 0 ==> size == |fs.Contents(path).value| <= 0xFFFF_FFF8
    ensures ptr != 0 ==> (heap.bs, ptr) == Malloc(old(heap.bs), Room(size))
    ensures ptr != 0 ==> Data(heap.mem[..], heap.base, ptr, size) == fs.Contents(path).value
    ensures ptr != 0 ==>
      fs.ChainAt(path, s) && DataOnDisk(fs.vol.g, fs.vol.disk, s, Data(heap.mem[..], heap.base, ptr, size))
  {
    hide HeapInv, Rep, FsState.Rep, Tree.TreeOk, Malloc, LiveKept, FatDriver.Contents, Data, FatDriver.ChainAt;
    hide DataOnDisk;
    ghost var bs, m := heap.bs, heap.mem[..];
    LiveKeptRefl(m, heap.base, heap.total, bs);
    ptr, size, s := 0, 0, [];
    var found;
    found, size := fs.LookupFile(path);
    if !found {
      return;
    }
    if fs.vol.g.spc <= 128 { fs.SizeFits(path); }
    ptr := Grab(heap, if size == 0 then 1 else size);
    if ptr == 0 {
      return;
    }
    ghost var bs1, m1 := heap.bs, heap.mem[..];
    var n := fs.vol.g.spc * 512;
    ghost var k := NewAt(bs, heap.base, heap.total, Room(size));
    var tmp := Grab(heap, n);
    KeptWider(m, m1, heap.mem[..], heap.base, bs, bs1);
    var r;
    r, s := fs.ReadFile(path, true, tmp != 0);
    if tmp == 0 {
      FreeScratch(heap, ptr, if size == 0 then 1 else size, bs, m);
      ptr := 0;
      return;
    }
    FreeScratch(heap, tmp, n, bs1, m1);
    KeptWider(m, m1, heap.mem[..], heap.base, bs, bs1);
    Fill(heap, ptr, r.value, if size == 0 then 1 else size, bs, m);
  }
}
