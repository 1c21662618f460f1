/** The descriptor layer: snapshots for readers and buffered data for writers, both in heap blocks. */
module Files {
  import opened Options
  import opened Bytes
  import opened Names
  import opened Tree
  import opened Paths
  import opened AbsPath
  import opened Blocks
  import opened Heap
  import opened Payloads
  import opened Buffers
  import opened HeapFs
  import opened Driver
  import HeapRuns
  import FsState
  import FsUnique
  import CwdText

  const MAX_FILES: nat := 16
  const FD_BASE: nat := 3
  const WRITE_CAP: nat := 65536
  const O_RDONLY: int := 0
  const O_WRONLY: int := 1

  /** A slot of the table: `ptr` is its heap block, `size` the valid bytes in it. */
  datatype Slot = Slot(used: bool, pid: int, mode: int, path: Text, ptr: nat, size: nat, pos: nat)

  const UNUSED := Slot(false, 0, 0, [], 0, 0, 0)

  /** What a descriptor means: its path, its bytes and where the next read starts. */
  datatype Handle = Handle(pid: int, mode: int, path: Text, buf: seq<Byte>, pos: nat)

  type View = seq<Option<Handle>>

  function Meaning(s: Slot, m: seq<nat>, base: nat): Option<Handle> {
    if s.used then Some(Handle(s.pid, s.mode, s.path, Data(m, base, s.ptr, s.size), s.pos)) else None
  }

  function ViewOf(slots: seq<Slot>, m: seq<nat>, base: nat): (v: View)
    ensures |v| == |slots| && forall i :: 0 <= i < |slots| ==> v[i] == Meaning(slots[i], m, base)
  {
    seq(|slots|, i requires 0 <= i < |slots| => Meaning(slots[i], m, base))
  }

  // ---- what the calls do to the open descriptors -------------------------------------------------

  /** get: the slot of a descriptor, if the pid owns it. */
  function SlotOf(v: View, pid: int, fd: int): Option<nat> {
    var i := fd - FD_BASE;
    if i < 0 || i >= |v| || v[i] == None || v[i].value.pid != pid then None else Some(i)
  }

  function FirstUnused(v: View): (r: Option<nat>)
    ensures r.Some? ==> r.value < |v| && v[r.value] == None && forall i :: 0 <= i < r.value ==> v[i].Some?
    ensures r == None ==> forall i :: 0 <= i < |v| ==> v[i].Some?
  {
    if v == [] then None
    else if v[0] == None then Some(0)
    else match FirstUnused(v[1..])
      case None => None
      case Some(k) => Some(k + 1)
  }

  /** Bytes a read of `n` delivers. */
  function ReadOut(h: Handle, n: nat): seq<Byte>
    requires h.pos <= |h.buf|
  {
    h.buf[h.pos..h.pos + Min(n, |h.buf| - h.pos)]
  }

  function AfterRead(h: Handle, n: nat): Handle
    requires h.pos <= |h.buf|
  {
    h.(pos := h.pos + Min(n, |h.buf| - h.pos))
  }

  datatype Call = Opened(h: Handle) | Refused(pid: int) | Closed(pid: int, fd: int) | Read(pid: int, fd: int, n: nat)
    | Write(pid: int, fd: int, src: seq<Byte>) | ClosedAll(pid: int)

  function Caller(c: Call): int {
    match c
    case Opened(h) => h.pid
    case _ => c.pid
  }

  /** The descriptors of `pid` dropped. */
  function Dropped(v: View, pid: int): (r: View)
    ensures |r| == |v|
    ensures forall i :: 0 <= i < |v| ==> r[i] == if v[i].Some? && v[i].value.pid == pid then None else v[i]
  {
    seq(|v|, i requires 0 <= i < |v| => if v[i].Some? && v[i].value.pid == pid then None else v[i])
  }

  /**
   * A successful open takes the first unused slot and a refused one, if its path
   * is Contained, no slot at all; the other calls act on the caller's own slots.
   */
  function After(v: View, c: Call): View {
    match c
    case Opened(h) => if FirstUnused(v).Some? then v[FirstUnused(v).value := Some(h)] else v
    case Refused(_) => v
    case Closed(pid, fd) => if SlotOf(v, pid, fd).Some? then v[SlotOf(v, pid, fd).value := None] else v
    case Read(pid, fd, n) =>
      if SlotOf(v, pid, fd) == None then v
      else
        var i := SlotOf(v, pid, fd).value;
        var h := v[i].value;
        if h.mode != O_RDONLY || h.pos > |h.buf| then v else v[i := Some(AfterRead(h, n))]
    case Write(pid, fd, src) =>
      if SlotOf(v, pid, fd) == None then v
      else
        var i := SlotOf(v, pid, fd).value;
        var h := v[i].value;
        if h.mode != O_WRONLY || |h.buf| + |src| > WRITE_CAP then v else v[i := Some(h.(buf := h.buf + src))]
    case ClosedAll(pid) => Dropped(v, pid)
  }

  function AfterAll(v: View, cs: seq<Call>): View
    decreases |cs|
  {
    if cs == [] then v else AfterAll(After(v, cs[0]), cs[1..])
  }

  /** Whatever other pids do, an open descriptor stays exactly as it is. */
  lemma {:induction false} Snapshot(v: View, cs: seq<Call>, i: nat)
    requires i < |v| && v[i].Some? && forall k :: 0 <= k < |cs| ==> Caller(cs[k]) != v[i].value.pid
    ensures |AfterAll(v, cs)| == |v| && AfterAll(v, cs)[i] == v[i]
    decreases |cs|
  {
    if cs != [] {
      SnapshotStep(v, cs[0], i);
      Snapshot(After(v, cs[0]), cs[1..], i);
    }
  }

  lemma SnapshotStep(v: View, c: Call, i: nat)
    requires i < |v| && v[i].Some? && Caller(c) != v[i].value.pid
    ensures |After(v, c)| == |v| && After(v, c)[i] == v[i]
  {
  }

  // ---- slots and their blocks ----------------------------------------------------------------------

  /** `ptr` is a block in use of at least `n` bytes. */
  ghost predicate Backed(bs: seq<Block>, ptr: nat, n: nat) {
    exists b :: b in Live(bs) && b.Payload() == ptr && n <= b.size
  }

  function Capacity(s: Slot): nat { if s.mode == O_WRONLY then WRITE_CAP else s.size }

  predicate Fields(s: Slot) {
    Absolute(s.path) && PathOk(s.path) && s.pos <= s.size && s.size <= Capacity(s) && s.ptr != 0
  }

  /** Open slots have a block of their own that holds what they say. */
  ghost predicate SlotsOk(slots: seq<Slot>, bs: seq<Block>) {
    && (forall i :: 0 <= i < |slots| && slots[i].used ==> Fields(slots[i]))
    && (forall i :: 0 <= i < |slots| && slots[i].used ==> Backed(bs, slots[i].ptr, Capacity(slots[i])))
    && (forall i, j :: 0 <= i < j < |slots| && slots[i].used && slots[j].used ==> slots[i].ptr != slots[j].ptr)
  }

  lemma BackedMore(bs: seq<Block>, bs': seq<Block>, ptr: nat, n: nat)
    requires Backed(bs, ptr, n) && forall b :: b in Live(bs) && b.Payload() == ptr ==> b in Live(bs')
    ensures Backed(bs', ptr, n)
  {
    hide Live;
  }

  /** The bytes of open slots stay while no block in use is written. */
  lemma MeaningKept(s: Slot, bs: seq<Block>, m: seq<nat>, m': seq<nat>, base: nat)
    requires s.used ==> Fields(s) && Backed(bs, s.ptr, Capacity(s))
    requires forall b :: b in Live(bs) && b.Payload() == s.ptr ==> base <= b.addr && SamePayload(m, m', base, b)
    ensures Meaning(s, m', base) == Meaning(s, m, base)
  {
    hide Live, SamePayload, Data;
    if s.used {
      var b :| b in Live(bs) && b.Payload() == s.ptr && Capacity(s) <= b.size;
      DataSame(m, m', base, b, s.size);
    }
  }

  lemma ViewKept(slots: seq<Slot>, bs: seq<Block>, m: seq<nat>, m': seq<nat>, base: nat)
    requires SlotsOk(slots, bs) && LiveKept(m, m', base, bs)
    ensures ViewOf(slots, m', base) == ViewOf(slots, m, base)
  {
    hide Live, SamePayload, Meaning, Backed;
    forall i | 0 <= i < |slots| ensures Meaning(slots[i], m', base) == Meaning(slots[i], m, base) {
      MeaningKept(slots[i], bs, m, m', base);
    }
    assert ViewOf(slots, m', base) == ViewOf(slots, m, base);
  }

  function BufOf(s: Slot): multiset<nat> { if s.used then multiset{s.ptr} else multiset{} }

  function BufList(slots: seq<Slot>): (r: seq<multiset<nat>>)
    ensures |r| == |slots| && forall i :: 0 <= i < |slots| ==> r[i] == BufOf(slots[i])
  {
    seq(|slots|, i requires 0 <= i < |slots| => BufOf(slots[i]))
  }

  /** The addresses of the open slots' blocks. */
  function Bufs(slots: seq<Slot>): multiset<nat> { Total(BufList(slots)) }

  lemma BufsSet(slots: seq<Slot>, i: nat, s: Slot)
    requires i < |slots|
    ensures BufOf(slots[i]) <= Bufs(slots) && Bufs(slots[i := s]) == Bufs(slots) - BufOf(slots[i]) + BufOf(s)
  {
    hide BufOf;
    TotalSet(BufList(slots), i, BufOf(s));
    assert BufList(slots[i := s]) == BufList(slots)[i := BufOf(s)];
  }

  /** An unused slot gets a new block. */
  lemma SlotAdded(slots: seq<Slot>, bs: seq<Block>, bs': seq<Block>, i: nat, s: Slot)
    requires SlotsOk(slots, bs) && i < |slots| && !slots[i].used && s.used && Fields(s)
    requires Backed(bs', s.ptr, Capacity(s))
    requires forall b :: b in Live(bs) ==> b in Live(bs') && b.Payload() != s.ptr
    ensures SlotsOk(slots[i := s], bs')
  {
    hide Live, Backed, Fields;
    var slots' := slots[i := s];
    forall j | 0 <= j < |slots| && j != i && slots[j].used
      ensures Backed(bs', slots[j].ptr, Capacity(slots[j])) && slots[j].ptr != s.ptr
    {
      BackedMore(bs, bs', slots[j].ptr, Capacity(slots[j]));
      BackedElsewhere(bs, slots[j].ptr, Capacity(slots[j]), s.ptr);
    }
  }

  lemma BackedElsewhere(bs: seq<Block>, ptr: nat, n: nat, p: nat)
    requires Backed(bs, ptr, n) && forall b :: b in Live(bs) ==> b.Payload() != p
    ensures ptr != p
  {
    hide Live;
  }

  /** A slot gives its block up. */
  lemma SlotDropped(slots: seq<Slot>, bs: seq<Block>, bs': seq<Block>, i: nat, s: Slot)
    requires SlotsOk(slots, bs) && i < |slots| && slots[i].used && !s.used
    requires forall b :: b in Live(bs) && b.Payload() != slots[i].ptr ==> b in Live(bs')
    ensures SlotsOk(slots[i := s], bs')
  {
    hide Live, Backed, Fields;
    forall j | 0 <= j < |slots| && j != i && slots[j].used ensures Backed(bs', slots[j].ptr, Capacity(slots[j])) {
      BackedMore(bs, bs', slots[j].ptr, Capacity(slots[j]));
    }
  }

  lemma ViewSet(slots: seq<Slot>, m: seq<nat>, base: nat, i: nat, s: Slot)
    requires i < |slots|
    ensures ViewOf(slots[i := s], m, base) == ViewOf(slots, m, base)[i := Meaning(s, m, base)]
  {
    hide Meaning;
  }

  /** An open: the block kmalloc gave goes to slot `i`. */
  lemma Installed(slots: seq<Slot>, bs: seq<Block>, base: nat, total: nat, others: multiset<nat>, i: nat, s: Slot,
                  n: nat)
    requires HeapInv(bs, base, total) && total <= HEAP_MAX && SlotsOk(slots, bs)
    requires Ptrs(Live(bs)) == others + Bufs(slots) && i < |slots| && !slots[i].used
    requires 0 < n <= 0xFFFF_FFF8 && Has(bs, n) && s.used && s.ptr == Malloc(bs, n).1 && Fields(s) && Capacity(s) <= n
    ensures SlotsOk(slots[i := s], Malloc(bs, n).0) && Ptrs(Live(Malloc(bs, n).0)) == others + Bufs(slots[i := s])
  {
    hide HeapInv, SlotsOk, Live, Malloc, Bufs, Ptrs, Fields;
    var k := NewAt(bs, base, total, n);
    var bs' := Malloc(bs, n).0;
    LiveHas(bs', k);
    BackedBy(bs', k, Capacity(s));
    SlotAdded(slots, bs, bs', i, s);
    MallocPtrs(bs, base, total, n);
    BufsSet(slots, i, s);
  }

  lemma BackedBy(bs: seq<Block>, k: nat, n: nat)
    requires k < |bs| && bs[k] in Live(bs) && n <= bs[k].size
    ensures Backed(bs, bs[k].Payload(), n)
  {
    hide Live;
  }

  /** A slot's block, by its place in the list. */
  lemma BlockOf(slots: seq<Slot>, bs: seq<Block>, i: nat) returns (k: nat)
    requires SlotsOk(slots, bs) && i < |slots| && slots[i].used
    ensures k < |bs| && !bs[k].free && bs[k] in Live(bs) && bs[k].Payload() == slots[i].ptr
    ensures Capacity(slots[i]) <= bs[k].size
  {
    hide Live;
    LiveMember(bs);
    assert Backed(bs, slots[i].ptr, Capacity(slots[i]));
    var b :| b in Live(bs) && b.Payload() == slots[i].ptr && Capacity(slots[i]) <= b.size;
    k :| 0 <= k < |bs| && bs[k] == b;
  }

  /** A close: slot `i` is unused and its block is free. */
  lemma Closing(slots: seq<Slot>, bs: seq<Block>, base: nat, total: nat, others: multiset<nat>, i: nat, s: Slot)
    requires HeapInv(bs, base, total) && SlotsOk(slots, bs) && Ptrs(Live(bs)) == others + Bufs(slots)
    requires i < |slots| && slots[i].used && !s.used
    ensures PayloadIndex(bs, slots[i].ptr).Some?
    ensures var bs' := Release(bs, PayloadIndex(bs, slots[i].ptr).value);
      SlotsOk(slots[i := s], bs') && Ptrs(Live(bs')) == others + Bufs(slots[i := s])
  {
    hide HeapInv, SlotsOk, Live, Release, Bufs, Ptrs, PayloadIndex;
    BufsSet(slots, i, s);
    assert slots[i].ptr in BufOf(slots[i]);
    var ptr := slots[i].ptr;
    FreePtrs(bs, base, total, ptr);
    var k := BlockOf(slots, bs, i);
    var j := PayloadIndex(bs, ptr).value;
    assert j == k by { HeapTiles(bs, base, total); OnePayload(bs, base, base + total, j, k); }
    HeapRuns.ReleaseMembers(bs, base, total, j);
    SlotDropped(slots, bs, Release(bs, j), i, s);
  }

  /** Appending to a writer's block changes its bytes and no other slot's. */
  lemma Appended(slots: seq<Slot>, bs: seq<Block>, m: seq<nat>, m': seq<nat>, base: nat, i: nat, k: nat, src: seq<Byte>)
    requires SlotsOk(slots, bs) && i < |slots| && slots[i].used && slots[i].mode == O_WRONLY
    requires slots[i].size + |src| <= WRITE_CAP && k < |bs| && bs[k].Payload() == slots[i].ptr
    requires Data(m', base, slots[i].ptr, slots[i].size + |src|)
      == Splice(Data(m, base, slots[i].ptr, slots[i].size + |src|), slots[i].size, src)
    requires forall j :: 0 <= j < |bs| && j != k ==> base <= bs[j].addr && SamePayload(m, m', base, bs[j])
    ensures var s := slots[i].(size := slots[i].size + |src|);
      && SlotsOk(slots[i := s], bs) && Bufs(slots[i := s]) == Bufs(slots)
      && ViewOf(slots[i := s], m', base) == ViewOf(slots, m, base)[i := Some(Meaning(slots[i], m, base).value
           .(buf := Meaning(slots[i], m, base).value.buf + src))]
  {
    hide Live, SamePayload, Data, Backed, Bufs, Splice;
    var s := slots[i].(size := slots[i].size + |src|);
    BufsSet(slots, i, s);
    forall j | 0 <= j < |slots| && j != i ensures Meaning(slots[j], m', base) == Meaning(slots[j], m, base) {
      assert slots[j].used ==> slots[j].ptr != slots[i].ptr;
      OtherBlocks(bs, k, slots[j].ptr, m, m', base);
      if slots[j].used { MeaningKept(slots[j], bs, m, m', base); }
    }
    DataAppend(m, m', base, slots[i].ptr, slots[i].size, src);
    var v := ViewOf(slots[i := s], m', base);
    var h := Meaning(slots[i], m, base).value;
    var want := ViewOf(slots, m, base)[i := Some(h.(buf := h.buf + src))];
    assert forall j :: 0 <= j < |slots| ==> v[j] == want[j];
  }

  /** Moving the read cursor. */
  lemma Moved(slots: seq<Slot>, bs: seq<Block>, i: nat, s: Slot)
    requires SlotsOk(slots, bs) && i < |slots| && slots[i].used && s == slots[i].(pos := s.pos) && s.pos <= s.size
    ensures SlotsOk(slots[i := s], bs) && Bufs(slots[i := s]) == Bufs(slots)
  {
    hide Backed, Bufs;
    BufsSet(slots, i, s);
  }

  lemma OtherBlocks(bs: seq<Block>, k: nat, ptr: nat, m: seq<nat>, m': seq<nat>, base: nat)
    requires k < |bs| && forall j :: 0 <= j < |bs| && j != k ==> base <= bs[j].addr && SamePayload(m, m', base, bs[j])
    ensures ptr != bs[k].Payload() ==> forall b :: b in Live(bs) && b.Payload() == ptr ==>
      base <= b.addr && SamePayload(m, m', base, b)
  {
    hide Live, SamePayload;
    LiveMember(bs);
    forall b | b in Live(bs) && b.Payload() == ptr && ptr != bs[k].Payload()
      ensures base <= b.addr && SamePayload(m, m', base, b)
    {
      var j :| 0 <= j < |bs| && bs[j] == b;
    }
  }

  lemma DataAppend(m: seq<nat>, m': seq<nat>, base: nat, ptr: nat, size: nat, src: seq<Byte>)
    requires Data(m', base, ptr, size + |src|) == Splice(Data(m, base, ptr, size + |src|), size, src)
    ensures Data(m', base, ptr, size + |src|) == Data(m, base, ptr, size) + src
  {
    hide ByteAt, Splice;
    var a, b := Data(m', base, ptr, size + |src|), Data(m, base, ptr, size) + src;
    var c := Data(m, base, ptr, size + |src|);
    assert forall x :: 0 <= x < size ==> c[x] == ByteAt(m, base, ptr, x);
    assert forall x :: 0 <= x < |a| ==> a[x] == b[x];
  }

  /** Bytes kmalloc is asked for when a descriptor is opened. */
  function Need(h: Handle): nat { if h.mode == O_WRONLY then WRITE_CAP else Room(|h.buf|) }

  /** The test of file_write, in 32-bit arithmetic. */
  predicate Admits(size: nat, n: nat) { (size + n) % DWORD <= WRITE_CAP }

  /** It lets a write through exactly when the bytes fit, or when the sum wraps around. */
  lemma AdmitsIs(size: nat, n: nat)
    requires size <= WRITE_CAP && n < DWORD
    ensures Admits(size, n) <==> size + n <= WRITE_CAP || size + n >= DWORD
  {
  }

  class FileTable {
    const fs: FatDriver
    const heap: KernelHeap
    const files: array<Slot>
    var lost: bool                      // a refused rewrite has left the volume without a tree
    ghost var others: multiset<nat>     // heap addresses held by the rest of the kernel

    constructor (fs: FatDriver, heap: KernelHeap)
      requires fs.Valid() && heap.Valid() && fs.CwdOk()
      ensures this.fs == fs && this.heap == heap && fresh(files) && Valid() && !lost && others == Ptrs(Live(heap.bs))
      ensures forall i :: 0 <= i < MAX_FILES ==> Descriptors()[i] == None
    {
      hide HeapInv, Rep, FsState.Rep, FatDriver.CwdOk, Live, Ptrs;
      this.fs, this.heap, lost := fs, heap, false;
      files := new Slot[MAX_FILES](_ => UNUSED);
      others := Ptrs(Live(heap.bs));
      new;
      TotalNone(BufList(files[..]));
    }

    ghost predicate Valid()
      reads this, files, heap, heap.mem, fs, fs.vol
    {
      && files.Length == MAX_FILES && (files as object) != heap.mem && heap.Valid()
      && (!lost ==> fs.Valid()) && fs.CwdOk()
      && SlotsOk(files[..], heap.bs) && Ptrs(Live(heap.bs)) == others + Bufs(files[..])
    }

    /** The open descriptors. */
    ghost function Descriptors(): View
      reads this, files, heap, heap.mem
    {
      ViewOf(files[..], heap.mem[..], heap.base)
    }

    /** What the file system stores under an absolute path. */
    ghost function Stored(path: Text): Option<seq<Byte>>
      requires fs.Valid()
      reads fs, fs.vol
    {
      if Start(fs.cwdCluster, path) in fs.tree.dirs then fs.Contents(path) else None
    }

    /** With heap `bs`, a write of `size` bytes to an absolute path will be carried out. */
    ghost predicate Storable(bs: seq<Block>, path: Text, size: nat)
      requires fs.Valid()
      reads fs, fs.vol
    {
      Start(fs.cwdCluster, path) in fs.tree.dirs && fs.CanWrite(path, size, Has(bs, fs.vol.g.ClusterBytes()))
    }

    ghost predicate Replaces(path: Text)
      requires fs.Valid()
      reads fs, fs.vol
    {
      Start(fs.cwdCluster, path) in fs.tree.dirs && fs.Rewrites(path)
    }

    /** The descriptor a successful open creates. */
    ghost function Target(pid: int, path: Text, mode: int): (r: Option<Handle>)
      requires fs.Valid()
      ensures r.Some? ==> r.value.pid == pid && r.value.mode == mode
      reads fs, fs.vol, heap
    {
      match AbsOf(fs.cwdPath, path)
      case None => None
      case Some(full) =>
        var data := Stored(full);
        if mode == O_RDONLY && data.Some? && CanHold(heap.bs, |data.value|, fs.vol.g.ClusterBytes()) then
          Some(Handle(pid, mode, full, Stored(full).value, 0))
        else if mode == O_WRONLY && Has(heap.bs, WRITE_CAP) then Some(Handle(pid, mode, full, [], 0))
        else None
    }

    /** The file at `path`, if any, is not within seven bytes of 4 GiB; none is with clusters of at most 64 KiB. */
    ghost predicate Sized(path: Text)
      requires fs.Valid()
      reads fs, fs.vol
    {
      match AbsOf(fs.cwdPath, path)
      case None => true
      case Some(full) => fs.vol.g.spc > 128 && Stored(full).Some? ==> |Stored(full).value| <= 0xFFFF_FFF8
    }

    lemma RootDir(path: Text)
      requires fs.Valid() && Absolute(path)
      ensures Start(fs.cwdCluster, path) in fs.tree.dirs
    {
      hide TreeOk;
      RootIn(fs.tree);
    }

    method FindUnused() returns (slot: int)
      requires files.Length == MAX_FILES
      ensures slot < MAX_FILES && (slot >= 0 ==> !files[slot].used)
      ensures FirstUnused(Descriptors()) == if slot < 0 then None else Some(slot)
    {
      slot := 0;
      ghost var v := Descriptors();
      while slot < MAX_FILES
        invariant 0 <= slot <= MAX_FILES && forall i :: 0 <= i < slot ==> v[i].Some?
      {
        if !files[slot].used {
          assert v[slot] == None;
          return;
        }
        assert v[slot].Some?;
        slot := slot + 1;
      }
      slot := -1;
    }

    /** Clearing an unused slot changes no descriptor. */
    method ClearSlot(slot: nat)
      requires Valid() && slot < MAX_FILES && !files[slot].used
      modifies files
      ensures Valid() && Descriptors() == old(Descriptors()) && files[..] == old(files[..])[slot := UNUSED]
    {
      hide HeapInv, Rep, FsState.Rep, FatDriver.CwdOk, Live, Ptrs, Backed, Bufs;
      ghost var hs := files[..];
      BufsSet(hs, slot, UNUSED);
      ViewSet(hs, heap.mem[..], heap.base, slot, UNUSED);
      files[slot] := UNUSED;
      assert files[..] == hs[slot := UNUSED];
    }

    /** The block of a new descriptor: filled with the file, or of 64 KiB for a writer; 0 if there is none. */
    method OpenBlock(full: Text, mode: int) returns (ptr: nat, size: nat)
      requires Valid() && !lost && Absolute(full)
      requires mode == O_RDONLY && fs.vol.g.spc > 128 && Stored(full).Some? ==> |Stored(full).value| <= 0xFFFF_FFF8
      modifies heap.mem, heap`bs
      ensures heap.Valid() && LiveKept(old(heap.mem[..]), heap.mem[..], heap.base, old(heap.bs))
      ensures ptr == 0 ==> heap.bs == old(heap.bs)
      ensures ptr != 0 <==>
        || (mode == O_RDONLY && Stored(full).Some?
            && CanHold(old(heap.bs), |Stored(full).value|, fs.vol.g.ClusterBytes()))
        || (mode == O_WRONLY && Has(old(heap.bs), WRITE_CAP))
      ensures ptr != 0 && mode == O_RDONLY ==> Stored(full) == Some(Data(heap.mem[..], heap.base, ptr, size))
      ensures ptr != 0 && mode == O_WRONLY ==> size == 0
      ensures ptr != 0 ==> size <= 0xFFFF_FFF8
      ensures ptr != 0 ==> (heap.bs, ptr) == Malloc(old(heap.bs), if mode == O_WRONLY then WRITE_CAP else Room(size))
    {
      hide HeapInv, Rep, FsState.Rep, FatDriver.CwdOk, TreeOk, Live, SlotsOk, Bufs, Ptrs, LiveKept, Malloc, Data,
        FatDriver.Contents;
      LiveKeptRefl(heap.mem[..], heap.base, heap.total, heap.bs);
      RootDir(full);
      ptr, size := 0, 0;
      if mode == O_RDONLY {
        ghost var s;
        ptr, size, s := HeapFs.ReadFile(fs, heap, full);
      } else if mode == O_WRONLY {
        ptr := Grab(heap, WRITE_CAP);
      }
    }

    lemma AbsFits(path: Text)
      requires fs.CwdOk() && PathOk(path) && AbsOf(fs.cwdPath, path).Some?
      ensures Absolute(AbsOf(fs.cwdPath, path).value) && PathOk(AbsOf(fs.cwdPath, path).value)
    {
      hide CwdText.TextOf;
      CwdText.TextPathOk(fs.cwdComps);
    }

    /** file_open. */
    method OpenFile(pid: int, path: Text, mode: int) returns (fd: int)
      requires Valid() && !lost && Contained(fs.cwdPath, path) && PathOk(path) && (mode == O_RDONLY ==> Sized(path))
      modifies files, heap.mem, heap`bs
      ensures Valid()
      ensures fd >= 0 <==> FirstUnused(old(Descriptors())).Some? && old(Target(pid, path, mode)).Some?
      ensures fd < 0 ==>
        fd == -1 && Descriptors() == After(old(Descriptors()), Refused(pid)) && heap.bs == old(heap.bs)
      ensures forall j :: 0 <= j < MAX_FILES && old(files[j]).used ==> files[j] == old(files[j])
      ensures fd >= 0 ==> fd == FirstUnused(old(Descriptors())).value + FD_BASE
      ensures fd >= 0 ==> 0 < Need(old(Target(pid, path, mode)).value) <= 0xFFFF_FFF8
      ensures fd >= 0 ==> Descriptors() == After(old(Descriptors()), Opened(old(Target(pid, path, mode)).value))
      ensures fd >= 0 ==> BlocksOf(files[..]) == old(BlocksOf(files[..]))[fd - FD_BASE := files[fd - FD_BASE].ptr]
      ensures fd >= 0 ==>
        (heap.bs, files[fd - FD_BASE].ptr) == Malloc(old(heap.bs), Need(old(Target(pid, path, mode)).value))
    {
      hide HeapInv, Rep, FsState.Rep, FirstUnused, TreeOk, Live, SlotsOk, Bufs, Ptrs, LiveKept, Malloc, Data, Stored;
      hide FatDriver.CwdOk, AbsOf, PathOk;
      ghost var v, bs := Descriptors(), heap.bs;
      var slot := FindUnused();
      if slot < 0 {
        return -1;
      }
      ClearSlot(slot);
      var full := AbsOf(fs.cwdPath, path);
      if full == None {
        return -1;
      }
      AbsFits(path);
      ghost var hs, m := files[..], heap.mem[..];
      var ptr, size := OpenBlock(full.value, mode);
      ViewKept(hs, bs, m, heap.mem[..], heap.base);
      if ptr == 0 {
        return -1;
      }
      var s := Slot(true, pid, mode, full.value, ptr, size, 0);
      Installed(hs, bs, heap.base, heap.total, others, slot, s, if mode == O_WRONLY then WRITE_CAP else Room(size));
      ViewSet(hs, heap.mem[..], heap.base, slot, s);
      files[slot] := s;
      assert files[..] == hs[slot := s];
      fd := slot + FD_BASE;
    }

    /** get. */
    method Get(pid: int, fd: int) returns (i: int)
      requires Valid()
      ensures SlotOf(Descriptors(), pid, fd) == if i < 0 then None else Some(i)
      ensures i >= 0 ==> i == fd - FD_BASE && i < MAX_FILES && files[i].used && Fields(files[i])
      ensures i >= 0 ==> Descriptors()[i] == Meaning(files[i], heap.mem[..], heap.base)
    {
      hide HeapInv, Rep, FsState.Rep, FatDriver.CwdOk, Live, Ptrs, Backed, Bufs, Data;
      i := fd - FD_BASE;
      if i < 0 || i >= MAX_FILES || !files[i].used || files[i].pid != pid {
        i := -1;
      } else {
        assert files[..][i].used;
      }
    }

    /** The descriptor `fd` of `pid`, if it is open in the given mode. */
    ghost function Open(pid: int, fd: int, mode: int): Option<Handle>
      reads this, files, heap, heap.mem
    {
      var v := Descriptors();
      var s := SlotOf(v, pid, fd);
      if s.Some? && s.value < |v| && v[s.value].Some? && v[s.value].value.mode == mode then v[s.value] else None
    }

    lemma OpenFits(pid: int, fd: int)
      requires Valid()
      ensures Open(pid, fd, O_WRONLY).Some? ==> |Open(pid, fd, O_WRONLY).value.buf| <= WRITE_CAP
    {
      hide HeapInv, Rep, FsState.Rep, FatDriver.CwdOk, Live, Ptrs, Backed, Bufs;
      var s := SlotOf(Descriptors(), pid, fd);
      if s.Some? && s.value < |files[..]| && files[s.value].used { assert Fields(files[..][s.value]); }
    }

    /** file_read. */
    method ReadFrom(pid: int, fd: int, n: nat) returns (r: int, dst: seq<Byte>)
      requires Valid()
      modifies files
      ensures Valid() && Descriptors() == After(old(Descriptors()), Read(pid, fd, n))
      ensures BlocksOf(files[..]) == old(BlocksOf(files[..]))
      ensures old(Open(pid, fd, O_RDONLY)) == None ==> r == -1 && dst == []
      ensures old(Open(pid, fd, O_RDONLY)).Some? ==>
        var h := old(Open(pid, fd, O_RDONLY)).value; h.pos <= |h.buf| && dst == ReadOut(h, n) && r == |dst|
    {
      hide HeapInv, Rep, FsState.Rep, FatDriver.CwdOk, Live, Ptrs, SlotsOk, Bufs, Data, FirstUnused;
      ghost var hs := files[..];
      var i := Get(pid, fd);
      if i < 0 || files[i].mode != O_RDONLY {
        return -1, [];
      }
      var s := files[i];
      var left := s.size - s.pos;
      var k := if n > left then left else n;
      var s' := s.(pos := s.pos + k);
      dst := Data(heap.mem[..], heap.base, s.ptr, s.size)[s.pos..s.pos + k];
      Moved(hs, heap.bs, i, s');
      ViewSet(hs, heap.mem[..], heap.base, i, s');
      files[i] := s';
      assert files[..] == hs[i := s'];
      r := k;
    }

    /** file_write: all or nothing, up to the 64 KiB the block holds. */
    method WriteTo(pid: int, fd: int, src: seq<Byte>) returns (r: int)
      requires Valid()
      requires Open(pid, fd, O_WRONLY).Some? ==> |Open(pid, fd, O_WRONLY).value.buf| + |src| < DWORD
      modifies files, heap.mem
      ensures Valid() && Descriptors() == After(old(Descriptors()), Write(pid, fd, src))
      ensures BlocksOf(files[..]) == old(BlocksOf(files[..]))
      ensures r == |src| || r == -1
      ensures r >= 0 <==>
        old(Open(pid, fd, O_WRONLY)).Some? && |old(Open(pid, fd, O_WRONLY)).value.buf| + |src| <= WRITE_CAP
    {
      hide HeapInv, Rep, FsState.Rep, FatDriver.CwdOk, Live, Ptrs, Backed, Bufs, Data, Splice, SamePayload;
      ghost var hs, m := files[..], heap.mem[..];
      var i := Get(pid, fd);
      if i < 0 || files[i].mode != O_WRONLY {
        return -1;
      }
      var s := files[i];
      if !Admits(s.size, |src|) {
        return -1;
      }
      AdmitsIs(s.size, |src|);
      ghost var k := BlockOf(hs, heap.bs, i);
      Poke(heap, s.ptr, s.size, src, k);
      Appended(hs, heap.bs, m, heap.mem[..], heap.base, i, k, src);
      files[i] := s.(size := s.size + |src|);
      assert files[..] == hs[i := s.(size := s.size + |src|)];
      r := |src|;
    }

    /** The bytes of a writer go to its file: what file_close hands to fat_write_file. */
    method Flush(path: Text, data: seq<Byte>) returns (rc: int, ghost h: nat)
      requires Valid() && Absolute(path) && PathOk(path) && |data| <= WRITE_CAP
      modifies this`lost, fs.vol, fs`chains, fs`tree, heap.mem, heap`bs
      ensures Valid() && heap.bs == old(heap.bs) && Descriptors() == old(Descriptors()) && (old(lost) ==> lost)
      ensures !old(lost) ==> rc in {0, -1} && (rc == 0 <==> old(fs.Valid() && Storable(heap.bs, path, |data|)))
      ensures !old(lost) ==> (lost <==> rc != 0 && old(fs.Valid() && Replaces(path)))
      ensures !old(lost) && lost ==> FsUnique.NoTree(fs.vol.g, fs.vol.disk)
      ensures !old(lost) && rc == 0 ==> Stored(path) == Some(data)
      ensures !old(lost) && rc == 0 ==>
        Written(old(fs.tree), old(if fs.Valid() then PlaceOf(path) else None), h, data, fs.tree)
      ensures !old(lost) && rc != 0 ==> fs.tree == old(fs.tree)
    {
      hide HeapInv, Rep, FsState.Rep, FatDriver.CwdOk, TreeOk, Live, SlotsOk, Bufs, Ptrs, LiveKept, Written,
        FsUnique.NoTree;
      hide FatDriver.CanWrite, FatDriver.Replaced, FatDriver.Contents, FatDriver.Place;
      h := 0;
      if lost {
        // what a write does to a volume without a tree is left open
        modify fs.vol, fs`chains, fs`tree;
        assert heap.mem[..] == old(heap.mem[..]) && files[..] == old(files[..]);
        rc := *;
        return;
      }
      ghost var m := heap.mem[..];
      RootDir(path);
      var ok;
      ok, lost, h := HeapFs.WriteFile(fs, heap, path, data);
      ViewKept(files[..], heap.bs, m, heap.mem[..], heap.base);
      rc := if ok then 0 else -1;
    }

    ghost function PlaceOf(path: Text): Option<(nat, Name)>
      requires fs.Valid()
      reads fs, fs.vol
    {
      if Start(fs.cwdCluster, path) in fs.tree.dirs then fs.Place(path) else None
    }

    /**
     * file_close: the slot and its block are free afterwards in any case; a
     * writer's bytes have become the contents of its file exactly when the
     * volume took them, whatever the current directory is by now.
     */
    method Close(pid: int, fd: int) returns (rc: int, ghost h: nat)
      requires Valid()
      modifies this`lost, files, fs.vol, fs`chains, fs`tree, heap.mem, heap`bs
      ensures Valid() && Descriptors() == After(old(Descriptors()), Closed(pid, fd)) && (old(lost) ==> lost)
      ensures SlotOf(old(Descriptors()), pid, fd) == None ==>
        rc == -1 && heap.bs == old(heap.bs) && files[..] == old(files[..])
      ensures SlotOf(old(Descriptors()), pid, fd).Some? ==>
        fd >= FD_BASE && FreedBy(old(heap.bs), old(files[..]), fd - FD_BASE, heap.bs, files[..])
      ensures old(Open(pid, fd, O_WRONLY)) == None ==> unchanged(fs) && unchanged(fs.vol) && lost == old(lost)
      ensures old(Open(pid, fd, O_WRONLY)) == None && SlotOf(old(Descriptors()), pid, fd).Some? ==> rc == 0
      ensures !old(lost) && old(Open(pid, fd, O_WRONLY)).Some? ==> var f := old(Open(pid, fd, O_WRONLY)).value;
        && (rc == 0 <==> old(fs.Valid() && WriterFits(pid, fd))) && (rc != 0 ==> rc == -1 && fs.tree == old(fs.tree))
        && (lost <==> rc != 0 && old(fs.Valid() && WriterReplaces(pid, fd)))
        && (lost ==> FsUnique.NoTree(fs.vol.g, fs.vol.disk))
        && (rc == 0 ==> Stored(f.path) == Some(f.buf))
        && (rc == 0 ==> Written(old(fs.tree), old(WriterPlace(pid, fd)), h, f.buf, fs.tree))
    {
      hide HeapInv, Rep, FsState.Rep, FatDriver.CwdOk, TreeOk, Live, SlotsOk, Bufs, Ptrs, Data, Written,
        FsUnique.NoTree, Release, PayloadIndex;
      hide FirstUnused, KeptPayloads, LiveKept, Stored, Storable, Replaces, PlaceOf;
      h := 0;
      ghost var hs, base := files[..], heap.base;
      var i := Get(pid, fd);
      if i < 0 {
        return -1, 0;
      }
      rc := 0;
      var s := files[i];
      if s.mode == O_WRONLY {
        rc, h := Flush(s.path, Data(heap.mem[..], heap.base, s.ptr, s.size));
      }
      ghost var m, bs := heap.mem[..], heap.bs;
      Closing(hs, bs, base, heap.total, others, i, s.(used := false));
      heap.Kfree(s.ptr);
      LiveKeptOf(m, heap.mem[..], base, heap.bs);
      ViewSet(hs, m, base, i, s.(used := false));
      ViewKept(hs[i := s.(used := false)], heap.bs, m, heap.mem[..], base);
      files[i] := s.(used := false);
      assert files[..] == hs[i := s.(used := false)];
    }

    ghost predicate WriterFits(pid: int, fd: int)
      requires fs.Valid()
      reads this, files, heap, heap.mem, fs, fs.vol
    {
      match Open(pid, fd, O_WRONLY)
      case None => false
      case Some(f) => Storable(heap.bs, f.path, |f.buf|)
    }

    ghost predicate WriterReplaces(pid: int, fd: int)
      requires fs.Valid()
      reads this, files, heap, heap.mem, fs, fs.vol
    {
      match Open(pid, fd, O_WRONLY)
      case None => false
      case Some(f) => Replaces(f.path)
    }

    ghost function WriterPlace(pid: int, fd: int): Option<(nat, Name)>
      reads this, files, heap, heap.mem, fs, fs.vol
    {
      match Open(pid, fd, O_WRONLY)
      case None => None
      case Some(f) => if fs.Valid() then PlaceOf(f.path) else None
    }

    lemma PlaceMeans(path: Text)
      requires fs.Valid() && Absolute(path)
      ensures TreeOk(fs.tree) && 0 in fs.tree.dirs && Start(fs.cwdCluster, path) in fs.tree.dirs
      ensures match PlaceOf(path)
        case None => true
        case Some((p, nm)) => WalkParent(fs.tree, AtDir(0), PathComps(path)) == Some((AtDir(p), nm))
    {
      RootDir(path);
      hide Rep, FsState.Rep, FatDriver.CwdOk, Walk;
      FsUnique.RepValid(fs.vol.g, fs.vol.disk, fs.chains, fs.tree, 0);
    }

    /** One round of file_close_all. */
    method CloseSlot(pid: int, i: nat)
      requires Valid() && i < MAX_FILES
      modifies this`lost, files, fs.vol, fs`chains, fs`tree, heap.mem, heap`bs
      ensures Valid() && (old(lost) ==> lost)
      ensures files[..] == old(files[..])[i := DropSlots(old(files[..]), pid)[i]]
      ensures Descriptors() == old(Descriptors())[i := Dropped(old(Descriptors()), pid)[i]]
      ensures !lost ==> Stores(old(Descriptors())[i], pid, old(fs.tree), fs.tree)
    {
      hide HeapInv, Rep, FsState.Rep, TreeOk, Live, Bufs, Ptrs, Data, Written, FsUnique.NoTree, FirstUnused, Backed;
      hide PlaceOf, Stored, Storable, Replaces, FatDriver.CwdOk;
      ghost var v, hs, t := Descriptors(), files[..], fs.tree;
      if !files[i].used || files[i].pid != pid {
        assert v[i := v[i]] == v && hs[i := hs[i]] == hs;
        return;
      }
      assert hs[i].used && Fields(hs[i]);
      if !lost { PlaceMeans(files[i].path); }
      ghost var place := WriterPlace(pid, i + FD_BASE);
      var rc;
      ghost var h;
      rc, h := Close(pid, i + FD_BASE);
      if !lost && hs[i].mode == O_WRONLY && rc == 0 {
        WrittenStores(t, v[i].value, place, h, fs.tree);
      }
    }

    /**
     * file_close_all: every descriptor of the pid is closed, and no other. As long
     * as the volume holds a tree, each writer in turn has stored its bytes under its
     * path or changed nothing.
     */
    method CloseAll(pid: int) returns (ghost trees: seq<Tree>)
      requires Valid()
      modifies this`lost, files, fs.vol, fs`chains, fs`tree, heap.mem, heap`bs
      ensures Valid() && Descriptors() == After(old(Descriptors()), ClosedAll(pid)) && (old(lost) ==> lost)
      ensures files[..] == DropSlots(old(files[..]), pid)
      ensures |trees| == MAX_FILES + 1 && trees[0] == old(fs.tree) && trees[MAX_FILES] == fs.tree
      ensures !lost ==> forall j :: 0 <= j < MAX_FILES ==> Stores(old(Descriptors())[j], pid, trees[j], trees[j + 1])
    {
      hide Valid, Descriptors, DropSlots, Dropped, DroppedTo, SlotsDroppedTo, Stores;
      ghost var v, hs := Descriptors(), files[..];
      var i := 0;
      trees := [fs.tree];
      ViewLength();
      DropBegin(v, hs, pid);
      while i < MAX_FILES
        invariant 0 <= i <= MAX_FILES && Valid() && |v| == MAX_FILES == |hs| && (old(lost) ==> lost)
        invariant Descriptors() == DroppedTo(v, pid, i) && files[..] == SlotsDroppedTo(hs, pid, i)
        invariant |trees| == i + 1 && trees[0] == old(fs.tree) && trees[i] == fs.tree
        invariant !lost ==> forall j :: 0 <= j < i ==> Stores(v[j], pid, trees[j], trees[j + 1])
      {
        DropStep(v, hs, pid, i);
        CloseSlot(pid, i);
        trees := trees + [fs.tree];
        i := i + 1;
      }
      DropEnd(v, hs, pid);
    }

    lemma ViewLength()
      requires Valid()
      ensures |Descriptors()| == MAX_FILES == files.Length
    {
    }
  }

  /** Closing `d` for `pid`: its bytes are stored under its path, or the tree stays, as it does for all but writers. */
  ghost predicate Stores(d: Option<Handle>, pid: int, t: Tree, t': Tree) {
    t' == t || (d.Some? && d.value.pid == pid && d.value.mode == O_WRONLY && StoresAt(t, d.value.path, d.value.buf, t'))
  }

  ghost predicate StoresAt(t: Tree, path: Text, data: seq<Byte>, t': Tree) {
    && TreeOk(t) && 0 in t.dirs
    && exists h: nat, p: nat, nm: Name ::
         WalkParent(t, AtDir(0), PathComps(path)) == Some((AtDir(p), nm)) && Written(t, Some((p, nm)), h, data, t')
  }

  lemma WrittenStores(t: Tree, f: Handle, place: Option<(nat, Name)>, h: nat, t': Tree)
    requires TreeOk(t) && 0 in t.dirs && f.mode == O_WRONLY && Written(t, place, h, f.buf, t')
    requires match place
      case None => true
      case Some((p, nm)) => WalkParent(t, AtDir(0), PathComps(f.path)) == Some((AtDir(p), nm))
    ensures StoresAt(t, f.path, f.buf, t')
  {
    hide TreeOk, Walk, CanPut, PutFile;
    var p, nm := place.value.0, place.value.1;
    assert Written(t, Some((p, nm)), h, f.buf, t');
  }

  /** The descriptors of `pid` dropped from the first `i`. */
  function DroppedTo(v: View, pid: int, i: nat): (r: View)
    requires i <= |v|
    ensures |r| == |v| && forall j :: 0 <= j < |v| ==> r[j] == if j < i then Dropped(v, pid)[j] else v[j]
  {
    Dropped(v, pid)[..i] + v[i..]
  }

  function SlotsDroppedTo(hs: seq<Slot>, pid: int, i: nat): (r: seq<Slot>)
    requires i <= |hs|
    ensures |r| == |hs| && forall j :: 0 <= j < |hs| ==> r[j] == if j < i then DropSlots(hs, pid)[j] else hs[j]
  {
    DropSlots(hs, pid)[..i] + hs[i..]
  }

  lemma DropBegin(v: View, hs: seq<Slot>, pid: int)
    ensures DroppedTo(v, pid, 0) == v && SlotsDroppedTo(hs, pid, 0) == hs
  {
    hide Dropped, DropSlots;
  }

  lemma DropEnd(v: View, hs: seq<Slot>, pid: int)
    ensures DroppedTo(v, pid, |v|) == Dropped(v, pid) && SlotsDroppedTo(hs, pid, |hs|) == DropSlots(hs, pid)
  {
    hide Dropped, DropSlots;
  }

  /** One more slot is done. */
  lemma DropStep(v: View, hs: seq<Slot>, pid: int, i: nat)
    requires i < |v| == |hs|
    ensures var w := DroppedTo(v, pid, i);
      w[i] == v[i] && w[i := Dropped(w, pid)[i]] == DroppedTo(v, pid, i + 1)
    ensures var s := SlotsDroppedTo(hs, pid, i);
      s[i := DropSlots(s, pid)[i]] == SlotsDroppedTo(hs, pid, i + 1)
  {
    hide DroppedTo, SlotsDroppedTo;
  }

  /** Slot `i` is no longer used and its block has been given back. */
  ghost predicate FreedBy(bs: seq<Block>, slots: seq<Slot>, i: nat, bs': seq<Block>, slots': seq<Slot>) {
    && i < |slots| && PayloadIndex(bs, slots[i].ptr).Some? && bs' == Release(bs, PayloadIndex(bs, slots[i].ptr).value)
    && slots' == slots[i := slots[i].(used := false)]
  }

  /** The block of each slot. */
  function BlocksOf(slots: seq<Slot>): (r: seq<nat>)
    ensures |r| == |slots| && forall i :: 0 <= i < |slots| ==> r[i] == slots[i].ptr
  {
    seq(|slots|, i requires 0 <= i < |slots| => slots[i].ptr)
  }

  /** The slots of `pid` are no longer used. */
  function DropSlots(slots: seq<Slot>, pid: int): (r: seq<Slot>)
    ensures |r| == |slots|
    ensures forall i :: 0 <= i < |slots| ==> r[i] == if slots[i].pid == pid then slots[i].(used := false) else slots[i]
  {
    seq(|slots|, i requires 0 <= i < |slots| => if slots[i].pid == pid then slots[i].(used := false) else slots[i])
  }
}
