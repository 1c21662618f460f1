/** Inputs, reached from a blank disk by the operations themselves, on which the code surprises. */
module Inputs {
  import opened Options
  import opened Bytes
  import opened Chains
  import opened Geometry
  import opened Sectors
  import opened Names
  import opened Tree
  import opened Dirents
  import opened DirScan
  import opened FsState
  import opened FsSteps
  import opened FsUnique
  import opened Paths
  import opened Cwd
  import opened CwdText
  import opened Volume
  import opened Driver
  import opened Format
  import opened Arith
  import opened Blocks
  import opened Heap
  import opened HeapFs
  import opened Files
  import opened AbsPath
  import opened Copy
  import opened Payloads

  // ---- mkdir in a directory that is gone ---------------------------------------------------------

  const ABS_A: Text := [SLASH, 65]
  const PATH_B: Text := [66]

  /** "/A" is the same entry of the root, from anywhere. */
  lemma PathOfAbsA(t: Tree, cwd: nat)
    requires TreeOk(t)
    ensures Start(cwd, ABS_A) == 0 && 0 in t.dirs && PathOk(ABS_A) && Name83(PATH_A).Some?
    ensures PathComps(ABS_A) == [PATH_A] && WalkParent(t, AtDir(0), [PATH_A]) == Some((AtDir(0), Name83(PATH_A).value))
  {
    PathOfA(t);
    CompsOne(PATH_A);
    assert ABS_A[1..] == PATH_A && [PATH_A][..0] == [];
  }

  lemma NameOfA()
    ensures Name83(PATH_A).Some? && Name83(PATH_A).value[0] == 65
  {
  }

  /** A blank volume has room for a directory "A" in its root. */
  lemma DirFits(fs: FatDriver)
    requires fs.Valid() && fs.cwdCluster == 0 && fs.tree == EmptyTree() && IsFresh(fs.vol.g, fs.vol.disk)
    requires fs.vol.g == TINY && fs.chains == map[]
    ensures Start(0, PATH_A) in fs.tree.dirs && fs.DirPlace(PATH_A) == Some((0, Name83(PATH_A).value))
    ensures CountFree(fs.vol.Fat(), 2) > 0
  {
    PathOfA(fs.tree);
    var es := Entries(fs.vol.g, fs.vol.disk, map[], 0);
    assert FreeSlot(es, 0) == Some(0);
    assert fs.vol.Fat()[2] == FREE;
  }

  lemma CdFits()
    ensures Highest([], CwdComps(PATH_A)) < 128
  {
    CompsOne(PATH_A);
    HighestOne([], PATH_A);
    PushText([], UpperAll(PATH_A));
  }

  /** The new directory can be removed by its absolute path, from inside it. */
  lemma CanGo(fs: FatDriver, c: nat)
    requires fs.Valid() && fs.cwdCluster == c && CanMake(EmptyTree(), 0, Name83(PATH_A).value, c)
    requires fs.tree == MakeDir(EmptyTree(), 0, Name83(PATH_A).value, c)
    ensures Start(c, ABS_A) in fs.tree.dirs && fs.Doomed(ABS_A) == Some((0, Name83(PATH_A).value))
    ensures Remove(fs.tree, 0, Name83(PATH_A).value) == EmptyTree()
  {
    hide FsState.Rep;
    RepValid(fs.vol.g, fs.vol.disk, fs.chains, fs.tree, 0);
    PathOfAbsA(fs.tree, c);
    NameOfA();
    var t, nm := fs.tree, Name83(PATH_A).value;
    assert t.Has(0, nm) && t.At(0, nm) == Sub(c);
    var r := Remove(t, 0, nm);
    assert r.dirs[0].entries == map[] && r.dirs == EmptyTree().dirs && r.home == map[];
  }

  /** Then the cluster is free and holds what mkdir wrote: two dots and an end marker. */
  lemma Gone(fs: FatDriver, d: seq<Sector>, c: nat)
    requires fs.Valid() && fs.cwdCluster == c && fs.tree == EmptyTree()
    requires fs.vol.g.Valid(|d|) && fs.vol.g.InData(c) && FreshCluster(fs.vol.g, d, c, 0)
    requires AgreeData(fs.vol.g, d, fs.vol.disk, {})
    ensures fs.CwdGone() && Find(fs.LeftOver(), Name83(PATH_B).value, 0) == None
    ensures Name83(PATH_B).Some? && Name83(PATH_B).value[0] == 66
  {
    hide FreshTable;
    var g := fs.vol.g;
    SameCluster(g, d, fs.vol.disk, c);
    FreshEntries(g, fs.vol.disk, map[c := [c]], c, 0);
    AllFree(fs, c);
    FreshShape(16 * g.spc, c);
  }

  lemma AllFree(fs: FatDriver, c: nat)
    requires fs.Valid() && fs.tree == EmptyTree() && fs.vol.g.InData(c)
    ensures c < |fs.vol.Fat()| && fs.vol.Fat()[c] == FREE
  {
    hide DirsRep, FilesRep, Sectors.Table;
    assert fs.chains == map[];
    assert Covered(fs.vol.Fat(), fs.chains);
    assert forall h :: !Owns(fs.chains, h, c);
  }

  lemma FreshShape(n: nat, c: nat)
    requires n >= 16 && c < 0x10000
    ensures HasEnd(FreshTable(n, c, 0)) && Name83(PATH_B).Some? && Name83(PATH_B).value[0] == 66
    ensures Find(FreshTable(n, c, 0), Name83(PATH_B).value, 0) == None
  {
    var es, nm := FreshTable(n, c, 0), Name83(PATH_B).value;
    assert es[2][0] == 0;
    assert Find(es, nm, 2) == None;
    assert NameOf(es[1])[0] == DOT && NameOf(es[0])[0] == DOT;
    assert Find(es, nm, 1) == None;
  }

  /** mkdir A, cd A. */
  method Enter() returns (fs: FatDriver, ok: bool, ghost c: nat)
    ensures fresh(fs) && fresh(fs.vol) && ok && fs.Valid() && fs.cwdCluster == c
    ensures CanMake(EmptyTree(), 0, Name83(PATH_A).value, c)
    ensures fs.tree == MakeDir(EmptyTree(), 0, Name83(PATH_A).value, c)
    ensures fs.vol.g.InData(c) && FreshCluster(fs.vol.g, fs.vol.disk, c, 0)
  {
    hide FsState.Rep, FatDriver.DirPlace, IsFresh, Mirrored, FreshCluster, FatDriver.CwdOk, CountFree, Name83, TreeOk,
      Walk;
    hide LeadsTo, NextCwd, Render, MakeDir, CanMake, Highest;
    fs := BlankDriver();
    DirFits(fs);
    PathOfA(fs.tree);
    ok, c := fs.Mkdir(PATH_A);
    CdFits();
    ok := fs.Cd(PATH_A);
  }

  /** mkdir A, cd A, rm /A, mkdir B: the last succeeds and leaves a cluster in use that nothing names. */
  method MkdirWhenGone() returns (fs: FatDriver, entered: bool, removed: bool, again: bool)
    ensures fresh(fs) && fresh(fs.vol) && entered && removed && again
    ensures fs.vol.Valid() && NoTree(fs.vol.g, fs.vol.disk)
  {
    hide FsState.Rep, FatDriver.Doomed, FatDriver.CwdGone, Mirrored, NoTree, FreshCluster, AgreeData,
      FatDriver.LeftOver, Find;
    hide Name83, MakeDir, CanMake, Remove, EmptyTree;
    ghost var c;
    fs, entered, c := Enter();
    ghost var d := fs.vol.disk;
    CanGo(fs, c);
    removed := fs.Rm(ABS_A);
    Gone(fs, d, c);
    again := fs.MkdirGone(PATH_B);
  }

  // ---- cp of a file of more than 64 KiB --------------------------------------------------------------

  /** Two clusters of 64 KiB. */
  const WIDE := Geometry(1, 1, 1, 1, 2, 1, 3, 128, 3)
  const LONG_SIZE: nat := 65537
  const HEAP_BASE: nat := 0x10_0000
  const HEAP_SIZE: nat := 0x10_0000

  lemma WideValid()
    ensures WIDE.Valid(259)
  {
    assert Times(1, 1) == 1 && Times(2, 128) == 128 + Times(1, 128) == 256;
  }

  lemma LongClusters()
    ensures ClustersFor(LONG_SIZE, 65536) == 2 && ClustersFor(65536, 65536) == 1
  {
    assert ClustersFor(1, 65536) == 1 + ClustersFor(0, 65536);
    assert ClustersFor(65536, 65536) == 1 + ClustersFor(0, 65536);
  }

  lemma LongFits(fs: FatDriver)
    requires fs.Valid() && fs.cwdCluster == 0 && fs.tree == EmptyTree() && IsFresh(fs.vol.g, fs.vol.disk)
    requires fs.vol.g == WIDE && fs.chains == map[]
    ensures Start(0, PATH_A) in fs.tree.dirs && fs.Place(PATH_A) == Some((0, Name83(PATH_A).value))
    ensures fs.CanWrite(PATH_A, LONG_SIZE, true)
  {
    PathOfA(fs.tree);
    LongClusters();
    hide ClustersFor;
    var es, fat := Entries(fs.vol.g, fs.vol.disk, map[], 0), fs.vol.Fat();
    assert FreeSlot(es, 0) == Some(0);
    assert fat[2] == FREE && fat[3] == FREE;
    assert CountFree(fat, 4) == 0 && CountFree(fat, 3) == 1 && CountFree(fat, 2) == 2;
  }

  /** Its first 64 KiB can take the place of the whole. */
  lemma CutFits(fs: FatDriver, h: nat, data: seq<Byte>)
    requires fs.Valid() && fs.cwdCluster == 0 && fs.vol.g == WIDE && |data| == LONG_SIZE
    requires CanPut(EmptyTree(), 0, Name83(PATH_A).value, h, data)
    requires fs.tree == PutFile(EmptyTree(), 0, Name83(PATH_A).value, h, data)
    ensures Start(0, ABS_A) in fs.tree.dirs && fs.Contents(ABS_A) == Some(data) && fs.CanWrite(ABS_A, 65536, true)
  {
    hide FsState.Rep, CountFree, ClustersFor;
    var nm := Name83(PATH_A).value;
    RepValid(fs.vol.g, fs.vol.disk, fs.chains, fs.tree, 0);
    PathOfAbsA(fs.tree, 0);
    NameOfA();
    assert fs.tree.Has(0, nm) && fs.tree.At(0, nm) == File(h, data);
    HomeChain(fs.vol.g, fs.vol.disk, fs.chains, fs.tree, h);
    ChainNotEmpty(fs, h);
    LongClusters();
    WalkOne(fs.tree, PATH_A);
  }

  lemma ChainNotEmpty(fs: FatDriver, h: nat)
    requires fs.Valid() && h in fs.chains
    ensures |fs.chains[h]| >= 1
  {
    hide DirsRep, FilesRep, TreeOk;
    ChainInData(fs.vol.g, fs.vol.disk, fs.chains, h);
  }

  lemma WalkOne(t: Tree, c: Text)
    requires TreeOk(t) && 0 in t.dirs
    ensures Walk(t, AtDir(0), [c]) == Step(t, AtDir(0), c)
  {
    assert [c][1..] == [];
  }

  /** A mebibyte of heap is enough for both descriptors, and for the cluster buffer at either close. */
  lemma HeapFits()
    ensures var bs := [Block(HEAP_BASE, HEAP_SIZE - HDR, true)];
      && Has(bs, 65536) && CanHold(bs, LONG_SIZE, 65536)
      && var (bs1, ptr) := Malloc(bs, LONG_SIZE);
      && Has(bs1, WRITE_CAP)
      && var bs2 := Malloc(bs1, WRITE_CAP).0;
      && PayloadIndex(bs2, ptr).Some? && Has(Release(bs2, PayloadIndex(bs2, ptr).value), 65536)
  {
    var bs := [Block(HEAP_BASE, HEAP_SIZE - HDR, true)];
    var a1 := HEAP_BASE + HDR + 65544;
    var a2 := a1 + HDR + 65536;
    var u1, u2 := Block(HEAP_BASE, 65544, false), Block(a1, 65536, false);
    var f1 := Block(a1, HEAP_SIZE - 2 * HDR - 65544, true);
    var f2 := Block(a2, f1.size - 65536 - HDR, true);
    assert FirstFit(bs, 65544) == Some(0) && bs[..0] == [] && bs[1..] == [];
    assert AlignUp(LONG_SIZE) == 65544 && AlignUp(65536) == 65536;
    assert Carve(bs[0], 65544) == [u1, f1] && Take(bs, 0, 65544) == [] + [u1, f1] + [] == [u1, f1];
    assert Malloc(bs, LONG_SIZE) == ([u1, f1], HEAP_BASE + HDR);
    SecondBlock(u1, f1, 65536);
    assert Malloc([u1, f1], WRITE_CAP) == ([u1, u2, f2], f1.Payload());
    ReaderFreed(u1, u2, f2);
  }

  lemma SecondBlock(u: Block, f: Block, size: nat)
    requires !u.free && FitsIn(f, size) && f.size >= size + HDR + 8
    ensures FirstFit([u, f], size) == Some(1)
    ensures Take([u, f], 1, size) ==
      [u, Block(f.addr, size, false), Block(f.addr + HDR + size, f.size - size - HDR, true)]
  {
    assert [u, f][1..] == [f] && [u, f][..1] == [u] && [u, f][2..] == [];
  }

  lemma ReaderFreed(u1: Block, u2: Block, f: Block)
    requires !u1.free && !u2.free && f.free && u1.size >= 65536 && u1.addr > 0
    ensures PayloadIndex([u1, u2, f], u1.Payload()) == Some(0)
    ensures Has(Release([u1, u2, f], 0), 65536)
  {
    var a := u1.(free := true);
    assert [u1, u2, f][0 := a] == [a, u2, f] && [a, u2, f][1..] == [u2, f] && [u2, f][1..] == [f];
    assert Coalesce([f]) == [f] && Coalesce([u2, f]) == [u2, f] && Coalesce([a, u2, f]) == [a, u2, f];
    assert FirstFit([a, u2, f], 65536) == Some(0);
  }

  lemma AbsOfA()
    ensures AbsOf([SLASH], PATH_A) == Some(ABS_A)
  {
    assert Prefix([SLASH], PATH_A) == [SLASH] && [SLASH] + PATH_A == ABS_A;
  }

  /** What cp A A is about to do with the long file. */
  lemma LongPlan(ft: FileTable, pid: int, h: nat, data: seq<Byte>)
    requires ft.Valid() && !ft.lost && ft.fs.cwdCluster == 0 && ft.fs.cwdPath == [SLASH] && ft.fs.vol.g == WIDE
    requires |data| == LONG_SIZE && CanPut(EmptyTree(), 0, Name83(PATH_A).value, h, data)
    requires ft.fs.tree == PutFile(EmptyTree(), 0, Name83(PATH_A).value, h, data)
    requires ft.heap.bs == [Block(HEAP_BASE, HEAP_SIZE - HDR, true)] && |ft.Descriptors()| == MAX_FILES
    requires forall i :: 0 <= i < MAX_FILES ==> ft.Descriptors()[i] == None
    ensures PathOk(PATH_A) && ft.Sized(PATH_A) && Contained(ft.fs.cwdPath, PATH_A)
    ensures ft.Stored(ABS_A) == Some(data) && PlanOf(ft, pid, PATH_A, PATH_A).Some?
    ensures var p := PlanOf(ft, pid, PATH_A, PATH_A).value; p.data == data && p.path == ABS_A && p.fits
  {
    hide FsState.Rep, Heap.Rep, HeapInv, SlotsOk, FatDriver.Contents, FatDriver.CanWrite, ViewOf, Malloc, PutFile,
      CanPut;
    hide FirstUnused, Release, PayloadIndex, FatDriver.CwdOk, Name83;
    CutFits(ft.fs, h, data);
    HeapFits();
    AbsOfA();
    var hin := Handle(pid, O_RDONLY, ABS_A, data, 0);
    assert ft.Target(pid, PATH_A, O_RDONLY) == Some(hin);
    TwoSlots(ft.Descriptors(), hin);
  }

  lemma TwoSlots(v: View, h: Handle)
    requires |v| == MAX_FILES && forall i :: 0 <= i < |v| ==> v[i] == None
    ensures FirstUnused(v).Some? && FirstUnused(After(v, Opened(h))).Some?
  {
    hide FirstUnused;
    assert v[0] == None;
    var i := FirstUnused(v).value;
    assert After(v, Opened(h))[if i == 0 then 1 else 0] == None;
  }

  /** A driver on a blank disk with two clusters of 64 KiB, and a file of 65537 bytes. */
  method LongFile(data: seq<Byte>) returns (fs: FatDriver, heap: KernelHeap, ok: bool, ghost h: nat)
    requires |data| == LONG_SIZE
    ensures fresh(fs) && fresh(fs.vol) && fresh(heap) && fresh(heap.mem) && ok
    ensures fs.Valid() && fs.CwdOk() && fs.cwdCluster == 0 && fs.cwdPath == [SLASH] && fs.vol.g == WIDE
    ensures CanPut(EmptyTree(), 0, Name83(PATH_A).value, h, data)
    ensures fs.tree == PutFile(EmptyTree(), 0, Name83(PATH_A).value, h, data)
    ensures heap.Valid() && heap.bs == [Block(HEAP_BASE, HEAP_SIZE - HDR, true)]
  {
    hide FsState.Rep, Heap.Rep, HeapInv, IsFresh, Mirrored, FatDriver.CwdOk, FatDriver.Place, FatDriver.CanWrite,
      PutFile;
    hide CanPut, FatDriver.Contents, FatDriver.Rewrites, FatDriver.Replaced, LiveKept, FsUnique.NoTree, Name83, Malloc;
    var disk: seq<Sector> := seq(259, _ => Zeros(512));
    WideValid();
    BlankDisk(WIDE, 259);
    FreshVolume(WIDE, disk);
    var vol := new FatVolume(WIDE, disk);
    fs := new FatDriver(vol, map[], EmptyTree());
    heap := new KernelHeap(HEAP_BASE, HEAP_SIZE);
    LongFits(fs);
    PathOfA(fs.tree);
    HeapFits();
    var lost;
    ok, lost, h := HeapFs.WriteFile(fs, heap, PATH_A, data);
  }

  /** cp A A, for a file of 65537 bytes: it reports an error, and the file has lost its last byte. */
  method LongCp(data: seq<Byte>, pid: int) returns (ft: FileTable, written: bool, rc: int)
    requires |data| == LONG_SIZE
    ensures fresh(ft) && written && rc == 1 && ft.fs.Valid() && ft.Stored(ABS_A) == Some(data[..65536])
  {
    hide FsState.Rep, Heap.Rep, HeapInv, PutFile, CanPut, Name83, PlanOf, FileTable.Stored, Outcome, FatDriver.CwdOk;
    hide FileTable.Sized, ViewOf, TreeOk, SlotsOk;
    var fs, heap;
    ghost var h;
    fs, heap, written, h := LongFile(data);
    ft := new FileTable(fs, heap);
    LongPlan(ft, pid, h, data);
    var total;
    rc, total, h := Cp(ft, pid, PATH_A, PATH_A);
  }
}
