/** Clients of the descriptor layer: chunked writing and reading, and the cp program. */
module Copy {
  import opened Options
  import opened Bytes
  import opened Names
  import opened Tree
  import opened Paths
  import opened AbsPath
  import opened Blocks
  import opened Heap
  import opened Payloads
  import opened HeapFs
  import opened Driver
  import opened Files
  import HeapRuns
  import FsState
  import FsUnique
  import Effects

  const CHUNK: nat := 512

  function Flat(chunks: seq<seq<Byte>>): seq<Byte> {
    if chunks == [] then [] else Flat(chunks[..|chunks| - 1]) + chunks[|chunks| - 1]
  }

  function Sum(sizes: seq<nat>): nat {
    if sizes == [] then 0 else Sum(sizes[..|sizes| - 1]) + sizes[|sizes| - 1]
  }

  lemma {:induction false} FlatMonotone(chunks: seq<seq<Byte>>, k: nat)
    requires k <= |chunks|
    ensures |Flat(chunks[..k])| <= |Flat(chunks)|
    decreases |chunks|
  {
    if k < |chunks| {
      assert chunks[..|chunks| - 1][..k] == chunks[..k];
      FlatMonotone(chunks[..|chunks| - 1], k);
    } else {
      assert chunks[..k] == chunks;
    }
  }

  /** Descriptor `fd` of `pid` is slot `i`, open as `h`. */
  ghost predicate Holds(v: View, pid: int, fd: int, i: nat, h: Handle) {
    i < |v| && SlotOf(v, pid, fd) == Some(i) && v[i] == Some(h)
  }

  lemma HoldsSet(v: View, pid: int, fd: int, i: nat, h: Handle, h': Handle)
    requires Holds(v, pid, fd, i, h) && h'.pid == pid
    ensures Holds(v[i := Some(h')], pid, fd, i, h')
  {
  }

  lemma HoldsIn(v: View, pid: int, fd: int, i: nat, h: Handle)
    requires Holds(v, pid, fd, i, h)
    ensures i < |v| && v[i] == Some(h) && h.pid == pid
  {
  }

  /** A write, told in terms of the descriptor. */
  method WriteChunk(ft: FileTable, pid: int, fd: int, src: seq<Byte>, ghost i: nat, ghost h: Handle) returns (r: int)
    requires ft.Valid() && Holds(ft.Descriptors(), pid, fd, i, h) && h.mode == O_WRONLY && |src| <= WRITE_CAP
    modifies ft.files, ft.heap.mem
    ensures BlocksOf(ft.files[..]) == old(BlocksOf(ft.files[..]))
    ensures ft.Valid() && (r == |src| <==> |h.buf| + |src| <= WRITE_CAP)
    ensures ft.Descriptors() ==
      if r == |src| then old(ft.Descriptors())[i := Some(h.(buf := h.buf + src))] else old(ft.Descriptors())
  {
    hide Heap.Rep, HeapInv, FsState.Rep, FatDriver.CwdOk, Live, Ptrs, SlotsOk, Bufs, ViewOf, FirstUnused;
    ft.OpenFits(pid, fd);
    r := ft.WriteTo(pid, fd, src);
  }

  /** Writing any list of chunks appends their concatenation. */
  method WriteChunks(ft: FileTable, pid: int, fd: int, chunks: seq<seq<Byte>>, ghost i: nat, ghost h: Handle)
    requires ft.Valid() && Holds(ft.Descriptors(), pid, fd, i, h) && h.mode == O_WRONLY
    requires |h.buf| + |Flat(chunks)| <= WRITE_CAP
    modifies ft.files, ft.heap.mem
    ensures BlocksOf(ft.files[..]) == old(BlocksOf(ft.files[..]))
    ensures ft.Valid() && ft.Descriptors() == old(ft.Descriptors())[i := Some(h.(buf := h.buf + Flat(chunks)))]
  {
    hide SlotOf, Holds, FileTable.Valid, FileTable.Descriptors;
    ghost var v := ft.Descriptors();
    HoldsIn(v, pid, fd, i, h);
    var k := 0;
    assert chunks[..0] == [] && h.buf + [] == h.buf;
    assert v[i := Some(h)] == v;
    while k < |chunks|
      invariant 0 <= k <= |chunks| && ft.Valid() && BlocksOf(ft.files[..]) == old(BlocksOf(ft.files[..]))
      invariant ft.Descriptors() == v[i := Some(h.(buf := h.buf + Flat(chunks[..k])))]
    {
      assert chunks[..k + 1][..k] == chunks[..k];
      FlatMonotone(chunks, k + 1);
      ghost var hk := h.(buf := h.buf + Flat(chunks[..k]));
      HoldsSet(v, pid, fd, i, h, hk);
      var r := WriteChunk(ft, pid, fd, chunks[k], i, hk);
      assert h.buf + Flat(chunks[..k + 1]) == hk.buf + chunks[k];
      k := k + 1;
    }
    assert chunks[..k] == chunks;
  }

  /** A read, told in terms of the descriptor. */
  method ReadChunk(ft: FileTable, pid: int, fd: int, n: nat, ghost i: nat, ghost h: Handle)
    returns (r: int, dst: seq<Byte>)
    requires ft.Valid() && Holds(ft.Descriptors(), pid, fd, i, h) && h.mode == O_RDONLY && h.pos <= |h.buf|
    modifies ft.files
    ensures BlocksOf(ft.files[..]) == old(BlocksOf(ft.files[..]))
    ensures ft.Valid() && r == |dst| == Min(n, |h.buf| - h.pos) && dst == ReadOut(h, n)
    ensures ft.Descriptors() == old(ft.Descriptors())[i := Some(AfterRead(h, n))]
  {
    hide Heap.Rep, HeapInv, FsState.Rep, FatDriver.CwdOk, Live, Ptrs, SlotsOk, Bufs, ViewOf, FirstUnused;
    r, dst := ft.ReadFrom(pid, fd, n);
  }

  /** Reading in any chunking delivers consecutive bytes of the snapshot. */
  method ReadChunks(ft: FileTable, pid: int, fd: int, sizes: seq<nat>, ghost i: nat, ghost h: Handle)
    returns (out: seq<seq<Byte>>)
    requires ft.Valid() && Holds(ft.Descriptors(), pid, fd, i, h) && h.mode == O_RDONLY && h.pos <= |h.buf|
    modifies ft.files
    ensures BlocksOf(ft.files[..]) == old(BlocksOf(ft.files[..]))
    ensures ft.Valid() && Flat(out) == ReadOut(h, Sum(sizes))
    ensures ft.Descriptors() == old(ft.Descriptors())[i := Some(AfterRead(h, Sum(sizes)))]
  {
    hide SlotOf, Holds, ReadOut, FileTable.Valid, FileTable.Descriptors;
    ghost var v := ft.Descriptors();
    HoldsIn(v, pid, fd, i, h);
    ReadNone(h);
    var k := 0;
    out := [];
    assert sizes[..0] == [] && AfterRead(h, 0) == h && v[i := Some(h)] == v;
    while k < |sizes|
      invariant 0 <= k <= |sizes| && ft.Valid() && Flat(out) == ReadOut(h, Sum(sizes[..k]))
      invariant BlocksOf(ft.files[..]) == old(BlocksOf(ft.files[..]))
      invariant ft.Descriptors() == v[i := Some(AfterRead(h, Sum(sizes[..k])))]
    {
      assert sizes[..k + 1][..k] == sizes[..k];
      ghost var hk := AfterRead(h, Sum(sizes[..k]));
      HoldsSet(v, pid, fd, i, h, hk);
      var r, dst := ReadChunk(ft, pid, fd, sizes[k], i, hk);
      ReadMore(h, Sum(sizes[..k]), sizes[k]);
      assert (out + [dst])[..|out|] == out;
      out := out + [dst];
      k := k + 1;
    }
    assert sizes[..k] == sizes;
  }

  lemma ReadNone(h: Handle)
    requires h.pos <= |h.buf|
    ensures ReadOut(h, 0) == [] && AfterRead(h, 0) == h
  {
  }

  lemma ReadMore(h: Handle, a: nat, b: nat)
    requires h.pos <= |h.buf|
    ensures var h' := AfterRead(h, a);
      ReadOut(h, a + b) == ReadOut(h, a) + ReadOut(h', b) && AfterRead(h, a + b) == AfterRead(h', b)
  {
  }

  /**
   * What a store that may be refused did: exactly the one file has changed, or
   * nothing of the tree, which the volume then still holds unless the file was to
   * be replaced.
   */
  ghost predicate Outcome(ft: FileTable, t: Tree, place: Option<(nat, Name)>, rewrites: bool, h: nat, data: seq<Byte>,
                          ok: bool)
    reads ft, ft.fs, ft.fs.vol
  {
    && (ok ==> Written(t, place, h, data, ft.fs.tree)) && (!ok ==> ft.fs.tree == t)
    && (ft.lost <==> !ok && rewrites) && (ft.lost ==> FsUnique.NoTree(ft.fs.vol.g, ft.fs.vol.disk))
  }

  /** No other file is touched: a path reads the new bytes if it leads to the file, else what it read before. */
  lemma OutcomeElsewhere(ft: FileTable, t: Tree, place: Option<(nat, Name)>, rewrites: bool, h: nat, data: seq<Byte>,
                         ok: bool, hit: Hit, cs: seq<Text>)
    requires TreeOk(t) && Outcome(ft, t, place, rewrites, h, data, ok) && HitOk(t, hit) && hit.AtDir?
    ensures TreeOk(ft.fs.tree) && HitOk(ft.fs.tree, hit) && (ok ==> place.Some?)
    ensures ReadAt(ft.fs.tree, hit, cs) ==
      if ok && Walk(ft.fs.tree, hit, cs) == Some(AtFile(place.value.0, place.value.1)) then Some(data)
      else ReadAt(t, hit, cs)
  {
    hide TreeOk, CanPut, PutFile, Walk, FsUnique.NoTree;
    if ok {
      Effects.WriteElsewhere(t, place.value.0, place.value.1, h, data, hit, cs);
    }
  }

  /** Closing a writer, told in terms of its descriptor. */
  method CloseWriter(ft: FileTable, pid: int, fd: int, ghost i: nat, ghost f: Handle) returns (ok: bool, ghost h: nat)
    requires ft.Valid() && !ft.lost && Holds(ft.Descriptors(), pid, fd, i, f) && f.mode == O_WRONLY
    modifies ft`lost, ft.files, ft.fs.vol, ft.fs`chains, ft.fs`tree, ft.heap.mem, ft.heap`bs
    ensures ft.Valid() && ft.Descriptors() == old(ft.Descriptors())[i := None]
    ensures FreedBy(old(ft.heap.bs), old(ft.files[..]), i, ft.heap.bs, ft.files[..])
    ensures ok <==> old(ft.Storable(ft.heap.bs, f.path, |f.buf|))
    ensures ok ==> !ft.lost && ft.Stored(f.path) == Some(f.buf)
    ensures Outcome(ft, old(ft.fs.tree), old(ft.PlaceOf(f.path)), old(ft.Replaces(f.path)), h, f.buf, ok)
  {
    hide Heap.Rep, HeapInv, FsState.Rep, FatDriver.CwdOk, TreeOk, Live, Ptrs, SlotsOk, Bufs, ViewOf, FirstUnused,
      Written, FsUnique.NoTree;
    hide FileTable.Storable, FileTable.Stored, FileTable.Replaces, FileTable.PlaceOf, FreedBy;
    assert ft.Open(pid, fd, O_WRONLY) == Some(f);
    var rc;
    rc, h := ft.Close(pid, fd);
    ok := rc == 0;
  }

  /** Closing a reader changes nothing on disk. */
  method CloseReader(ft: FileTable, pid: int, fd: int, ghost i: nat, ghost f: Handle)
    requires ft.Valid() && Holds(ft.Descriptors(), pid, fd, i, f) && f.mode == O_RDONLY
    modifies ft`lost, ft.files, ft.fs.vol, ft.fs`chains, ft.fs`tree, ft.heap.mem, ft.heap`bs
    ensures ft.Valid() && ft.Descriptors() == old(ft.Descriptors())[i := None]
    ensures FreedBy(old(ft.heap.bs), old(ft.files[..]), i, ft.heap.bs, ft.files[..])
    ensures unchanged(ft.fs) && unchanged(ft.fs.vol) && ft.lost == old(ft.lost)
  {
    hide Heap.Rep, HeapInv, FsState.Rep, FatDriver.CwdOk, TreeOk, Live, Ptrs, SlotsOk, Bufs, ViewOf, FirstUnused,
      Written, FsUnique.NoTree;
    hide FileTable.Storable, FileTable.Stored, FileTable.Replaces, FileTable.PlaceOf, FreedBy;
    assert ft.Open(pid, fd, O_WRONLY) == None;
    var rc;
    ghost var c;
    rc, c := ft.Close(pid, fd);
  }

  /** The one block taken since is given back. */
  lemma BackToStart(bs: seq<Block>, base: nat, total: nat, n: nat, slots: seq<Slot>, i: nat, bs': seq<Block>,
                    slots': seq<Slot>)
    requires HeapInv(bs, base, total) && 0 < n && Has(bs, n) && i < |slots| && slots[i].ptr == Malloc(bs, n).1
    requires FreedBy(Malloc(bs, n).0, slots, i, bs', slots')
    ensures bs' == bs
  {
    hide HeapInv, Malloc, Release, PayloadIndex;
    MallocFree(bs, base, total, n);
  }

  /** A free descriptor, a path that fits and a heap block. */
  ghost predicate CanOpenWriter(ft: FileTable, path: Text)
    reads ft, ft.files, ft.fs, ft.heap, ft.heap.mem
  {
    FirstUnused(ft.Descriptors()).Some? && AbsOf(ft.fs.cwdPath, path).Some? && Has(ft.heap.bs, WRITE_CAP)
  }

  /** The store is reached and would give up an old chain first. */
  ghost predicate WouldReplace(ft: FileTable, path: Text)
    requires ft.fs.Valid()
    reads ft, ft.files, ft.fs, ft.fs.vol, ft.heap, ft.heap.mem
  {
    CanOpenWriter(ft, path) && ft.Replaces(AbsOf(ft.fs.cwdPath, path).value)
  }

  ghost function PlaceFor(ft: FileTable, path: Text): Option<(nat, Name)>
    requires ft.fs.Valid()
    reads ft.fs, ft.fs.vol
  {
    match AbsOf(ft.fs.cwdPath, path)
    case None => None
    case Some(full) => ft.PlaceOf(full)
  }

  /** Those, and room on the volume. */
  ghost predicate CanStore(ft: FileTable, path: Text, size: nat)
    requires ft.fs.Valid()
    reads ft, ft.files, ft.fs, ft.fs.vol, ft.heap, ft.heap.mem
  {
    && CanOpenWriter(ft, path)
    && ft.Storable(Malloc(ft.heap.bs, WRITE_CAP).0, AbsOf(ft.fs.cwdPath, path).value, size)
  }

  /** Opens, writes in any chunking, and closes; descriptors and heap are as before. */
  method Store(ft: FileTable, pid: int, path: Text, chunks: seq<seq<Byte>>) returns (ok: bool, ghost c: nat)
    requires ft.Valid() && !ft.lost && Contained(ft.fs.cwdPath, path) && PathOk(path) && |Flat(chunks)| <= WRITE_CAP
    modifies ft`lost, ft.files, ft.fs.vol, ft.fs`chains, ft.fs`tree, ft.heap.mem, ft.heap`bs
    ensures ft.Valid() && ft.Descriptors() == old(ft.Descriptors()) && ft.heap.bs == old(ft.heap.bs)
    ensures ok <==> old(CanStore(ft, path, |Flat(chunks)|))
    ensures ok ==> !ft.lost && ft.Stored(AbsOf(ft.fs.cwdPath, path).value) == Some(Flat(chunks))
    ensures Outcome(ft, old(ft.fs.tree), old(PlaceFor(ft, path)), old(WouldReplace(ft, path)), c, Flat(chunks), ok)
  {
    hide Heap.Rep, HeapInv, FsState.Rep, FatDriver.CwdOk, TreeOk, Live, Ptrs, SlotsOk, Bufs, ViewOf, Flat, FirstUnused,
      SlotOf, FreedBy, Malloc;
    hide FileTable.Storable, FileTable.Stored, FileTable.Replaces, FileTable.PlaceOf, Written, FsUnique.NoTree;
    ghost var v, bs := ft.Descriptors(), ft.heap.bs;
    var fd := ft.OpenFile(pid, path, O_WRONLY);
    if fd < 0 {
      return false, 0;
    }
    ghost var i, h := FirstUnused(v).value, old(ft.Target(pid, path, O_WRONLY)).value;
    OpenedHolds(v, h);
    WriteChunks(ft, pid, fd, chunks, i, h);
    HoldsSet(v[i := Some(h)], pid, fd, i, h, h.(buf := h.buf + Flat(chunks)));
    assert h.buf + Flat(chunks) == Flat(chunks);
    ghost var slots := ft.files[..];
    ok, c := CloseWriter(ft, pid, fd, i, h.(buf := Flat(chunks)));
    BackToStart(bs, ft.heap.base, ft.heap.total, WRITE_CAP, slots, i, ft.heap.bs, ft.files[..]);
    assert ft.Descriptors() == v;
  }

  /** Opens, reads in any chunking, and closes; neither file system nor heap is changed. */
  method Fetch(ft: FileTable, pid: int, path: Text, sizes: seq<nat>) returns (ok: bool, out: seq<seq<Byte>>)
    requires ft.Valid() && !ft.lost && Contained(ft.fs.cwdPath, path) && PathOk(path) && ft.Sized(path)
    modifies ft`lost, ft.files, ft.fs.vol, ft.fs`chains, ft.fs`tree, ft.heap.mem, ft.heap`bs
    ensures ft.Valid() && ft.Descriptors() == old(ft.Descriptors()) && ft.heap.bs == old(ft.heap.bs)
    ensures unchanged(ft.fs) && unchanged(ft.fs.vol) && !ft.lost
    ensures ok <==> FirstUnused(old(ft.Descriptors())).Some? && old(ft.Target(pid, path, O_RDONLY)).Some?
    ensures ok ==> Flat(out) == ReadOut(old(ft.Target(pid, path, O_RDONLY)).value, Sum(sizes))
  {
    hide Heap.Rep, HeapInv, FsState.Rep, FatDriver.CwdOk, TreeOk, Live, Ptrs, SlotsOk, Bufs, ViewOf, Flat, Sum,
      FirstUnused, SlotOf, FreedBy, Malloc;
    hide ReadOut, FileTable.Stored;
    ghost var v, bs := ft.Descriptors(), ft.heap.bs;
    var fd := ft.OpenFile(pid, path, O_RDONLY);
    if fd < 0 {
      return false, [];
    }
    ghost var i, h := FirstUnused(v).value, old(ft.Target(pid, path, O_RDONLY)).value;
    OpenedHolds(v, h);
    out := ReadChunks(ft, pid, fd, sizes, i, h);
    HoldsSet(v[i := Some(h)], pid, fd, i, h, AfterRead(h, Sum(sizes)));
    ghost var slots := ft.files[..];
    CloseReader(ft, pid, fd, i, AfterRead(h, Sum(sizes)));
    BackToStart(bs, ft.heap.base, ft.heap.total, Need(h), slots, i, ft.heap.bs, ft.files[..]);
    assert ft.Descriptors() == v;
    ok := true;
  }

  /**
   * Written in any chunking, closed, opened again and read in any chunking, the
   * bytes come back; it works exactly when a descriptor, the heap, the path and
   * the volume allow, and leaves descriptors and heap as they were.
   */
  method RoundTrip(ft: FileTable, pid: int, path: Text, chunks: seq<seq<Byte>>, sizes: seq<nat>)
    returns (ok: bool, out: seq<seq<Byte>>, ghost c: nat)
    requires ft.Valid() && !ft.lost && Contained(ft.fs.cwdPath, path) && PathOk(path) && |Flat(chunks)| <= WRITE_CAP
    modifies ft`lost, ft.files, ft.fs.vol, ft.fs`chains, ft.fs`tree, ft.heap.mem, ft.heap`bs
    ensures ft.Valid() && ft.Descriptors() == old(ft.Descriptors()) && ft.heap.bs == old(ft.heap.bs)
    ensures ok <==>
      old(CanStore(ft, path, |Flat(chunks)|)) && old(CanHold(ft.heap.bs, |Flat(chunks)|, ft.fs.vol.g.ClusterBytes()))
    ensures ok ==> Flat(out) == Flat(chunks)[..Min(Sum(sizes), |Flat(chunks)|)]
    ensures Outcome(ft, old(ft.fs.tree), old(PlaceFor(ft, path)), old(WouldReplace(ft, path)), c, Flat(chunks),
                    old(CanStore(ft, path, |Flat(chunks)|)))
  {
    hide Heap.Rep, HeapInv, FsState.Rep, FatDriver.CwdOk, TreeOk, Live, Ptrs, SlotsOk, Bufs, ViewOf, Flat, Sum,
      FirstUnused, SlotOf, Malloc;
    hide FileTable.Stored, CanHold, WouldReplace, PlaceFor, Outcome, FileTable.Storable;
    out := [];
    ok, c := Store(ft, pid, path, chunks);
    if ok {
      ok, out := Fetch(ft, pid, path, sizes);
    }
  }

  lemma OpenedHolds(v: View, h: Handle)
    requires FirstUnused(v).Some? && |v| == MAX_FILES
    ensures Holds(After(v, Opened(h)), h.pid, FirstUnused(v).value + FD_BASE, FirstUnused(v).value, h)
  {
  }

  // ---- cp ---------------------------------------------------------------------------------------

  /** Both descriptors of the copy: the source has been read and written up to `pos` and `done`. */
  function Copying(v: View, i: nat, o: nat, hin: Handle, hout: Handle, pos: nat, done: nat): View
    requires i < |v| && o < |v| && done <= |hin.buf|
  {
    v[i := Some(hin.(pos := pos))][o := Some(hout.(buf := hin.buf[..done]))]
  }

  lemma CopyingHolds(v: View, pid: int, fdin: int, fdout: int, i: nat, o: nat, hin: Handle, hout: Handle, pos: nat,
                     done: nat)
    requires Holds(v, pid, fdin, i, hin) && Holds(v, pid, fdout, o, hout) && i != o && done <= |hin.buf|
    ensures Holds(Copying(v, i, o, hin, hout, pos, done), pid, fdin, i, hin.(pos := pos))
    ensures Holds(Copying(v, i, o, hin, hout, pos, done), pid, fdout, o, hout.(buf := hin.buf[..done]))
  {
  }

  lemma CopyingSteps(v: View, i: nat, o: nat, hin: Handle, hout: Handle, pos: nat, done: nat, pos': nat, done': nat)
    requires i < |v| && o < |v| && i != o && done <= done' <= |hin.buf|
    ensures Copying(v, i, o, hin, hout, pos, done)[i := Some(hin.(pos := pos'))]
         == Copying(v, i, o, hin, hout, pos', done)
    ensures Copying(v, i, o, hin, hout, pos, done)[o := Some(hout.(buf := hin.buf[..done']))]
         == Copying(v, i, o, hin, hout, pos, done')
    ensures hin.buf[..done] + hin.buf[done..done'] == hin.buf[..done']
  {
  }

  /** The loop of cp: copies everything, or the first 64 KiB and then reports a write error. */
  method CopyLoop(ft: FileTable, pid: int, fdin: int, fdout: int, ghost i: nat, ghost o: nat, ghost hin: Handle,
                  ghost hout: Handle)
    returns (ok: bool, total: nat, ghost pos: nat)
    requires ft.Valid() && i != o && hin.mode == O_RDONLY && hin.pos == 0 && hout.mode == O_WRONLY && hout.buf == []
    requires Holds(ft.Descriptors(), pid, fdin, i, hin) && Holds(ft.Descriptors(), pid, fdout, o, hout)
    modifies ft.files, ft.heap.mem
    ensures BlocksOf(ft.files[..]) == old(BlocksOf(ft.files[..]))
    ensures ft.Valid() && total == Min(|hin.buf|, WRITE_CAP) && (ok <==> |hin.buf| <= WRITE_CAP)
    ensures ft.Descriptors() == Copying(old(ft.Descriptors()), i, o, hin, hout, pos, total)
  {
    hide SlotOf, Holds, Copying, FileTable.Valid, FileTable.Descriptors;
    ghost var v := ft.Descriptors();
    total, pos := 0, 0;
    CopyingStart(v, pid, fdin, fdout, i, o, hin, hout);
    while true
      invariant ft.Valid() && pos == total <= Min(|hin.buf|, WRITE_CAP) && (total % CHUNK == 0 || total == |hin.buf|)
      invariant ft.Descriptors() == Copying(v, i, o, hin, hout, pos, total)
      invariant BlocksOf(ft.files[..]) == old(BlocksOf(ft.files[..]))
      decreases |hin.buf| - total
    {
      CopyingHolds(v, pid, fdin, fdout, i, o, hin, hout, pos, total);
      var n, chunk := ReadChunk(ft, pid, fdin, CHUNK, i, hin.(pos := pos));
      CopyingSteps(v, i, o, hin, hout, pos, total, total + n, total + n);
      pos := pos + n;
      if n <= 0 {
        break;
      }
      CopyingHolds(v, pid, fdin, fdout, i, o, hin, hout, pos, total);
      CopyingSteps(v, i, o, hin, hout, pos, total, pos, total + n);
      var w := WriteChunk(ft, pid, fdout, chunk, o, hout.(buf := hin.buf[..total]));
      if w != n {
        return false, total, pos;
      }
      total := total + n;
    }
    ok := true;
  }

  lemma CopyingStart(v: View, pid: int, fdin: int, fdout: int, i: nat, o: nat, hin: Handle, hout: Handle)
    requires i != o && hin.pos == 0 && hout.buf == []
    requires Holds(v, pid, fdin, i, hin) && Holds(v, pid, fdout, o, hout)
    ensures i < |v| && o < |v| && Copying(v, i, o, hin, hout, 0, 0) == v
  {
    assert hin.buf[..0] == [];
  }

  /** The descriptors of both opens of cp, and the heap after them, if both succeed. */
  datatype Opening = Opening(hin: Handle, hout: Handle, bs: seq<Block>, src: nat)

  ghost function Pair(ft: FileTable, pid: int, src: Text, dst: Text): Option<Opening>
    requires ft.fs.Valid()
    reads ft, ft.files, ft.fs, ft.fs.vol, ft.heap, ft.heap.mem
  {
    var v := ft.Descriptors();
    match ft.Target(pid, src, O_RDONLY)
    case None => None
    case Some(hin) =>
      var (bs, ptr) := Malloc(ft.heap.bs, Need(hin));
      if FirstUnused(v) == None || FirstUnused(After(v, Opened(hin))) == None then None
      else match AbsOf(ft.fs.cwdPath, dst)
        case None => None
        case Some(full) =>
          if Has(bs, WRITE_CAP)
          then Some(Opening(hin, Handle(pid, O_WRONLY, full, [], 0), Malloc(bs, WRITE_CAP).0, ptr))
          else None
  }

  /** Both descriptors of cp are open, each with its block. */
  ghost predicate BothOpen(ft: FileTable, pid: int, fdin: int, fdout: int, i: nat, o: nat, p: Opening, v: View,
                           bs: seq<Block>)
    reads ft, ft.files, ft.heap, ft.heap.mem
  {
    && i != o && Holds(ft.Descriptors(), pid, fdin, i, p.hin) && Holds(ft.Descriptors(), pid, fdout, o, p.hout)
    && ft.Descriptors()[i := None][o := None] == v && i < ft.files.Length && o < ft.files.Length
    && p.hin.mode == O_RDONLY && p.hin.pos == 0 && p.hout.mode == O_WRONLY && p.hout.buf == []
    && ft.heap.bs == p.bs && Took(bs, p, ft.files[i].ptr, ft.files[o].ptr)
  }

  /** The two blocks were taken one after the other. */
  predicate Took(bs: seq<Block>, p: Opening, src: nat, dst: nat) {
    var n := Need(p.hin);
    && 0 < n < DWORD && Has(bs, n) && src == p.src == Malloc(bs, n).1
    && Has(Malloc(bs, n).0, WRITE_CAP) && (p.bs, dst) == Malloc(Malloc(bs, n).0, WRITE_CAP)
  }

  /** The two opens of cp: both descriptors, or none left open and the heap as before. */
  method OpenPair(ft: FileTable, pid: int, src: Text, dst: Text)
    returns (ok: bool, fdin: int, fdout: int, ghost i: nat, ghost o: nat)
    requires ft.Valid() && !ft.lost && PathOk(src) && PathOk(dst) && ft.Sized(src)
    requires Contained(ft.fs.cwdPath, src) && Contained(ft.fs.cwdPath, dst)
    modifies ft`lost, ft.files, ft.fs.vol, ft.fs`chains, ft.fs`tree, ft.heap.mem, ft.heap`bs
    ensures ft.Valid() && unchanged(ft.fs) && unchanged(ft.fs.vol) && !ft.lost
    ensures ok <==> old(Pair(ft, pid, src, dst)).Some?
    ensures !ok ==> ft.Descriptors() == old(ft.Descriptors()) && ft.heap.bs == old(ft.heap.bs)
    ensures ok ==>
      BothOpen(ft, pid, fdin, fdout, i, o, old(Pair(ft, pid, src, dst)).value, old(ft.Descriptors()), old(ft.heap.bs))
  {
    hide Heap.Rep, HeapInv, FsState.Rep, FatDriver.CwdOk, TreeOk, Live, Ptrs, SlotsOk, Bufs, ViewOf, FirstUnused,
      SlotOf, FileTable.Stored, FreedBy, Malloc;
    ghost var v, bs := ft.Descriptors(), ft.heap.bs;
    ok, fdout, i, o := false, 0, 0, 0;
    fdin := ft.OpenFile(pid, src, O_RDONLY);
    if fdin < 0 {
      return;
    }
    ghost var hin := old(ft.Target(pid, src, O_RDONLY)).value;
    i := FirstUnused(v).value;
    OpenedHolds(v, hin);
    ghost var slots, v1 := ft.files[..], ft.Descriptors();
    assert ft.files[i].used;
    fdout := ft.OpenFile(pid, dst, O_WRONLY);
    if fdout < 0 {
      slots := ft.files[..];
      CloseReader(ft, pid, fdin, i, hin);
      BackToStart(bs, ft.heap.base, ft.heap.total, Need(hin), slots, i, ft.heap.bs, ft.files[..]);
      assert ft.Descriptors() == v;
      return;
    }
    ghost var hout := Handle(pid, O_WRONLY, AbsOf(ft.fs.cwdPath, dst).value, [], 0);
    o := FirstUnused(v1).value;
    TwoOpened(v, hin, hout, fdin, fdout, i, o);
    ok := true;
  }

  /** Two opens in a row: two slots, each with its handle, and the rest as before. */
  lemma TwoOpened(v: View, hin: Handle, hout: Handle, fdin: int, fdout: int, i: nat, o: nat)
    requires |v| == MAX_FILES && hin.pid == hout.pid && FirstUnused(v) == Some(i) && fdin == i + FD_BASE
    requires FirstUnused(After(v, Opened(hin))) == Some(o) && fdout == o + FD_BASE
    ensures var w := After(After(v, Opened(hin)), Opened(hout));
      && i != o && Holds(w, hin.pid, fdin, i, hin) && Holds(w, hin.pid, fdout, o, hout)
      && i < |w| && o < |w| && w[i := None][o := None] == v
  {
    hide FirstUnused, SlotOf;
    var v1 := After(v, Opened(hin));
    OpenedHolds(v, hin);
    OpenedHolds(v1, hout);
    HoldsOther(v1, hin.pid, fdin, i, hin, o, hout);
    assert v1[o := Some(hout)][i := None][o := None] == v;
  }

  lemma HoldsOther(v: View, pid: int, fd: int, i: nat, h: Handle, o: nat, h': Handle)
    requires Holds(v, pid, fd, i, h) && o < |v| && o != i
    ensures Holds(v[o := Some(h')], pid, fd, i, h)
  {
  }

  /** Source bytes, destination, and whether the volume takes what cp will store there, and in whose place. */
  datatype Plan = Plan(data: seq<Byte>, path: Text, fits: bool, place: Option<(nat, Name)>, rewrites: bool)

  /** The heap once the reader of cp is closed. */
  function ReaderClosed(p: Opening): seq<Block> {
    match PayloadIndex(p.bs, p.src)
    case None => p.bs
    case Some(k) => Release(p.bs, k)
  }

  ghost function PlanOf(ft: FileTable, pid: int, src: Text, dst: Text): Option<Plan>
    requires ft.fs.Valid()
    reads ft, ft.files, ft.fs, ft.fs.vol, ft.heap, ft.heap.mem
  {
    match Pair(ft, pid, src, dst)
    case None => None
    case Some(p) =>
      Some(Plan(p.hin.buf, p.hout.path, ft.Storable(ReaderClosed(p), p.hout.path, Min(|p.hin.buf|, WRITE_CAP)),
                ft.PlaceOf(p.hout.path), ft.Replaces(p.hout.path)))
  }

  /**
   * Success exactly when the data is at most 64 KiB and fits; a longer source
   * leaves its first 64 KiB. No other file changes, and none at all if it does not fit.
   */
  ghost predicate Copied(ft: FileTable, p: Plan, rc: int, total: nat, t: Tree, h: nat)
    reads ft, ft.fs, ft.fs.vol
  {
    && total == Min(|p.data|, WRITE_CAP) && Outcome(ft, t, p.place, p.rewrites, h, p.data[..total], p.fits)
    && (rc == 0 <==> |p.data| <= WRITE_CAP && p.fits)
    && (rc == 0 ==> ft.fs.Valid() && ft.Stored(p.path) == Some(p.data))
    && (p.fits && |p.data| > WRITE_CAP ==> ft.fs.Valid() && ft.Stored(p.path) == Some(p.data[..WRITE_CAP]))
  }

  /** Both blocks given back, in either order, leave the heap as it was. */
  lemma BothBack(bs: seq<Block>, base: nat, total: nat, p: Opening, src: nat, dst: nat)
    requires HeapInv(bs, base, total) && total <= HEAP_MAX && Took(bs, p, src, dst)
    requires PayloadIndex(p.bs, src).Some?
    ensures var bs3 := Release(p.bs, PayloadIndex(p.bs, src).value);
      PayloadIndex(bs3, dst).Some? ==> Release(bs3, PayloadIndex(bs3, dst).value) == bs
    ensures PayloadIndex(p.bs, dst).Some?
    ensures var bs1 := Release(p.bs, PayloadIndex(p.bs, dst).value);
      PayloadIndex(bs1, src).Some? && Release(bs1, PayloadIndex(bs1, src).value) == bs
  {
    hide HeapInv, Live, Malloc, Release, PayloadIndex;
    var bs1 := Malloc(bs, Need(p.hin)).0;
    MallocFree(bs, base, total, Need(p.hin));
    MallocFree(bs1, base, total, WRITE_CAP);
    HeapRuns.MallocMembers(bs, base, total, Need(p.hin));
    HeapRuns.MallocMembers(bs1, base, total, WRITE_CAP);
    HeapRuns.FreeMembers(p.bs, base, total, src);
    var bs3 := Release(p.bs, PayloadIndex(p.bs, src).value);
    if PayloadIndex(bs3, dst).Some? {
      HeapRuns.FreeMembers(bs3, base, total, dst);
      MembersDetermine(Release(bs3, PayloadIndex(bs3, dst).value), bs, base, total);
    }
  }

  lemma TookSource(bs: seq<Block>, p: Opening, src: nat, dst: nat)
    requires Took(bs, p, src, dst)
    ensures src == p.src
  {
    hide Malloc;
  }

  /** The two closes of cp, reader first. */
  method CloseBoth(ft: FileTable, pid: int, fdin: int, fdout: int, ghost i: nat, ghost o: nat, ghost hin: Handle,
                   ghost hout: Handle,
                   ghost bs: seq<Block>, ghost p: Opening)
    returns (stored: bool, ghost h: nat)
    requires ft.Valid() && !ft.lost && i != o && hin.mode == O_RDONLY && hout.mode == O_WRONLY && i < ft.files.Length
    requires o < ft.files.Length
    requires Holds(ft.Descriptors(), pid, fdin, i, hin) && Holds(ft.Descriptors(), pid, fdout, o, hout)
    requires HeapInv(bs, ft.heap.base, ft.heap.total) && ft.heap.bs == p.bs
    requires Took(bs, p, ft.files[i].ptr, ft.files[o].ptr)
    modifies ft`lost, ft.files, ft.fs.vol, ft.fs`chains, ft.fs`tree, ft.heap.mem, ft.heap`bs
    ensures ft.Valid() && ft.Descriptors() == old(ft.Descriptors())[i := None][o := None] && ft.heap.bs == bs
    ensures stored <==> old(ft.Storable(ReaderClosed(p), hout.path, |hout.buf|))
    ensures stored ==> !ft.lost && ft.Stored(hout.path) == Some(hout.buf)
    ensures Outcome(ft, old(ft.fs.tree), old(ft.PlaceOf(hout.path)), old(ft.Replaces(hout.path)), h, hout.buf, stored)
  {
    hide Heap.Rep, HeapInv, FsState.Rep, FatDriver.CwdOk, TreeOk, Live, Ptrs, SlotsOk, Bufs, ViewOf, SlotOf,
      FileTable.Stored;
    hide FileTable.Storable, FileTable.PlaceOf, FileTable.Replaces, Holds, Malloc, Release, PayloadIndex, Took, Outcome;
    ghost var v, slots := ft.Descriptors(), ft.files[..];
    HoldsIn(v, pid, fdin, i, hin);
    TookSource(bs, p, slots[i].ptr, slots[o].ptr);
    CloseReader(ft, pid, fdin, i, hin);
    HoldsDropped(v, pid, fdout, o, hout, i);
    assert ft.heap.bs == ReaderClosed(p);
    stored, h := CloseWriter(ft, pid, fdout, o, hout);
    BothBack(bs, ft.heap.base, ft.heap.total, p, slots[i].ptr, slots[o].ptr);
  }

  /**
   * cp: a source of at most 64 KiB is reproduced whenever both opens succeed and
   * the volume takes it. A larger source ends in an error, but its first 64 KiB
   * have then replaced the destination. Descriptors and heap are as before.
   */
  method Cp(ft: FileTable, pid: int, src: Text, dst: Text) returns (rc: int, total: nat, ghost h: nat)
    requires ft.Valid() && !ft.lost && PathOk(src) && PathOk(dst) && ft.Sized(src)
    requires Contained(ft.fs.cwdPath, src) && Contained(ft.fs.cwdPath, dst)
    modifies ft`lost, ft.files, ft.fs.vol, ft.fs`chains, ft.fs`tree, ft.heap.mem, ft.heap`bs
    ensures ft.Valid() && ft.Descriptors() == old(ft.Descriptors()) && ft.heap.bs == old(ft.heap.bs)
    ensures (rc == 0 || rc == 1)
    ensures old(PlanOf(ft, pid, src, dst)) == None ==>
      rc == 1 && unchanged(ft.fs) && unchanged(ft.fs.vol) && !ft.lost
    ensures old(PlanOf(ft, pid, src, dst)).Some? ==>
      Copied(ft, old(PlanOf(ft, pid, src, dst)).value, rc, total, old(ft.fs.tree), h)
  {
    hide Heap.Rep, HeapInv, FsState.Rep, FatDriver.CwdOk, TreeOk, Live, Ptrs, SlotsOk, Bufs, ViewOf, FirstUnused,
      SlotOf, FileTable.Stored;
    hide FileTable.Storable, FileTable.PlaceOf, FileTable.Replaces, Outcome;
    hide Pair, Holds, Copying, Malloc, ReaderClosed, Took;
    rc, total, h := 1, 0, 0;
    ghost var bs, both, i, o := ft.heap.bs, Pair(ft, pid, src, dst), 0, 0;
    ghost var plan := PlanOf(ft, pid, src, dst);
    var ok, fdin, fdout;
    ok, fdin, fdout, i, o := OpenPair(ft, pid, src, dst);
    if !ok {
      return;
    }
    ghost var p, v, pos := both.value, ft.Descriptors(), 0;
    HoldsIn(v, pid, fdin, i, p.hin);
    HoldsIn(v, pid, fdout, o, p.hout);
    ok, total, pos := CopyLoop(ft, pid, fdin, fdout, i, o, p.hin, p.hout);
    CopyingHolds(v, pid, fdin, fdout, i, o, p.hin, p.hout, pos, total);
    CopyingClosed(v, i, o, p.hin, p.hout, pos, total);
    assert ft.Storable(ReaderClosed(p), p.hout.path, total) == plan.value.fits;
    assert |p.hin.buf| <= WRITE_CAP ==> p.hin.buf[..total] == p.hin.buf;
    var stored;
    stored, h := CloseBoth(ft, pid, fdin, fdout, i, o, p.hin.(pos := pos), p.hout.(buf := p.hin.buf[..total]), bs, p);
    if ok && stored {
      rc := 0;
    }
  }

  lemma HoldsDropped(v: View, pid: int, fd: int, o: nat, h: Handle, i: nat)
    requires Holds(v, pid, fd, o, h) && i < |v| && i != o
    ensures Holds(v[i := None], pid, fd, o, h)
  {
  }

  lemma CopyingClosed(v: View, i: nat, o: nat, hin: Handle, hout: Handle, pos: nat, done: nat)
    requires i < |v| && o < |v| && i != o && done <= |hin.buf|
    ensures |Copying(v, i, o, hin, hout, pos, done)| == |v|
    ensures Copying(v, i, o, hin, hout, pos, done)[i := None][o := None] == v[i := None][o := None]
  {
  }
}
