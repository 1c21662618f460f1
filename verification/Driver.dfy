/** The FAT16 driver proper: lookup, resolution, reading, writing, removing, creating and cd. */
module Driver {
  import opened Options
  import opened Arith
  import opened Bytes
  import opened Chains
  import opened Geometry
  import opened Sectors
  import opened Volume
  import opened Names
  import opened Tree
  import opened Paths
  import opened Effects
  import opened Cwd
  import opened CwdText
  import opened Dirents
  import opened Layout
  import opened FsState
  import opened FsUnique
  import opened FsSteps
  import opened DirScan

  /** `out` is the directory entry, real or synthetic, of what the walk has reached. */
  ghost predicate OutRep(t: Tree, out: Dirent, hit: Hit) {
    match hit
    case AtDir(id) => IsDirEnt(out) && Cluster(out) == id
    case AtFile(d, n) => t.Has(d, n) && t.At(d, n).File? && NodeRep(out, t.At(d, n))
  }

  /** The entry resolve starts from: a zeroed directory entry for cluster `c`. */
  function SynthDir(c: nat): (e: Dirent)
    requires c < 0x10000
    ensures e[0] == 0 && IsDirEnt(e) && Cluster(e) == c
  {
    var e := MakeEntry(seq(11, _ => 0), ATTR_DIR, c, 0);
    assert NameOf(e)[0] == 0;
    e
  }

  /** The last lookup of a walk, if it was for an ordinary name. */
  ghost function LastEntry(t: Tree, hit: Hit, cs: seq<Text>): Option<(nat, Name)>
    requires TreeOk(t) && HitOk(t, hit)
  {
    match WalkParent(t, hit, cs)
    case Some((AtDir(d), n)) => if n[0] == DOT then None else Some((d, n))
    case _ => None
  }

  lemma {:induction false} WalkFails(t: Tree, hit: Hit, a: seq<Text>, b: seq<Text>)
    requires TreeOk(t) && HitOk(t, hit) && Walk(t, hit, a) == None
    ensures Walk(t, hit, a + b) == None
    decreases |a|
  {
    if a != [] {
      StepOk(t, hit, a[0]);
      assert (a + b)[1..] == a[1..] + b;
      if Step(t, hit, a[0]).Some? {
        WalkFails(t, Step(t, hit, a[0]).value, a[1..], b);
      }
    }
  }

  lemma StepParts(t: Tree, d: nat, c: Text)
    requires d in t.dirs && Name83(c).Some?
    ensures Step(t, AtDir(d), c) == StepName(t, d, Name83(c).value)
  {
  }

  lemma LastOfAppend(t: Tree, hit: Hit, cs: seq<Text>, d: nat, c: Text)
    requires TreeOk(t) && HitOk(t, hit) && Walk(t, hit, cs) == Some(AtDir(d)) && Name83(c).Some?
    ensures WalkParent(t, hit, cs + [c]) == Some((AtDir(d), Name83(c).value))
  {
    assert (cs + [c])[..|cs|] == cs;
  }

  /** A printable component never gives a name that reads as free or deleted. */
  lemma NameFirst(c: Text)
    requires PathOk(c) && Name83(c).Some?
    ensures Name83(c).value[0] != 0 && Name83(c).value[0] != DELETED
  {
    if IsDots(c) {
      assert DOT_NAME[0] == DOT && DOTDOT_NAME[0] == DOT;
    } else {
      var base, ext := NameParts(c);
      if base == [] { assert Name83(c).value[0] == SPACE; } else {
        assert c[0] == base[0];
        assert Name83(c).value[0] == Upper(base[0]);
      }
    }
  }

  /** Looking up a name in a represented directory is a step of the walk. */
  lemma LookupStep(es: seq<Dirent>, d: nat, t: Tree, nm: Name)
    requires d in t.dirs && DirRep(es, d, t.dirs[d])
    requires nm[0] == DOT ==> d != 0 && (nm == DOT_NAME || nm == DOTDOT_NAME)
    ensures Find(es, nm, 0).Some? <==> StepName(t, d, nm).Some?
    ensures Find(es, nm, 0).Some? ==> OutRep(t, es[Find(es, nm, 0).value], StepName(t, d, nm).value)
    ensures Find(es, nm, 0).Some? ==> es[Find(es, nm, 0).value][0] == nm[0]
    ensures Find(es, nm, 0).Some? && nm[0] != DOT ==> t.Has(d, nm) && NodeRep(es[Find(es, nm, 0).value], t.At(d, nm))
    ensures Find(es, nm, 0).Some? && d == 0 ==> t.dirs[0].entries != map[]
  {
    hide DirRep;
    if nm[0] == DOT {
      FindDots(es, d, t.dirs[d]);
    } else {
      FindRep(es, d, t.dirs[d], nm);
    }
    if Find(es, nm, 0).Some? {
      assert NameOf(es[Find(es, nm, 0).value])[0] == es[Find(es, nm, 0).value][0];
    }
  }

  lemma {:induction false} AreaBound(n: nat, cb: nat)
    requires cb <= 0x1_0000
    ensures Times(n, cb) <= n * 0x1_0000
  {
    if n > 0 {
      AreaBound(n - 1, cb);
    }
  }

  class FatDriver {
    const vol: FatVolume
    var cwdCluster: nat
    var cwdPath: Text
    ghost var chains: ChainMap
    ghost var tree: Tree
    ghost var cwdComps: seq<Text>

    /** The state fat_mount leaves: the volume, and the root as current directory. */
    constructor (vol: FatVolume, ghost chains: ChainMap, ghost tree: Tree)
      requires vol.Valid() && Rep(vol.g, vol.disk, chains, tree, 0)
      ensures Valid() && this.vol == vol && this.chains == chains && this.tree == tree
      ensures cwdCluster == 0 && cwdPath == [SLASH] && cwdComps == [] && CwdOk()
    {
      hide Rep;
      this.vol := vol;
      this.chains := chains;
      this.tree := tree;
      cwdCluster := 0;
      cwdPath := [SLASH];
      cwdComps := [];
    }

    /** The volume holds `tree`, with the given chains. */
    ghost predicate Valid()
      reads this, vol
    {
      vol.Valid() && Rep(vol.g, vol.disk, chains, tree, 0)
    }

    ghost function Table(d: nat): seq<Dirent>
      requires Valid() && d in tree.dirs
      reads this, vol
    {
      Entries(vol.g, vol.disk, chains, d)
    }

    lemma DirFacts(d: nat)
      requires Valid() && d in tree.dirs
      ensures TreeOk(tree) && Scannable(vol, chains, d) && DirRep(Table(d), d, tree.dirs[d])
      ensures d <= vol.g.maxCluster && HasLbas(vol.g, chains, d) && Table(d) == EntriesIn(vol, chains, d)
    {
      hide DirRep, TreeOk, IsChain, FileRep, Scannable, Entries, Disjoint, Covered;
      if d != 0 { ChainInData(vol.g, vol.disk, chains, d); }
      ChainScannable(vol, chains, d);
    }

    /** dir_find: "." and ".." in the root are answered without a search and leave `where` alone. */
    method DirFind(d: nat, nm: Name, where0: Loc) returns (found: bool, out: Dirent, where: Loc, ghost i: nat)
      requires Valid() && d in tree.dirs && (nm[0] == DOT ==> nm == DOT_NAME || nm == DOTDOT_NAME)
      ensures found <==> StepName(tree, d, nm).Some?
      ensures found ==> OutRep(tree, out, StepName(tree, d, nm).value)
      ensures found && nm[0] != DOT ==> AtEntry(d, nm, i, out, where)
      ensures 0 in tree.dirs
      ensures found && nm[0] == DOT ==> (out[0] == DOT || (out[0] == 0 && where == where0 && d == 0))
      ensures where != where0 && found ==> tree.dirs[0].entries != map[]
      ensures !found ==> where == where0
      ensures found ==> !Label(out) && out[0] != DELETED
    {
      hide Rep, Find, StepName, OutRep, Scannable, EntriesIn, DirRep, TreeOk;
      DirFacts(d);
      RootIn(tree);
      if d == 0 && nm[0] == DOT {
        assert OutRep(tree, SynthDir(0), StepName(tree, 0, nm).value) by { RootDots(tree, nm); }
        return true, SynthDir(0), where0, 0;
      }
      LookupStep(Table(d), d, tree, nm);
      if d != 0 { RootNotEmpty(tree, d); }
      found, out, where, i := FindEntry(vol, d, nm, chains);
      if !found {
        where := where0;
      }
    }

    /** How a finished walk over `cs` relates to the entry last found and its location. */
    ghost predicate Trail(start: Hit, cs: seq<Text>, hit: Hit, out: Dirent, where: Loc, i: nat)
      requires Valid() && TreeOk(tree) && HitOk(tree, start)
      reads this, vol
    {
      && (where.lba != 0 ==> 0 in tree.dirs && tree.dirs[0].entries != map[])
      && match LastEntry(tree, start, cs)
         case Some((d, n)) => d in tree.dirs && AtEntry(d, n, i, out, where)
         case None => where.lba == 0 || out[0] == DOT || (out[0] == 0 && hit == AtDir(0))
    }

    /** One component of resolve, from the directory `hit`. */
    method ResolveStep(ghost start: Hit, ghost cs: seq<Text>, c: Text, nm: Name, ghost hit: Hit, out: Dirent,
                       where: Loc, ghost i: nat)
      returns (ok: bool, out': Dirent, where': Loc, ghost hit': Hit, ghost i': nat)
      requires Valid() && TreeOk(tree) && HitOk(tree, start) && Name83(c) == Some(nm)
      requires Walk(tree, start, cs) == Some(hit) && OutRep(tree, out, hit) && Trail(start, cs, hit, out, where, i)
      ensures ok <==> Walk(tree, start, cs + [c]).Some?
      ensures ok ==> Walk(tree, start, cs + [c]) == Some(hit') && OutRep(tree, out', hit')
      ensures ok ==> Trail(start, cs + [c], hit', out', where', i')
    {
      hide Rep, StepName, TreeOk, Walk;
      WalkAppend(tree, start, cs, c);
      out', where', hit', i' := out, where, hit, i;
      if !IsDirEnt(out) {
        return false, out, where, hit, i;
      }
      assert hit.AtDir?;
      DotNames(c);
      StepParts(tree, hit.id, c);
      LastOfAppend(tree, start, cs, hit.id, c);
      ok, out', where', i' := DirFind(Cluster(out), nm, where);
      if ok {
        hit' := StepName(tree, hit.id, nm).value;
        if hit.id == 0 && nm[0] == DOT { RootDots(tree, nm); }
        TrailStep(start, cs, c, nm, hit, where, hit', out', where', i');
      }
    }

    /**
     * resolve: with `parentOf`, the directory that should hold the last component,
     * and its name; otherwise what the whole path leads to.
     */
    method ResolvePath(path: Text, parentOf: bool)
      returns (ok: bool, out: Dirent, where: Loc, last: Name, ghost hit: Hit, ghost i: nat)
      requires Valid() && Start(cwdCluster, path) in tree.dirs
      ensures TreeOk(tree)
      ensures !parentOf ==> (ok <==> Resolve(tree, cwdCluster, path).Some?)
      ensures !parentOf && ok ==> Resolve(tree, cwdCluster, path) == Some(hit) && OutRep(tree, out, hit)
      ensures !parentOf && ok ==> Trail(AtDir(Start(cwdCluster, path)), PathComps(path), hit, out, where, i)
      ensures parentOf ==> (ok <==> ResolveParent(tree, cwdCluster, path).Some?)
      ensures parentOf && ok ==> ResolveParent(tree, cwdCluster, path) == Some((hit, last)) && OutRep(tree, out, hit)
    {
      hide Rep, TreeOk, Walk, Trail, OutRep, Comps, SkipSlashes, IndexOf, Name83;
      var dir, pos := cwdCluster, 0;
      if path != [] && path[0] == SLASH {
        dir, pos := 0, 1;
      }
      DirFacts(dir);
      ghost var start, cs, done := AtDir(dir), PathComps(path), [];
      assert path[pos..] == if Absolute(path) then path[1..] else path;
      out, where, last, hit, i := SynthDir(dir), Loc(0, 0), BLANK, start, 0;
      TrailBegin(dir, out, where, i);
      while pos < |path|
        invariant pos <= |path| && cs == done + Comps(path[pos..])
        invariant Walk(tree, start, done) == Some(hit) && OutRep(tree, out, hit)
        invariant Trail(start, done, hit, out, where, i)
        invariant parentOf && pos == |path| ==> done == []
      {
        var c, name83, next := NextComponent(path, pos);
        ghost var tail := Comps(path[next..]);
        assert done + Comps(path[pos..]) == done + [c] + tail;
        if name83 == None {
          ResolveStops(tree, start, done, c, tail);
          return false, out, where, last, hit, i;
        }
        if parentOf && next == |path| {
          last := name83.value;
          assert cs == done + [c] && cs[..|cs| - 1] == done;
          return true, out, where, last, hit, i;
        }
        var step, out', where';
        ghost var hit', i';
        step, out', where', hit', i' := ResolveStep(start, done, c, name83.value, hit, out, where, i);
        if !step {
          ResolveStops(tree, start, done, c, tail);
          return false, out, where, last, hit, i;
        }
        out, where, hit, i := out', where', hit', i';
        done, pos := done + [c], next;
      }
      CompsEmpty();
      assert path[pos..] == [] && done == cs;
      return !parentOf, out, where, last, hit, i;
    }

    lemma TrailBegin(dir: nat, out: Dirent, where: Loc, i: nat)
      requires Valid() && TreeOk(tree) && dir in tree.dirs && where.lba == 0 && IsDirEnt(out) && Cluster(out) == dir
      ensures Walk(tree, AtDir(dir), []) == Some(AtDir(dir)) && OutRep(tree, out, AtDir(dir))
      ensures Trail(AtDir(dir), [], AtDir(dir), out, where, i)
    {
      hide Rep, TreeOk, AtEntry;
    }

    lemma TrailStep(start: Hit, cs: seq<Text>, c: Text, nm: Name, hit: Hit, where: Loc,
                    hit': Hit, out': Dirent, where': Loc, i': nat)
      requires Valid() && TreeOk(tree) && HitOk(tree, start) && hit.AtDir? && hit.id in tree.dirs
      requires WalkParent(tree, start, cs + [c]) == Some((hit, nm)) && StepName(tree, hit.id, nm) == Some(hit')
      requires where.lba != 0 ==> 0 in tree.dirs && tree.dirs[0].entries != map[]
      requires 0 in tree.dirs && (where' != where ==> tree.dirs[0].entries != map[])
      requires nm[0] != DOT ==> AtEntry(hit.id, nm, i', out', where')
      requires nm[0] == DOT ==> (out'[0] == DOT || (out'[0] == 0 && where' == where && hit' == AtDir(0)))
      ensures Trail(start, cs + [c], hit', out', where', i')
    {
      hide Rep, StepName, TreeOk, Walk, AtEntry;
    }

    // ---- reading -----------------------------------------------------------------------------

    /** The contents of the file at `path`, if there is one. */
    ghost function Contents(path: Text): Option<seq<Byte>>
      requires Valid() && Start(cwdCluster, path) in tree.dirs
      reads this, vol
    {
      ReadAt(tree, AtDir(Start(cwdCluster, path)), PathComps(path))
    }

    /** The same on any volume: nothing where there is no tree or no directory to start from. */
    ghost function ContentsAt(path: Text): Option<seq<Byte>>
      reads this, vol
    {
      if Valid() && Start(cwdCluster, path) in tree.dirs then Contents(path) else None
    }

    /** There is a directory to start from, and the file is not within seven bytes of 4 GiB. */
    ghost predicate Readable(path: Text)
      reads this, vol
    {
      && Valid() && Start(cwdCluster, path) in tree.dirs
      && (vol.g.spc > 128 && Contents(path).Some? ==> |Contents(path).value| <= 0xFFFF_FFF8)
    }

    lemma FileFacts(d: nat, n: Name, out: Dirent) returns (s: seq<nat>)
      requires Valid() && tree.Has(d, n) && tree.At(d, n).File? && NodeRep(out, tree.At(d, n))
      ensures vol.Starts(Cluster(out), s) && AllInData(vol.g, s)
      ensures Size(out) <= Times(|s|, vol.g.ClusterBytes())
      ensures FileBytes(vol.g, vol.disk, s, Size(out)) == tree.At(d, n).content
      ensures s == [] <==> tree.At(d, n).head == 0
    {
      hide DirRep, IsChain, DirsRep;
      var h, content := tree.At(d, n).head, tree.At(d, n).content;
      assert NodeOk(tree, d, n) by { NodeAt(tree, d, n); }
      if h == 0 {
        s := [];
      } else {
        s := chains[h];
        assert FileAt(tree, h) == Some(content);
        ChainInData(vol.g, vol.disk, chains, h);
        ClustersForIsCeiling(|content|, vol.g.ClusterBytes());
      }
    }

    /** With clusters of at most 64 KiB no file comes within seven bytes of 4 GiB. */
    lemma SizeFits(path: Text)
      requires Valid() && Start(cwdCluster, path) in tree.dirs && vol.g.spc <= 128 && Contents(path).Some?
      ensures |Contents(path).value| <= 0xFFFF_FFF8
    {
      hide DirRep, IsChain, DirsRep, TreeOk, Walk, Sectors.Table, ClustersFor, Disjoint, Covered;
      var hit := Walk(tree, AtDir(Start(cwdCluster, path)), PathComps(path)).value;
      var h, content := tree.At(hit.dir, hit.name).head, tree.At(hit.dir, hit.name).content;
      NodeAt(tree, hit.dir, hit.name);
      if h != 0 {
        assert FileAt(tree, h) == Some(content);
        ChainShort(Sectors.Table(vol.g, vol.disk), chains[h]);
        ClustersForIsCeiling(|content|, vol.g.ClusterBytes());
        AreaBound(|chains[h]|, vol.g.ClusterBytes());
      }
    }

    /** lookup_file: whether there is a file at `path`, and its size. */
    method LookupFile(path: Text) returns (found: bool, size: nat)
      requires Valid() && Start(cwdCluster, path) in tree.dirs
      ensures found <==> Contents(path).Some?
      ensures found ==> size == |Contents(path).value| < 0x1_0000_0000
    {
      hide Rep, TreeOk, Walk, Trail;
      var ok, out, where, last;
      ghost var hit, i;
      ok, out, where, last, hit, i := ResolvePath(path, false);
      if !ok || IsDirEnt(out) {
        return false, 0;
      }
      return true, Size(out);
    }

    /** `path` leads to a file whose entry names the chain `s`, or no cluster at all. */
    ghost predicate ChainAt(path: Text, s: seq<nat>)
      requires Valid() && Start(cwdCluster, path) in tree.dirs
      reads this, vol
    {
      match Resolve(tree, cwdCluster, path)
      case Some(AtFile(d, n)) =>
        && tree.Has(d, n) && tree.At(d, n).File? && vol.Starts(tree.At(d, n).head, s)
        && (s == [] <==> tree.At(d, n).head == 0)
      case _ => false
    }

    /**
     * fat_read_file; `bufOk` and `streamOk` say whether the heap supplied the two
     * buffers. The bytes are those found along the chain, cluster by cluster and
     * sector by sector.
     */
    method ReadFile(path: Text, bufOk: bool, streamOk: bool) returns (r: Option<seq<Byte>>, ghost s: seq<nat>)
      requires Valid() && Start(cwdCluster, path) in tree.dirs
      ensures r == if bufOk && streamOk then Contents(path) else None
      ensures r.Some? ==> ChainAt(path, s) && DataOnDisk(vol.g, vol.disk, s, r.value)
    {
      hide Rep, TreeOk, Walk, Trail, DataOnDisk;
      s := [];
      var ok, out, where, last;
      ghost var hit, i;
      ok, out, where, last, hit, i := ResolvePath(path, false);
      if !ok || IsDirEnt(out) || !bufOk {
        return None, s;
      }
      s := FileFacts(hit.dir, hit.name, out);
      var done, data := vol.FileStream(Cluster(out), Size(out), streamOk, s);
      if !done {
        return None, s;
      }
      return Some(data), s;
    }

    // ---- writing -------------------------------------------------------------------------------

    /** loc_update: stores a directory entry at its place on disk. */
    method LocUpdate(where: Loc, e: Dirent, ghost cs: ChainMap, ghost p: nat, ghost i: nat)
      requires vol.Valid() && HasLbas(vol.g, cs, p) && i < |Entries(vol.g, vol.disk, cs, p)|
      requires where == Loc(EntryLba(vol.g, cs, p, i), 32 * (i % 16))
      modifies vol
      ensures vol.Valid() && vol.disk == Updated(vol.g, old(vol.disk), cs, p, i, e)
    {
      hide Mirrored;
      DirLbasOk(vol.g, vol.disk, cs, p);
      ghost var _ := UpdatedTables(vol.g, vol.disk, cs, p, i, e);
      SameTablesTable(vol.g, vol.disk, Updated(vol.g, vol.disk, cs, p, i, e));
      vol.disk := vol.disk[where.lba := Splice(vol.disk[where.lba], where.off, e)];
    }

    /** The directory and the ordinary name that `path` ends in. */
    ghost function ParentPlace(path: Text): (r: Option<(nat, Name)>)
      requires Valid() && Start(cwdCluster, path) in tree.dirs
      reads this, vol
    {
      match ResolveParent(tree, cwdCluster, path)
      case Some((AtDir(p), nm)) => if nm[0] == DOT || p !in tree.dirs then None else Some((p, nm))
      case _ => None
    }

    /** Where a write to `path` goes: an existing file, or a free name with a free slot. */
    ghost function Place(path: Text): Option<(nat, Name)>
      requires Valid() && Start(cwdCluster, path) in tree.dirs
      reads this, vol
    {
      match ParentPlace(path)
      case Some((p, nm)) =>
        if (if tree.Has(p, nm) then tree.At(p, nm).File? else FreeSlot(Table(p), 0).Some?) then Some((p, nm)) else None
      case None => None
    }

    /** What fat_write_file knows once it has settled on an entry to write. */
    ghost predicate Target(p: nat, nm: Name, d: Dirent, where: Loc, i: nat)
      requires Valid() && p in tree.dirs
      reads this, vol
    {
      && HasLbas(vol.g, chains, p) && i < 16 * |DirLbas(vol.g, chains, p)|
      && where == Loc(EntryLba(vol.g, chains, p, i), 32 * (i % 16)) && SlotFor(Table(p), nm, i)
      && InUse(d) && NameOf(d) == nm && !IsDirEnt(d)
      && (if tree.Has(p, nm) then NodeRep(d, tree.At(p, nm)) else Cluster(d) == 0)
    }

    /** The first checks of fat_write_file and fat_mkdir: the parent directory and the name. */
    method ParentTarget(path: Text) returns (ok: bool, p: nat, nm: Name)
      requires Valid() && Start(cwdCluster, path) in tree.dirs && PathOk(path)
      ensures TreeOk(tree) && ParentPlace(path) == if ok then Some((p, nm)) else None
      ensures ok ==> p in tree.dirs && nm[0] != DOT && nm[0] != 0 && nm[0] != DELETED
    {
      hide Rep, TreeOk, Walk, Trail;
      var out, where;
      ghost var hit, i;
      ok, out, where, nm, hit, i := ResolvePath(path, true);
      if !ok || !IsDirEnt(out) || nm[0] == DOT {
        return false, 0, nm;
      }
      p := Cluster(out);
      ParentFacts(path, hit, nm);
    }

    /** The checks of fat_write_file. */
    method WriteTarget(path: Text) returns (ok: bool, p: nat, nm: Name, d: Dirent, where: Loc, ghost i: nat)
      requires Valid() && Start(cwdCluster, path) in tree.dirs && PathOk(path)
      ensures TreeOk(tree) && Place(path) == if ok then Some((p, nm)) else None
      ensures ok ==> p in tree.dirs && Target(p, nm, d, where, i)
    {
      hide Rep, TreeOk, Find, FreeSlot, MakeEntry, InUse, ParentPlace, Target, AtEntry, DirRep, Scannable, EntriesIn,
        Entries, OutRep, StepName;
      d, where, i := EMPTY_ENTRY, Loc(0, 0), 0;
      ok, p, nm := ParentTarget(path);
      if !ok {
        return;
      }
      DirFacts(p);
      var found;
      found, d, where, i := DirFind(p, nm, where);
      if found {
        FoundTarget(p, nm, i, d, where);
        ok := !IsDirEnt(d);
      } else {
        NotFound(p, nm);
        ok, where, i := FindSlot(vol, p, chains);
        d := MakeEntry(nm, 0, 0, 0);
        if ok { SlotTarget(p, nm, i, where); }
      }
    }

    lemma FoundTarget(p: nat, nm: Name, i: nat, d: Dirent, where: Loc)
      requires Valid() && p in tree.dirs && AtEntry(p, nm, i, d, where)
      ensures tree.Has(p, nm) && (IsDirEnt(d) <==> tree.At(p, nm).Sub?)
      ensures !IsDirEnt(d) ==> Target(p, nm, d, where, i)
    {
      hide Rep, DirRep, Find;
      DirFacts(p);
    }

    lemma SlotTarget(p: nat, nm: Name, i: nat, where: Loc)
      requires Valid() && p in tree.dirs && !tree.Has(p, nm) && nm[0] != 0 && nm[0] != DELETED
      requires Find(Table(p), nm, 0) == None && FreeSlot(Table(p), 0) == Some(i) && HasLbas(vol.g, chains, p)
      requires where == Loc(EntryLba(vol.g, chains, p, i), 32 * (i % 16))
      ensures Target(p, nm, MakeEntry(nm, 0, 0, 0), where, i)
    {
      hide Rep, Find, FreeSlot, MakeEntry, InUse;
      FreshInUse(nm);
    }

    lemma ParentFacts(path: Text, hit: Hit, nm: Name)
      requires Valid() && Start(cwdCluster, path) in tree.dirs && PathOk(path)
      requires TreeOk(tree) && ResolveParent(tree, cwdCluster, path) == Some((hit, nm))
      ensures HitOk(tree, hit) && nm[0] != 0 && nm[0] != DELETED
    {
      hide Rep, TreeOk;
      var cs := PathComps(path);
      PathCompsOk(path);
      NameFirst(cs[|cs| - 1]);
    }

    lemma EntryInUse(p: nat, nm: Name, i: nat, d: Dirent, where: Loc)
      requires Valid() && p in tree.dirs && AtEntry(p, nm, i, d, where)
      ensures InUse(d) && NameOf(d) == nm && (IsDirEnt(d) <==> tree.At(p, nm).Sub?)
    {
    }

    lemma NotFound(p: nat, nm: Name)
      requires Valid() && p in tree.dirs && TreeOk(tree) && nm[0] != DOT && StepName(tree, p, nm) == None
      ensures Find(Table(p), nm, 0) == None && !tree.Has(p, nm)
    {
      hide Rep, DirRep, TreeOk;
      DirFacts(p);
      FindRep(Table(p), p, tree.dirs[p], nm);
    }

    /** Clusters available to a write to (p, nm): the free ones and those the old file gives up. */
    ghost function Room(p: nat, nm: Name): nat
      requires Valid()
      reads this, vol
    {
      CountFree(vol.Fat(), 2) + (if OldHead(tree, p, nm) in chains then |chains[OldHead(tree, p, nm)]| else 0)
    }

    /** The write to `path` will be carried out: it has a place, a buffer and enough clusters. */
    ghost predicate CanWrite(path: Text, size: nat, bufOk: bool)
      requires Valid() && Start(cwdCluster, path) in tree.dirs
      reads this, vol
    {
      match Place(path)
      case None => false
      case Some((p, nm)) => size == 0 || (bufOk && ClustersFor(size, vol.g.ClusterBytes()) <= Room(p, nm))
    }

    /** First cluster of the chain a write to `path` gives up first; 0 if there is none. */
    ghost function Replaced(path: Text): nat
      requires Valid() && Start(cwdCluster, path) in tree.dirs
      reads this, vol
    {
      match Place(path)
      case None => 0
      case Some((p, nm)) => OldHead(tree, p, nm)
    }

    /** A write to `path` gives up the chain of a non-empty file first. */
    ghost predicate Rewrites(path: Text)
      requires Valid() && Start(cwdCluster, path) in tree.dirs
      reads this, vol
    {
      Replaced(path) != 0
    }

    /** Before an overwrite the old chain is released. */
    method ReleaseOld(d: Dirent, ghost p: nat, ghost nm: Name)
      requires Valid() && p in tree.dirs
      requires if tree.Has(p, nm) then tree.At(p, nm).File? && NodeRep(d, tree.At(p, nm)) else Cluster(d) == 0
      modifies vol, this`chains
      ensures vol.Valid() && |vol.disk| == |old(vol.disk)| && Rep(vol.g, vol.disk, chains, tree, OldHead(tree, p, nm))
      ensures SameDirs(vol.g, old(vol.disk), old(chains), vol.disk, chains, tree)
      ensures CountFree(vol.Fat(), 2) == old(Room(p, nm))
      ensures OldHead(tree, p, nm) != 0 ==>
        OldHead(tree, p, nm) < |vol.Fat()| && vol.Fat()[OldHead(tree, p, nm)] == FREE
      ensures OldHead(tree, p, nm) == 0 ==> vol.disk == old(vol.disk) && chains == old(chains)
    {
      hide TreeOk, Sectors.Table, ChainsOk, DirsRep, FilesRep, AgreeOffTables, Released, CountFree, Mirrored, IsChain,
        Without, SameDirs, FileAt, LinksInRange, AllInData;
      ghost var h := OldHead(tree, p, nm);
      HeadFacts(tree, p, nm);
      RepSameDirs(vol.g, vol.disk, chains, tree);
      if Cluster(d) >= 2 {
        ghost var d0, fat0, s := vol.disk, vol.Fat(), chains[h];
        ReleaseHead(vol.g, vol.disk, vol.disk, chains, tree, h);
        HeadChain(vol.g, vol.disk, chains, h);
        DropChain(fat0, chains, h);
        CountReleased(fat0, s);
        vol.ChainFree(Cluster(d));
        ReleaseHead(vol.g, d0, vol.disk, chains, tree, h);
        ReleaseFile(vol.g, d0, vol.disk, chains, tree, h);
        chains := chains - {h};
      }
    }

    /** chain_write in a represented volume: a new chain that no entry names yet, or no change. */
    method StoreData(data: seq<Byte>, bufOk: bool, ghost skip: nat) returns (first: nat)
      requires vol.Valid() && Rep(vol.g, vol.disk, chains, tree, skip) && |data| < 0x1_0000_0000
      modifies vol, this`chains
      ensures vol.Valid() && |vol.disk| == |old(vol.disk)| && first <= vol.g.maxCluster
      ensures first != 0 <==>
        data != [] && bufOk && ClustersFor(|data|, vol.g.ClusterBytes()) <= CountFree(old(vol.Fat()), 2)
      ensures SameDirs(vol.g, old(vol.disk), old(chains), vol.disk, chains, tree)
      ensures first == 0 ==> chains == old(chains) && vol.Fat() == old(vol.Fat())
      ensures Pending(vol.g, vol.disk, chains, tree, skip, first)
      ensures first != 0 ==> FileRep(vol.g, vol.disk, chains, first, data)
    {
      hide TreeOk, Sectors.Table, DirsRep, FilesRep, CountFree, Mirrored, AllChains, Disjoint, Covered, TableOk,
        LinksInRange, AgreeOff, Built, AllInData, Holds, FreeClusters, SameDirs, ClustersFor, FileRep;
      ghost var d0, fat0 := vol.disk, vol.Fat();
      ChainsLinksInRange(fat0, chains);
      ghost var s;
      first, s := vol.ChainWrite(data, bufOk);
      if first == 0 {
        AddNothing(vol.g, d0, vol.disk, chains, tree, skip);
        RepPending(vol.g, vol.disk, chains, tree, skip);
      } else {
        BuiltHead(fat0, vol.Fat(), s);
        AddData(vol.g, d0, vol.disk, chains, tree, skip, s);
        chains := chains[first := s];
        NewFileRep(vol.g, vol.disk, chains, s, data);
      }
    }

    /** The last step of fat_write_file: the entry is pointed at the new data. */
    method CommitFile(p: nat, nm: Name, d: Dirent, where: Loc, first: nat, data: seq<Byte>, ghost i: nat)
      requires vol.Valid() && Pending(vol.g, vol.disk, chains, tree, OldHead(tree, p, nm), first) && first < 0x10000
      requires p in tree.dirs && nm[0] != DOT && (tree.Has(p, nm) ==> tree.At(p, nm).File?)
      requires |data| < 0x1_0000_0000 && (first == 0 <==> data == [])
      requires first != 0 ==> FileRep(vol.g, vol.disk, chains, first, data)
      requires InUse(d) && NameOf(d) == nm && !IsDirEnt(d)
      requires HasLbas(vol.g, chains, p) && SlotFor(Entries(vol.g, vol.disk, chains, p), nm, i)
      requires i < 16 * |DirLbas(vol.g, chains, p)| && where == Loc(EntryLba(vol.g, chains, p, i), 32 * (i % 16))
      modifies vol, this`tree
      ensures Valid() && CanPut(old(tree), p, nm, first, data) && tree == PutFile(old(tree), p, nm, first, data)
      ensures RepointedAt(vol.disk, where, d, first, |data|)
    {
      hide Rep, Pending, TreeOk, Sectors.Table, FileRep, Entries, EntryLba, DirLbas, SlotFor, WithData, CanPut, PutFile,
        Mirrored, Updated;
      var e := WithData(d, first, |data|);
      WithDataFits(d, nm, first, data);
      PendingCanPut(vol.g, vol.disk, chains, tree, p, nm, first, data);
      PutStep(vol.g, vol.disk, chains, tree, p, nm, first, data, i, e);
      EntryInDisk(vol.g, vol.disk, chains, p, i, e);
      LocUpdate(where, e, chains, p, i);
      WithDataBytes(d, first, |data|);
      tree := PutFile(tree, p, nm, first, data);
    }

    /** fat_write_file behind its checks: release, store, commit. */
    method WriteAt(p: nat, nm: Name, d: Dirent, where: Loc, data: seq<Byte>, bufOk: bool, ghost i: nat)
      returns (ok: bool, lost: bool, ghost h: nat)
      requires Valid() && p in tree.dirs && nm[0] != DOT && (tree.Has(p, nm) ==> tree.At(p, nm).File?)
      requires Target(p, nm, d, where, i) && |data| < 0x1_0000_0000
      modifies vol, this`chains, this`tree
      ensures ok <==> data == [] || (bufOk && ClustersFor(|data|, vol.g.ClusterBytes()) <= old(Room(p, nm)))
      ensures Valid() <==> !lost
      ensures lost <==> !ok && OldHead(old(tree), p, nm) != 0
      ensures lost ==> vol.Valid() && NoTree(vol.g, vol.disk)
      ensures lost ==> Rep(vol.g, vol.disk, chains, tree, OldHead(tree, p, nm))
      ensures ok ==> CanPut(old(tree), p, nm, h, data) && tree == PutFile(old(tree), p, nm, h, data)
      ensures !ok ==> tree == old(tree)
      ensures !ok && Valid() ==> vol.Fat() == old(vol.Fat())
    {
      hide Rep, TreeOk, Sectors.Table, CountFree, Mirrored, SameDirs, FileRep, ClustersFor, CanPut, PutFile, Pending,
        Entries, DirLbas, EntryLba, SlotFor, Room;
      ghost var gone, d0, c0 := OldHead(tree, p, nm), vol.disk, chains;
      assert TreeOk(tree) by { DirFacts(p); }
      HeadFacts(tree, p, nm);
      ReleaseOld(d, p, nm);
      ghost var d1, c1 := vol.disk, chains;
      var first := StoreData(data, bufOk, gone);
      if data != [] && first == 0 {
        WriteFailed(gone);
        return false, Cluster(d) >= 2, 0;
      }
      SameDirsTrans(vol.g, d0, c0, d1, c1, vol.disk, chains, tree, p, i);
      CommitFile(p, nm, d, where, first, data, i);
      return true, false, first;
    }

    /**
     * fat_write_file. A refused creation leaves everything as it was. When the
     * rewrite of a non-empty file finds too little room, its entry is left naming
     * released clusters: exactly then no tree at all is represented any more, while
     * every directory and every other file is still in place.
     */
    method WriteFile(path: Text, data: seq<Byte>, bufOk: bool) returns (ok: bool, lost: bool, ghost h: nat)
      requires Valid() && Start(cwdCluster, path) in tree.dirs && PathOk(path) && |data| < 0x1_0000_0000
      modifies vol, this`chains, this`tree
      ensures ok <==> old(CanWrite(path, |data|, bufOk))
      ensures lost <==> !ok && old(Rewrites(path))
      ensures Valid() <==> !lost
      ensures lost ==> vol.Valid() && NoTree(vol.g, vol.disk)
      ensures lost ==> Rep(vol.g, vol.disk, chains, tree, old(Replaced(path)))
      ensures ok ==> Written(old(tree), old(Place(path)), h, data, tree)
      ensures ok ==> Start(cwdCluster, path) in tree.dirs && Contents(path) == Some(data)
      ensures !ok ==> tree == old(tree)
      ensures !ok && Valid() ==> vol.Fat() == old(vol.Fat())
    {
      hide Rep, TreeOk, Sectors.Table, CountFree, Mirrored, ClustersFor, Target, Place, Walk, CanPut, PutFile, Room;
      var p, nm, d, where;
      ghost var i;
      lost, h := false, 0;
      ok, p, nm, d, where, i := WriteTarget(path);
      if !ok {
        return;
      }
      ghost var t0 := tree;
      PlaceFacts(path, p, nm);
      ok, lost, h := WriteAt(p, nm, d, where, data, bufOk, i);
      if ok {
        WriteThenRead(t0, AtDir(Start(cwdCluster, path)), PathComps(path), p, nm, h, data);
      }
    }

    lemma PlaceFacts(path: Text, p: nat, nm: Name)
      requires Valid() && Start(cwdCluster, path) in tree.dirs && Place(path) == Some((p, nm))
      ensures p in tree.dirs && nm[0] != DOT && ResolveParent(tree, cwdCluster, path) == Some((AtDir(p), nm))
      ensures tree.Has(p, nm) ==> tree.At(p, nm).File?
    {
      hide Rep, TreeOk, Walk;
    }

    /** After a failed rewrite the entry still names `h`, whose chain is gone. */
    lemma WriteFailed(h: nat)
      requires vol.Valid() && Pending(vol.g, vol.disk, chains, tree, h, 0)
      requires h != 0 ==> h in tree.home && h < |vol.Fat()| && vol.Fat()[h] == FREE
      ensures Rep(vol.g, vol.disk, chains, tree, h)
      ensures Valid() <==> h == 0
      ensures h != 0 ==> NoTree(vol.g, vol.disk)
    {
      hide TreeOk, DirsRep, FilesRep, ChainsOk;
      if h != 0 {
        forall cs: ChainMap, t: Tree ensures !Rep(vol.g, vol.disk, cs, t, 0) {
          NoTreeLeft(vol.g, vol.disk, chains, tree, h, cs, t);
        }
      }
    }

    // ---- removing -------------------------------------------------------------------------------

    /** The entry fat_rm(path) removes: an ordinary name that leads to a file or an empty directory. */
    ghost function Doomed(path: Text): Option<(nat, Name)>
      requires Valid() && Start(cwdCluster, path) in tree.dirs
      reads this, vol
    {
      match LastEntry(tree, AtDir(Start(cwdCluster, path)), PathComps(path))
      case Some((d, n)) => if CanRemove(tree, d, n) then Some((d, n)) else None
      case None => None
    }

    lemma TrailTells(path: Text, hit: Hit, out: Dirent, where: Loc, i: nat)
      requires Valid() && Start(cwdCluster, path) in tree.dirs && TreeOk(tree)
      requires Resolve(tree, cwdCluster, path) == Some(hit) && OutRep(tree, out, hit)
      requires Trail(AtDir(Start(cwdCluster, path)), PathComps(path), hit, out, where, i)
      ensures where.lba == 0 || out[0] == DOT ==> Doomed(path) == None
      ensures match LastEntry(tree, AtDir(Start(cwdCluster, path)), PathComps(path))
        case Some((d, n)) => d in tree.dirs && AtEntry(d, n, i, out, where)
        case None => where.lba != 0 && out[0] != DOT ==> hit == AtDir(0) && tree.dirs[0].entries != map[]
    {
      hide Rep, TreeOk, Walk, Resolve;
      match LastEntry(tree, AtDir(Start(cwdCluster, path)), PathComps(path))
      case Some((d, n)) =>
        EntryInUse(d, n, i, out, where);
        assert out[0] == NameOf(out)[0];
        LastIsOrdinary(tree, AtDir(Start(cwdCluster, path)), PathComps(path));
        LbaPositive(d, i);
      case None =>
    }

    lemma LbaPositive(d: nat, i: nat)
      requires Valid() && d in tree.dirs && i < |Table(d)|
      ensures EntryLba(vol.g, chains, d, i) > 0
    {
      hide DirRep, TreeOk, FilesRep, ChainsOk, ChainLbas;
      if d != 0 { ChainLbasIn(vol.g, |vol.disk|, chains[d], i / 16); }
    }

    /** The checks of fat_rm; `i` is the slot of the entry to remove. */
    method RemoveTarget(path: Text) returns (ok: bool, out: Dirent, where: Loc, ghost i: nat)
      requires Valid() && Start(cwdCluster, path) in tree.dirs
      ensures TreeOk(tree) && (ok <==> Doomed(path).Some?)
      ensures ok ==>
        Doomed(path).value.0 in tree.dirs && AtEntry(Doomed(path).value.0, Doomed(path).value.1, i, out, where)
    {
      hide Rep, TreeOk, Walk, Trail, AtEntry, LastEntry;
      var last;
      ghost var hit;
      ok, out, where, last, hit, i := ResolvePath(path, false);
      if !ok {
        if LastEntry(tree, AtDir(Start(cwdCluster, path)), PathComps(path)).Some? {
          LastNeedsWalk(tree, AtDir(Start(cwdCluster, path)), PathComps(path));
        }
        return;
      }
      TrailTells(path, hit, out, where, i);
      if where.lba == 0 || out[0] == DOT {
        return false, out, where, i;
      }
      assert HitOk(tree, hit);
      TargetKind(path, hit, out, where, i);
      if IsDirEnt(out) {
        DirFacts(hit.id);
        OccupiedRep(Table(hit.id), hit.id, tree.dirs[hit.id]);
        var busy := HasChildren(vol, Cluster(out), chains);
        if busy {
          return false, out, where, i;
        }
      }
    }

    /** What the entry found tells about removability. */
    lemma TargetKind(path: Text, hit: Hit, out: Dirent, where: Loc, i: nat)
      requires Valid() && Start(cwdCluster, path) in tree.dirs && TreeOk(tree)
      requires HitOk(tree, hit) && OutRep(tree, out, hit) && Resolve(tree, cwdCluster, path) == Some(hit)
      requires match LastEntry(tree, AtDir(Start(cwdCluster, path)), PathComps(path))
        case Some((d, n)) => d in tree.dirs && AtEntry(d, n, i, out, where)
        case None => hit == AtDir(0) && tree.dirs[0].entries != map[]
      ensures IsDirEnt(out) <==> hit.AtDir?
      ensures Doomed(path).Some? <==> hit.AtFile? || tree.dirs[hit.id].entries == map[]
      ensures Doomed(path).Some? ==> Doomed(path) == LastEntry(tree, AtDir(Start(cwdCluster, path)), PathComps(path))
    {
      hide Rep, TreeOk, Walk, AtEntry, LastEntry;
      match LastEntry(tree, AtDir(Start(cwdCluster, path)), PathComps(path))
      case Some((d, n)) =>
        LastIsHit(tree, AtDir(Start(cwdCluster, path)), PathComps(path), hit);
      case None =>
    }

    /** fat_rm: removes a file or an empty directory, or refuses and changes nothing. */
    method Rm(path: Text) returns (ok: bool)
      requires Valid() && Start(cwdCluster, path) in tree.dirs
      modifies vol, this`chains, this`tree
      ensures Valid() && (ok <==> old(Doomed(path)).Some?)
      ensures ok ==> Removed(old(tree), old(Doomed(path)), tree)
      ensures ok && old(Doomed(path)).value.0 == 0 ==> AgreeData(vol.g, old(vol.disk), vol.disk, {})
      ensures ok ==> exists l: nat, o: nat :: Struck(vol.g, old(vol.disk), vol.disk, l, o)
      ensures !ok ==> vol.disk == old(vol.disk) && tree == old(tree) && chains == old(chains)
    {
      hide Rep, TreeOk, Doomed, AtEntry, Remove, CanRemove, Without, AgreeData, Struck;
      var out, where;
      ghost var i;
      ok, out, where, i := RemoveTarget(path);
      if !ok {
        return;
      }
      ghost var d, n := Doomed(path).value.0, Doomed(path).value.1;
      DoomedFacts(path, d, n);
      RemoveAt(d, n, out, where, i);
    }

    lemma DoomedFacts(path: Text, d: nat, n: Name)
      requires Valid() && Start(cwdCluster, path) in tree.dirs && Doomed(path) == Some((d, n))
      ensures CanRemove(tree, d, n)
    {
    }

    /** fat_rm behind its checks. */
    method RemoveAt(ghost d: nat, ghost n: Name, out: Dirent, where: Loc, ghost i: nat)
      requires Valid() && d in tree.dirs && CanRemove(tree, d, n) && AtEntry(d, n, i, out, where)
      modifies vol, this`chains, this`tree
      ensures Valid() && tree == Remove(old(tree), d, n)
      ensures d == 0 ==> AgreeData(vol.g, old(vol.disk), vol.disk, {})
      ensures Struck(vol.g, old(vol.disk), vol.disk, where.lba, where.off)
    {
      hide Rep, TreeOk, Sectors.Table, Mirrored, Remove, CanRemove, Without, Entries, EntryLba, DirLbas, Find;
      hide Released, AgreeOffTables, AgreeData, Struck;
      ghost var h, d0, c0 := tree.At(d, n).Head(), vol.disk, chains;
      EntryFacts(d, n, i, out, where);
      if Cluster(out) >= 2 {
        ReleaseHeadOf(h);
        vol.ChainFree(Cluster(out));
        ReleaseHead(vol.g, d0, vol.disk, c0, tree, h);
      }
      var e: Dirent := out[0 := DELETED];
      RemoveStep(vol.g, d0, vol.disk, c0, tree, d, n, i, e);
      SameLba(vol.g, c0, d, h, i);
      WithoutEntries(vol.g, d0, vol.disk, c0, tree, h, d);
      StrikesOne(vol.g, d0, vol.disk, c0 - {h}, d, i, out);
      if d == 0 { RootRewrite(vol.g, d0, vol.disk, c0 - {h}, i, e); }
      LocUpdate(where, e, c0 - {h}, d, i);
      chains, tree := c0 - {h}, Remove(tree, d, n);
    }

    lemma ReleaseHeadOf(h: nat)
      requires Valid() && h in chains
      ensures Continues(h) && h <= vol.g.maxCluster && LinksInRange(vol.Fat())
    {
      hide TreeOk, DirsRep, FilesRep;
      ReleaseHead(vol.g, vol.disk, vol.disk, chains, tree, h);
    }

    lemma EntryFacts(d: nat, n: Name, i: nat, out: Dirent, where: Loc)
      requires Valid() && d in tree.dirs && CanRemove(tree, d, n) && AtEntry(d, n, i, out, where)
      ensures HasLbas(vol.g, chains, d) && Find(Entries(vol.g, vol.disk, chains, d), n, 0) == Some(i)
      ensures i < |Entries(vol.g, vol.disk, chains, d)| && out == Entries(vol.g, vol.disk, chains, d)[i]
      ensures where == Loc(EntryLba(vol.g, chains, d, i), 32 * (i % 16))
      ensures Cluster(out) == tree.At(d, n).Head()
      ensures (Cluster(out) != 0 ==> Cluster(out) >= 2 && Cluster(out) in chains)
      ensures Cluster(out) == 0 ==> Without(vol.g, vol.disk, vol.disk, chains, tree, 0)
      ensures tree.At(d, n).Head() == d ==> d == 0
    {
      hide TreeOk, DirRep, Rep, Without, Find, Entries, EntryLba, CanRemove, Scannable;
      DirFacts(d);
      HeadPart(vol.g, vol.disk, chains, tree, d, n);
    }

    // ---- creating a directory ------------------------------------------------------------------------

    /** Where fat_mkdir(path) puts its entry: a free name with a free slot. */
    ghost function DirPlace(path: Text): Option<(nat, Name)>
      requires Valid() && Start(cwdCluster, path) in tree.dirs
      reads this, vol
    {
      match ParentPlace(path)
      case Some((p, nm)) => if tree.Has(p, nm) || FreeSlot(Table(p), 0).None? then None else Some((p, nm))
      case None => None
    }

    /** The checks of fat_mkdir. */
    method MakeTarget(path: Text) returns (ok: bool, p: nat, nm: Name, where: Loc, ghost i: nat)
      requires Valid() && Start(cwdCluster, path) in tree.dirs && PathOk(path)
      ensures TreeOk(tree) && DirPlace(path) == if ok then Some((p, nm)) else None
      ensures ok ==> p in tree.dirs && Target(p, nm, MakeEntry(nm, 0, 0, 0), where, i)
      ensures ok ==> ResolveParent(tree, cwdCluster, path) == Some((AtDir(p), nm)) && nm[0] != DOT && !tree.Has(p, nm)
    {
      hide Rep, TreeOk, Find, FreeSlot, MakeEntry, InUse, Walk, Target, AtEntry, DirRep, Scannable, EntriesIn, Entries,
        OutRep, StepName;
      where, i := Loc(0, 0), 0;
      ok, p, nm := ParentTarget(path);
      if !ok {
        return;
      }
      var found, d;
      DirFacts(p);
      found, d, where, i := DirFind(p, nm, where);
      if found {
        FoundTarget(p, nm, i, d, where);
        return false, p, nm, where, i;
      }
      NotFound(p, nm);
      ok, where, i := FindSlot(vol, p, chains);
      if ok { SlotTarget(p, nm, i, where); }
    }

    /** Writes an empty directory with parent `p` to a freshly allocated cluster. */
    method FormatCluster(c: nat, p: nat)
      requires vol.Valid() && vol.g.InData(c) && p < 0x10000
      modifies vol
      ensures vol.Valid() && vol.Fat() == old(vol.Fat()) && |vol.disk| == |old(vol.disk)|
      ensures FreshCluster(vol.g, vol.disk, c, p) && AgreeOff(vol.g, old(vol.disk), vol.disk, {c})
    {
      hide Mirrored, Sectors.Table, ClusterSectors, AgreeOff, DotSector;
      vol.ClusterZero(c);
      ghost var d1 := vol.disk;
      vol.WriteInCluster(c, 0, DotSector(c, p));
      AgreeTrans(vol.g, old(vol.disk), d1, vol.disk, {c}, {c});
      ghost var ss := ClusterSectors(vol.g, vol.disk, c);
      ghost var goal := [DotSector(c, p)] + seq(vol.g.spc - 1, _ => ZERO_SECTOR);
      assert forall j :: 0 <= j < vol.g.spc ==> ss[j] == goal[j];
    }

    /** Allocates a cluster and formats it as an empty directory with parent `p`. */
    method TakeCluster(p: nat) returns (c: nat)
      requires Valid() && p < 0x10000
      modifies vol
      ensures vol.Valid() && |vol.disk| == |old(vol.disk)|
      ensures (c == 0 <==> CountFree(old(vol.Fat()), 2) == 0) && (c == 0 ==> vol.disk == old(vol.disk))
      ensures c != 0 ==> vol.g.InData(c) && FreshCluster(vol.g, vol.disk, c, p)
      ensures c != 0 ==> Built(old(vol.Fat()), vol.Fat(), [c])
      ensures c != 0 ==> AgreeOff(vol.g, old(vol.disk), vol.disk, FreeClusters(old(vol.Fat())))
    {
      hide Rep, TreeOk, Sectors.Table, CountFree, Mirrored, LinksInRange, AgreeOff, AgreeOffTables, Built, FreeClusters;
      hide FreshCluster;
      ghost var d0, fat0 := vol.disk, vol.Fat();
      assert LinksInRange(fat0) && vol.g.Valid(|d0|) by { RepLinks(vol.g, d0, chains, tree); }
      BuiltBegin(vol.g, d0);
      c := vol.ClusterAlloc();
      if c == 0 {
        return;
      }
      assert [] + [c] == [c];
      BuiltExtend(fat0, fat0, [], c);
      BuiltFacts(fat0, Extended(fat0, [], c), [c]);
      ghost var d1 := vol.disk;
      TablesAgree(vol.g, d0, d1);
      FormatCluster(c, p);
      AgreeStep(vol.g, d0, d0, d1, d1, vol.disk, FreeClusters(fat0), c);
    }

    /** The same for a directory of the tree: pending, named by no entry yet. */
    method NewDirCluster(p: nat) returns (c: nat)
      requires Valid() && p in tree.dirs
      modifies vol, this`chains
      ensures vol.Valid() && |vol.disk| == |old(vol.disk)| && p < 0x10000
      ensures (c == 0 <==> CountFree(old(vol.Fat()), 2) == 0)
      ensures c == 0 ==> vol.disk == old(vol.disk) && chains == old(chains)
      ensures c != 0 ==>
        vol.g.InData(c) && Pending(vol.g, vol.disk, chains, tree, 0, c) && FreshCluster(vol.g, vol.disk, c, p)
      ensures c != 0 ==>
        SameDirs(vol.g, old(vol.disk), old(chains), vol.disk, chains, tree) && c in chains && chains[c] == [c]
    {
      hide Rep, Pending, TreeOk, Sectors.Table, CountFree, Mirrored, AgreeOff, Built, FreeClusters, SameDirs;
      hide FreshCluster, Entries;
      DirFacts(p);
      ghost var d0 := vol.disk;
      c := TakeCluster(p);
      if c == 0 {
        return;
      }
      AddData(vol.g, d0, vol.disk, chains, tree, 0, [c]);
      chains := chains[c := [c]];
    }

    /** fat_mkdir: creates an empty directory, or refuses and changes nothing. */
    method Mkdir(path: Text) returns (ok: bool, ghost c: nat)
      requires Valid() && Start(cwdCluster, path) in tree.dirs && PathOk(path)
      modifies vol, this`chains, this`tree
      ensures Valid() && (ok <==> old(DirPlace(path)).Some? && CountFree(old(vol.Fat()), 2) > 0)
      ensures ok ==> Made(old(tree), old(DirPlace(path)), c, tree)
      ensures ok && old(DirPlace(path)).value.0 == 0 ==> vol.g.InData(c) && FreshCluster(vol.g, vol.disk, c, 0)
      ensures ok ==> Start(cwdCluster, path) in tree.dirs && Resolve(tree, cwdCluster, path) == Some(AtDir(c))
      ensures !ok ==> vol.disk == old(vol.disk) && tree == old(tree) && chains == old(chains)
    {
      hide Rep, TreeOk, Sectors.Table, CountFree, Mirrored, Pending, SameDirs, FreshCluster, DirPlace, Target, Walk,
        CanMake, MakeDir, Entries, MakeEntry;
      var p, nm, where;
      ghost var i;
      c := 0;
      ok, p, nm, where, i := MakeTarget(path);
      if !ok {
        return;
      }
      ghost var t0 := tree;
      var cluster := MakeAt(p, nm, where, i);
      if cluster == 0 {
        return false, 0;
      }
      MakeThenFind(t0, AtDir(Start(cwdCluster, path)), PathComps(path), p, nm, cluster);
      return true, cluster;
    }

    /** fat_mkdir behind its checks. */
    method MakeAt(p: nat, nm: Name, where: Loc, ghost i: nat) returns (c: nat)
      requires Valid() && p in tree.dirs && nm[0] != DOT && !tree.Has(p, nm)
      requires Target(p, nm, MakeEntry(nm, 0, 0, 0), where, i)
      modifies vol, this`chains, this`tree
      ensures Valid() && (c == 0 <==> CountFree(old(vol.Fat()), 2) == 0)
      ensures c == 0 ==> vol.disk == old(vol.disk) && tree == old(tree) && chains == old(chains)
      ensures c != 0 ==> CanMake(old(tree), p, nm, c) && tree == MakeDir(old(tree), p, nm, c)
      ensures c != 0 && p == 0 ==> vol.g.InData(c) && FreshCluster(vol.g, vol.disk, c, 0)
    {
      hide Rep, TreeOk, Sectors.Table, CountFree, Mirrored, Pending, SameDirs, FreshCluster, CanMake, MakeDir, Entries,
        DirLbas, EntryLba, SlotFor, Updated, MakeEntry;
      ghost var d0, c0 := vol.disk, chains;
      SelfSame(p);
      c := NewDirCluster(p);
      if c == 0 {
        return;
      }
      SameDirsTrans(vol.g, d0, c0, d0, c0, vol.disk, chains, tree, p, i);
      var e := MakeEntry(nm, ATTR_DIR, c, 0);
      DirEntryFits(MakeEntry(nm, 0, 0, 0), nm, c);
      PendingCanMake(vol.g, vol.disk, chains, tree, p, nm, c);
      MakeStep(vol.g, vol.disk, chains, tree, p, nm, c, i, e);
      if p == 0 { RootFresh(vol.g, vol.disk, chains, i, e, c); }
      LocUpdate(where, e, chains, p, i);
      tree := MakeDir(tree, p, nm, c);
    }

    lemma SelfSame(p: nat)
      requires Valid() && p in tree.dirs
      ensures SameDirs(vol.g, vol.disk, chains, vol.disk, chains, tree)
    {
      hide DirRep, TreeOk, ChainsOk, FilesRep;
    }

    // ---- creating a directory in a current directory that is gone ------------------------------------

    /** What a removed current directory has left in its cluster. */
    ghost function LeftOver(): seq<Dirent>
      requires vol.Valid() && vol.g.InData(cwdCluster)
      reads this, vol
    {
      Entries(vol.g, vol.disk, map[cwdCluster := [cwdCluster]], cwdCluster)
    }

    /** The current directory has been removed: its cluster is free, and still reads as a directory. */
    ghost predicate CwdGone()
      reads this, vol
    {
      && vol.Valid() && vol.g.InData(cwdCluster) && cwdCluster < |vol.Fat()| && vol.Fat()[cwdCluster] == FREE
      && HasEnd(LeftOver())
    }

    lemma GoneScannable()
      requires CwdGone()
      ensures Scannable(vol, map[cwdCluster := [cwdCluster]], cwdCluster)
      ensures Linked(vol, map[cwdCluster := [cwdCluster]], cwdCluster)
      ensures EntriesIn(vol, map[cwdCluster := [cwdCluster]], cwdCluster) == LeftOver() && FreeSlot(LeftOver(), 0).Some?
    {
      hide Entries, Mirrored;
    }

    /**
     * fat_mkdir of a single name there: it finds a slot in the left-over sectors and
     * takes a free cluster, possibly the one it stands in. Whenever it succeeds, the
     * cluster taken is in use and out of reach: the disk represents no tree any more.
     */
    method MkdirGone(path: Text) returns (ok: bool)
      requires Valid() && CwdGone() && Plain(path)
      modifies vol
      ensures vol.Valid()
      ensures ok <==> old(match Name83(path)
                          case None => false
                          case Some(nm) => nm[0] != DOT && Find(LeftOver(), nm, 0) == None)
      ensures ok ==> NoTree(vol.g, vol.disk)
      ensures !ok ==> vol.disk == old(vol.disk)
    {
      hide Rep, TreeOk, Sectors.Table, CountFree, Mirrored, Entries, Scannable, Linked, NoTree, AgreeOff, Pending,
        Built;
      hide Comps, Updated, EntryLba, HasEnd, Find, FreeSlot, MakeEntry, FreshCluster;
      ghost var d0, fat0, cs := vol.disk, vol.Fat(), map[cwdCluster := [cwdCluster]];
      GoneScannable();
      CompsOne(path);
      assert path[0..] == path;
      var c, name83, next := NextComponent(path, 0);
      assert [path] == [c] + Comps(path[next..]);
      assert c == [path][0];
      if name83 == None || name83.value[0] == DOT {
        return false;
      }
      var nm := name83.value;
      var found, e, where;
      ghost var i;
      found, e, where, i := FindEntry(vol, cwdCluster, nm, cs);
      if found {
        return false;
      }
      ok, where, i := FindSlot(vol, cwdCluster, cs);
      CountZero(fat0, 2);
      var cluster := TakeCluster(cwdCluster);
      ghost var d1 := vol.disk;
      var entry := MakeEntry(nm, ATTR_DIR, cluster, 0);
      LocUpdate(where, entry, cs, cwdCluster, i);
      ghost var x := UpdatedTables(vol.g, d1, cs, cwdCluster, i, entry);
      Stranded(d0, d1, x, cluster);
    }

    /** The disk after the calls of MkdirGone. */
    lemma Stranded(d0: seq<Sector>, d1: seq<Sector>, x: nat, c: nat)
      requires Rep(vol.g, d0, chains, tree, 0) && vol.g.Valid(|d0|) && vol.g.Valid(|vol.disk|)
      requires x in FreeClusters(Sectors.Table(vol.g, d0)) && c != 0
      requires AgreeOff(vol.g, d0, d1, FreeClusters(Sectors.Table(vol.g, d0))) && AgreeOff(vol.g, d1, vol.disk, {x})
      requires Built(Sectors.Table(vol.g, d0), Sectors.Table(vol.g, vol.disk), [c])
      ensures NoTree(vol.g, vol.disk)
    {
      hide Rep, Pending, Sectors.Table, AgreeOff, Built, FreeClusters, SameDirs;
      AgreeTrans(vol.g, d0, d1, vol.disk, FreeClusters(Sectors.Table(vol.g, d0)), {x});
      AddData(vol.g, d0, vol.disk, chains, tree, 0, [c]);
      forall cs: ChainMap, t: Tree ensures !Rep(vol.g, vol.disk, cs, t, 0) {
        NoTreeBeside(vol.g, vol.disk, chains[c := [c]], tree, c, cs, t);
      }
    }

    // ---- cd ----------------------------------------------------------------------------------------

    /** The text of the current directory is that of the path `cwdComps`. */
    ghost predicate CwdOk()
      reads this`cwdPath, this`cwdComps
    {
      && AllPlain(cwdComps) && AllPathOk(cwdComps) && AllCapital(cwdComps)
      && cwdPath == TextOf(cwdComps) && |cwdPath| <= 127
    }

    /** cwd_apply stays inside its 128-byte buffer; the text it begins with does anyway. */
    ghost predicate CwdFits(path: Text)
      reads this`cwdComps
    {
      Highest(CwdStart(cwdComps, path), CwdComps(path)) < 128
    }

    /** fat_cd: moves both forms of the current directory; see CdAgrees for when they stay together. */
    method Cd(path: Text) returns (ok: bool)
      requires Valid() && Start(cwdCluster, path) in tree.dirs && CwdOk() && CwdFits(path) && PathOk(path)
      modifies this`cwdCluster, this`cwdPath, this`cwdComps
      ensures Valid() && TreeOk(tree) && CwdOk()
      ensures ok <==> match old(Resolve(tree, cwdCluster, path)) { case Some(AtDir(d)) => true case _ => false }
      ensures ok ==> old(Resolve(tree, cwdCluster, path)) == Some(AtDir(cwdCluster)) && cwdCluster in tree.dirs
      ensures ok ==> cwdComps == NextCwd(old(cwdComps), path)
      ensures cwdPath == Render(cwdComps) <==> |Render(cwdComps)| <= 126
      ensures ok && LeadsTo(tree, old(cwdComps), old(cwdCluster)) ==>
        (LeadsTo(tree, cwdComps, cwdCluster) <==> !DoubleSlash(path) || DropsBelow(CwdComps(path), 0))
      ensures !ok ==> cwdCluster == old(cwdCluster) && cwdPath == old(cwdPath) && cwdComps == old(cwdComps)
    {
      hide Rep, TreeOk, Walk, Trail, LeadsTo, NextCwd, TextOf, AllPathOk, AllCapital, Highest, Render;
      TextExact(cwdComps);
      var out, where, last;
      ghost var hit, i;
      ok, out, where, last, hit, i := ResolvePath(path, false);
      if !ok || !IsDirEnt(out) {
        return false;
      }
      assert HitOk(tree, hit);
      if LeadsTo(tree, cwdComps, cwdCluster) {
        CdAgrees(tree, cwdComps, cwdCluster, path, hit.id);
      }
      var text;
      ghost var top;
      text, top := CwdApply(cwdPath, cwdComps, path);
      TextRoot();
      NextPathOk(cwdComps, path);
      NextCapital(cwdComps, path);
      TextExact(NextCwd(cwdComps, path));
      cwdCluster, cwdPath, cwdComps := Cluster(out), text, NextCwd(cwdComps, path);
    }

    /** `out` is entry `i` of directory `d`, the one named `nm`, and `where` its place on disk. */
    ghost predicate AtEntry(d: nat, nm: Name, i: nat, out: Dirent, where: Loc)
      requires Valid() && d in tree.dirs
      reads this, vol
    {
      && Find(Table(d), nm, 0) == Some(i) && out == Table(d)[i]
      && where == Loc(EntryLba(vol.g, chains, d, i), 32 * (i % 16))
      && tree.Has(d, nm) && NodeRep(out, tree.At(d, nm))
    }
  }

  lemma RootDots(t: Tree, nm: Name)
    requires 0 in t.dirs && nm[0] == DOT
    ensures StepName(t, 0, nm) == Some(AtDir(0)) && OutRep(t, SynthDir(0), AtDir(0))
  {
  }

  /** The component at `pos`, its name, and where the next one starts. */
  method NextComponent(path: Text, pos: nat) returns (c: Text, name83: Option<Name>, next: nat)
    requires pos < |path|
    ensures pos < next <= |path| && Comps(path[pos..]) == [c] + Comps(path[next..]) && name83 == Name83(c)
    ensures next == |path| <==> Comps(path[next..]) == []
  {
    hide Name83, Comps, IndexOf, SkipSlashes;
    ghost var rest := path[pos..];
    CompsStep(rest);
    var len := ScanComponent(path, pos);
    c := path[pos..pos + len];
    assert c == rest[..len] && rest[len..] == path[pos + len..];
    name83 := To83(c);
    next := ScanSlashes(path, pos + len);
    CompsNone(path[next..]);
  }

  lemma CompsNone(s: Text)
    ensures Comps(s) == [] <==> s == []
  {
  }

  /** A failing component makes the whole resolution fail, in both modes. */
  lemma ResolveStops(t: Tree, start: Hit, done: seq<Text>, c: Text, tail: seq<Text>)
    requires TreeOk(t) && HitOk(t, start) && Walk(t, start, done).Some?
    requires Name83(c) == None || (Walk(t, start, done + [c]) == None)
    ensures Walk(t, start, done + [c] + tail) == None
    ensures tail != [] || Name83(c) == None ==> WalkParent(t, start, done + [c] + tail) == None
  {
    hide TreeOk;
    WalkAppend(t, start, done, c);
    WalkFails(t, start, done + [c], tail);
    var cs := done + [c] + tail;
    if tail != [] {
      WalkFails(t, start, done + [c], tail[..|tail| - 1]);
      assert cs[..|cs| - 1] == done + [c] + tail[..|tail| - 1];
    } else {
      assert cs == done + [c];
    }
  }

  lemma FreshInUse(nm: Name)
    requires nm[0] != 0 && nm[0] != DELETED
    ensures InUse(MakeEntry(nm, 0, 0, 0)) && !IsDirEnt(MakeEntry(nm, 0, 0, 0))
  {
    var e := MakeEntry(nm, 0, 0, 0);
    assert NameOf(e)[0] == e[0];
  }

  lemma {:induction false} CompsOk(s: Text)
    requires PathOk(s)
    ensures forall c :: c in Comps(s) ==> PathOk(c)
    decreases |s|
  {
    if s != [] {
      var k := IndexOf(s, SLASH);
      SkipOk(s[k..]);
      CompsOk(SkipSlashes(s[k..]));
    }
  }

  lemma {:induction false} SkipOk(s: Text)
    requires PathOk(s)
    ensures PathOk(SkipSlashes(s))
  {
    if s != [] && s[0] == SLASH {
      SkipOk(s[1..]);
    }
  }

  lemma PathCompsOk(path: Text)
    requires PathOk(path)
    ensures forall c :: c in PathComps(path) ==> PathOk(c)
  {
    CompsOk(if Absolute(path) then path[1..] else path);
  }

  lemma HeadFacts(t: Tree, p: nat, nm: Name)
    requires TreeOk(t)
    ensures OldHead(t, p, nm) == 0 || OldHead(t, p, nm) >= 2
    ensures 0 !in t.home && (OldHead(t, p, nm) != 0 ==> OldHead(t, p, nm) in t.home)
    ensures t.Has(p, nm) && t.At(p, nm).File? && OldHead(t, p, nm) != 0 ==> FileAt(t, OldHead(t, p, nm)).Some?
  {
    ZeroHasNoHome(t);
    if t.Has(p, nm) { NodeAt(t, p, nm); }
  }

  lemma RepSameDirs(g: Geometry, disk: seq<Sector>, chains: ChainMap, t: Tree)
    requires g.Valid(|disk|) && DirsRep(g, disk, chains, t)
    ensures SameDirs(g, disk, chains, disk, chains, t)
  {
    hide DirRep;
  }

  lemma HeadChain(g: Geometry, disk: seq<Sector>, chains: ChainMap, h: nat)
    requires g.Valid(|disk|) && ChainsOk(Table(g, disk), chains) && h in chains
    ensures IsChain(Table(g, disk), chains[h]) && chains[h][0] == h && h in chains[h]
  {
  }

  /**
   * Apart from the tables the disks differ in one byte, the first of a directory
   * entry, which is 0xE5 now; the entry was in use, and no volume label.
   */
  ghost predicate Struck(g: Geometry, d: seq<Sector>, d': seq<Sector>, l: nat, o: nat) {
    && |d'| == |d| && l < |d| && !InTables(g, l) && o < 512 && o % 32 == 0
    && d[l][o] != 0 && d[l][o] != 0xE5 && d[l][o + 11] / 8 % 2 == 0
    && forall x :: 0 <= x < |d| && !InTables(g, x) ==> d'[x] == if x == l then d[l][o := 0xE5] else d[x]
  }

  lemma StrikesOne(g: Geometry, d: seq<Sector>, d1: seq<Sector>, chains: ChainMap, p: nat, i: nat, out: Dirent)
    requires g.Valid(|d|) && AgreeOffTables(g, d, d1) && HasLbas(g, chains, p) && i < |Entries(g, d1, chains, p)|
    requires out == Entries(g, d1, chains, p)[i] && InUse(out)
    ensures Struck(g, d, Updated(g, d1, chains, p, i, out[0 := DELETED]), EntryLba(g, chains, p, i), 32 * (i % 16))
  {
    hide ChainLbas;
    DirLbasOk(g, d1, chains, p);
    var l, o, e := EntryLba(g, chains, p, i), 32 * (i % 16), out[0 := DELETED];
    if p != 0 { ChainLbasIn(g, |d|, chains[p], i / 16); }
    assert !InTables(g, l) && d1[l] == d[l] && out == d[l][o..o + 32];
    FirstByteOnly(d[l], o, out);
  }

  lemma FirstByteOnly(sec: Sector, o: nat, out: Dirent)
    requires o + 32 <= 512 && out == sec[o..o + 32]
    ensures Splice(sec, o, out[0 := DELETED]) == sec[o := DELETED] && out[0] == sec[o] && out[11] == sec[o + 11]
  {
  }

  lemma WithoutEntries(g: Geometry, disk: seq<Sector>, disk1: seq<Sector>, chains: ChainMap, t: Tree, h: nat, d: nat)
    requires Rep(g, disk, chains, t, 0) && Without(g, disk, disk1, chains, t, h) && d in t.dirs && (d == h ==> d == 0)
    ensures g.Valid(|disk|) && |disk1| == |disk| && HasLbas(g, chains, d) && HasLbas(g, chains - {h}, d)
    ensures Entries(g, disk1, chains - {h}, d) == Entries(g, disk, chains, d)
  {
    hide Rep, FilesRep, ChainsOk, Entries;
    FsUnique.RepValid(g, disk, chains, t, 0);
  }

  /** The chain of a name, or none: what taking the name away has to leave behind. */
  lemma HeadPart(g: Geometry, disk: seq<Sector>, chains: ChainMap, t: Tree, d: nat, n: Name)
    requires Rep(g, disk, chains, t, 0) && t.Has(d, n)
    ensures var h := t.At(d, n).Head();
      && (h != 0 ==> h >= 2 && h in chains) && (h == 0 ==> Without(g, disk, disk, chains, t, 0)) && (h == d ==> d == 0)
  {
    hide TreeOk, DirRep, FileRep, ChainsOk;
    HeadFacts(t, d, n);
    NodeAt(t, d, n);
    assert chains - {0} == chains;
  }

  /** The 32 bytes at `where` on the disk are `d` with that cluster and size. */
  predicate RepointedAt(disk: seq<Sector>, where: Loc, d: Dirent, cluster: nat, size: nat) {
    && where.lba < |disk| && where.off + 32 <= 512
    && Repointed(d, disk[where.lba][where.off..where.off + 32], cluster, size)
  }

  lemma EntryInDisk(g: Geometry, disk: seq<Sector>, chains: ChainMap, p: nat, i: nat, e: Dirent)
    requires g.Valid(|disk|) && HasLbas(g, chains, p) && i < 16 * |DirLbas(g, chains, p)|
    ensures var l, o := EntryLba(g, chains, p, i), 32 * (i % 16);
      l < |disk| && o + 32 <= 512 && Updated(g, disk, chains, p, i, e)[l][o..o + 32] == e
  {
    DirLbasOk(g, disk, chains, p);
  }

  /** An entry of the root is rewritten after a change of the tables: no cluster changes. */
  lemma RootRewrite(g: Geometry, d0: seq<Sector>, d1: seq<Sector>, chains: ChainMap, i: nat, e: Dirent)
    requires g.Valid(|d0|) && AgreeOffTables(g, d0, d1) && i < |Entries(g, d1, chains, 0)|
    ensures AgreeData(g, d0, Updated(g, d1, chains, 0, i, e), {})
  {
    hide Entries, Updated, Table;
    var _ := UpdatedTables(g, d1, chains, 0, i, e);
    TablesAgree(g, d0, d1);
  }

  lemma RootFresh(g: Geometry, disk: seq<Sector>, chains: ChainMap, i: nat, e: Dirent, c: nat)
    requires g.Valid(|disk|) && g.InData(c) && FreshCluster(g, disk, c, 0) && i < |Entries(g, disk, chains, 0)|
    ensures FreshCluster(g, Updated(g, disk, chains, 0, i, e), c, 0)
  {
    hide Entries, Updated, Table, DotSector;
    var _ := UpdatedTables(g, disk, chains, 0, i, e);
    SameCluster(g, disk, Updated(g, disk, chains, 0, i, e), c);
  }

  lemma SameCluster(g: Geometry, d: seq<Sector>, d': seq<Sector>, c: nat)
    requires g.Valid(|d|) && g.InData(c) && AgreeData(g, d, d', {})
    ensures ClusterSectors(g, d', c) == ClusterSectors(g, d, c)
  {
    ClusterRange(g, |d|, c, 0);
    assert forall l :: g.ClusterLba(c) <= l < g.ClusterLba(c) + g.spc ==> d'[l] == d[l];
  }

  /** `t'` is `t` with the file at the given place holding `data`. */
  ghost predicate Written(t: Tree, place: Option<(nat, Name)>, h: nat, data: seq<Byte>, t': Tree) {
    match place
    case None => false
    case Some((p, nm)) => CanPut(t, p, nm, h, data) && t' == PutFile(t, p, nm, h, data)
  }

  lemma RepPending(g: Geometry, disk: seq<Sector>, chains: ChainMap, t: Tree, skip: nat)
    requires Rep(g, disk, chains, t, skip)
    ensures Pending(g, disk, chains, t, skip, 0)
  {
  }

  lemma NewFileRep(g: Geometry, disk: seq<Sector>, chains: ChainMap, s: seq<nat>, data: seq<Byte>)
    requires g.Valid(|disk|) && s != [] && AllInData(g, s) && s[0] in chains && chains[s[0]] == s
    requires |data| < 0x1_0000_0000 && |s| == ClustersFor(|data|, g.ClusterBytes()) && Holds(g, disk, s, data)
    ensures FileRep(g, disk, chains, s[0], data)
  {
    hide FileBytes;
    var cap := Times(|s|, g.ClusterBytes());
    FilePrefix(g, disk, s, |data|, cap);
    assert (data + Zeros(cap - |data|))[..|data|] == data;
  }

  lemma SameDirsTrans(g: Geometry, d0: seq<Sector>, c0: ChainMap, d1: seq<Sector>, c1: ChainMap, d2: seq<Sector>,
                      c2: ChainMap, t: Tree, p: nat, i: nat)
    requires g.Valid(|d0|) && |d1| == |d0| && |d2| == |d0| && p in t.dirs
    requires SameDirs(g, d0, c0, d1, c1, t) && SameDirs(g, d1, c1, d2, c2, t)
    ensures HasLbas(g, c0, p) && HasLbas(g, c2, p)
    ensures DirLbas(g, c2, p) == DirLbas(g, c0, p) && Entries(g, d2, c2, p) == Entries(g, d0, c0, p)
    ensures i < 16 * |DirLbas(g, c0, p)| ==> EntryLba(g, c2, p, i) == EntryLba(g, c0, p, i)
  {
  }

  lemma WithDataFits(d: Dirent, nm: Name, h: nat, data: seq<Byte>)
    requires InUse(d) && NameOf(d) == nm && nm[0] != DOT && !IsDirEnt(d) && h < 0x10000 && |data| < 0x1_0000_0000
    ensures Fits(WithData(d, h, |data|), nm, File(h, data))
  {
    hide WithData;
    var e := WithData(d, h, |data|);
    assert e[0] == NameOf(e)[0] == NameOf(d)[0] == d[0];
  }

  lemma PendingCanPut(g: Geometry, disk: seq<Sector>, chains: ChainMap, t: Tree, p: nat, nm: Name, h: nat,
                      data: seq<Byte>)
    requires Pending(g, disk, chains, t, OldHead(t, p, nm), h) && p in t.dirs && nm[0] != DOT
    requires (t.Has(p, nm) ==> t.At(p, nm).File?) && (h == 0 <==> data == [])
    ensures CanPut(t, p, nm, h, data)
  {
  }

  ghost predicate Removed(t: Tree, place: Option<(nat, Name)>, t': Tree) {
    match place
    case None => false
    case Some((d, n)) => CanRemove(t, d, n) && t' == Remove(t, d, n)
  }

  lemma SameLba(g: Geometry, chains: ChainMap, d: nat, h: nat, i: nat)
    requires HasLbas(g, chains, d) && (h == d ==> d == 0) && i < 16 * |DirLbas(g, chains, d)|
    ensures HasLbas(g, chains - {h}, d) && DirLbas(g, chains - {h}, d) == DirLbas(g, chains, d)
    ensures EntryLba(g, chains - {h}, d, i) == EntryLba(g, chains, d, i)
  {
  }

  lemma LastIsOrdinary(t: Tree, start: Hit, cs: seq<Text>)
    requires TreeOk(t) && HitOk(t, start) && LastEntry(t, start, cs).Some?
    ensures LastEntry(t, start, cs).value.1[0] != DOT
  {
  }

  lemma LastIsHit(t: Tree, start: Hit, cs: seq<Text>, hit: Hit)
    requires TreeOk(t) && HitOk(t, start) && LastEntry(t, start, cs).Some? && Walk(t, start, cs) == Some(hit)
    ensures var (d, n) := LastEntry(t, start, cs).value;
      t.Has(d, n) && hit == (if t.At(d, n).Sub? then AtDir(t.At(d, n).id) else AtFile(d, n))
  {
    hide TreeOk, Walk, Name83;
    WalkAppend(t, start, cs[..|cs| - 1], cs[|cs| - 1]);
    assert cs[..|cs| - 1] + [cs[|cs| - 1]] == cs;
  }

  lemma LastNeedsWalk(t: Tree, start: Hit, cs: seq<Text>)
    requires TreeOk(t) && HitOk(t, start) && Walk(t, start, cs) == None && LastEntry(t, start, cs).Some?
    ensures !t.Has(LastEntry(t, start, cs).value.0, LastEntry(t, start, cs).value.1)
  {
    hide TreeOk, Walk, Name83;
    WalkAppend(t, start, cs[..|cs| - 1], cs[|cs| - 1]);
    assert cs[..|cs| - 1] + [cs[|cs| - 1]] == cs;
  }

  ghost predicate Made(t: Tree, place: Option<(nat, Name)>, c: nat, t': Tree) {
    match place
    case None => false
    case Some((p, nm)) => CanMake(t, p, nm, c) && t' == MakeDir(t, p, nm, c)
  }

  lemma RepLinks(g: Geometry, disk: seq<Sector>, chains: ChainMap, t: Tree)
    requires Rep(g, disk, chains, t, 0)
    ensures g.Valid(|disk|) && LinksInRange(Table(g, disk))
  {
    ChainsLinksInRange(Table(g, disk), chains);
  }

  lemma DirEntryFits(d: Dirent, nm: Name, c: nat)
    requires InUse(d) && NameOf(d) == nm && nm[0] != DOT && c < 0x10000
    ensures Fits(MakeEntry(nm, ATTR_DIR, c, 0), nm, Sub(c))
  {
    hide MakeEntry;
    var e := MakeEntry(nm, ATTR_DIR, c, 0);
    assert e[0] == NameOf(e)[0] == NameOf(d)[0] == d[0];
  }

  lemma PendingCanMake(g: Geometry, disk: seq<Sector>, chains: ChainMap, t: Tree, p: nat, nm: Name, c: nat)
    requires Pending(g, disk, chains, t, 0, c) && c != 0 && p in t.dirs && nm[0] != DOT && !t.Has(p, nm)
    ensures CanMake(t, p, nm, c)
  {
  }
}
