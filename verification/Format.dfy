/** A freshly formatted volume represents the empty tree, so the invariant has a starting point. */
module Format {
  import opened Options
  import opened Arith
  import opened Bytes
  import opened Chains
  import opened Geometry
  import opened Sectors
  import opened Names
  import opened Tree
  import opened Dirents
  import opened FsState
  import opened FsUnique
  import opened Paths
  import opened CwdText
  import opened Volume
  import opened Driver

  function EmptyTree(): Tree { Tree(map[0 := Dir(0, 0, map[])], map[]) }

  /** No cluster is in use and every slot of the root directory is an end marker. */
  ghost predicate IsFresh(g: Geometry, disk: seq<Sector>) {
    && g.Valid(|disk|)
    && (forall c :: 2 <= c <= g.maxCluster ==> FatAt(g, disk, c) == FREE)
    && forall i :: 0 <= i < 16 * g.rootSectors ==> Entries(g, disk, map[], 0)[i][0] == 0
  }

  lemma EmptyDir(es: seq<Dirent>)
    requires forall i :: 0 <= i < |es| ==> es[i][0] == 0
    ensures DirRep(es, 0, Dir(0, 0, map[]))
  {
  }

  /** Whatever the data area holds, a formatted volume is the empty tree. */
  lemma FreshVolume(g: Geometry, disk: seq<Sector>)
    requires IsFresh(g, disk)
    ensures Rep(g, disk, map[], EmptyTree(), 0)
  {
    hide FatAt, DirRep, Entries, AllChains;
    EmptyDir(Entries(g, disk, map[], 0));
    assert AllChains(Table(g, disk), map[]) by { NoChains(Table(g, disk)); }
  }

  lemma NoChains(fat: seq<nat>)
    ensures AllChains(fat, map[])
  {
  }

  /** Every layout has such a volume: a disk of zeroes, whose table copies are equal. */
  lemma BlankDisk(g: Geometry, n: nat)
    requires g.Valid(n)
    ensures var disk: seq<Sector> := seq(n, _ => Zeros(512)); IsFresh(g, disk) && Mirrored(g, disk)
  {
    var disk: seq<Sector> := seq(n, _ => Zeros(512));
    forall f: nat, s: nat | f < g.numFats && s < g.fatSectors
      ensures g.FatLba(f, s) < |disk| && g.FatLba(0, s) < |disk| && disk[g.FatLba(f, s)] == disk[g.FatLba(0, s)]
    {
      FatLbaRange(g, n, f, s);
      FatLbaRange(g, n, 0, s);
    }
    forall c | 2 <= c <= g.maxCluster ensures FatAt(g, disk, c) == FREE {
      FatLbaRange(g, n, 0, 2 * c / 512);
    }
    DirLbasOk(g, disk, map[], 0);
  }

  // ---- a rewrite that loses the volume ---------------------------------------------------------

  /** One FAT sector, one root sector, and a single cluster of one sector. */
  const TINY := Geometry(1, 1, 1, 1, 2, 1, 3, 1, 2)

  const PATH_A: Text := [65]

  lemma TinyValid()
    ensures TINY.Valid(4)
  {
    assert Times(1, 1) == 1;
  }

  /** No more clusters are available to a write than there are. */
  lemma RoomBound(fs: FatDriver, p: nat, nm: Name)
    requires fs.Valid()
    ensures fs.Room(p, nm) <= |fs.vol.Fat()| - 2
  {
    hide TreeOk, DirsRep, FilesRep, IsChain, Released, CountFree;
    var fat, h := fs.vol.Fat(), OldHead(fs.tree, p, nm);
    if h in fs.chains {
      HeadChain(fs.vol.g, fs.vol.disk, fs.chains, h);
      DropChain(fat, fs.chains, h);
      CountReleased(fat, fs.chains[h]);
      assert CountFree(Released(fat, h), 2) <= |fat| - 2;
    }
  }

  /** "A" is the ordinary name of an entry of the root. */
  lemma PathOfA(t: Tree)
    requires TreeOk(t)
    ensures Start(0, PATH_A) == 0 && 0 in t.dirs && PathOk(PATH_A) && Name83(PATH_A).Some?
    ensures Name83(PATH_A).value[0] == 65
    ensures ResolveParent(t, 0, PATH_A) == Some((AtDir(0), Name83(PATH_A).value))
  {
    RootIn(t);
    CompsOne(PATH_A);
    assert PathComps(PATH_A) == [PATH_A] && [PATH_A][..0] == [];
  }

  /** On a fresh volume with a cluster to spare a byte can be stored under "A". */
  lemma FirstFits(fs: FatDriver)
    requires fs.Valid() && fs.cwdCluster == 0 && fs.tree == EmptyTree() && IsFresh(fs.vol.g, fs.vol.disk)
    requires fs.vol.g == TINY && fs.chains == map[]
    ensures Start(0, PATH_A) in fs.tree.dirs && fs.Place(PATH_A) == Some((0, Name83(PATH_A).value))
    ensures fs.CanWrite(PATH_A, 1, true)
  {
    PathOfA(fs.tree);
    var es := Entries(fs.vol.g, fs.vol.disk, map[], 0);
    assert FreeSlot(es, 0) == Some(0);
    assert fs.vol.Fat()[2] == FREE && CountFree(fs.vol.Fat(), 3) == 0 && CountFree(fs.vol.Fat(), 2) == 1;
    assert ClustersFor(1, 512) == 1 + ClustersFor(0, 512);
  }

  /** Two clusters never fit. */
  lemma SecondDoesNot(fs: FatDriver, h: nat)
    requires fs.Valid() && fs.cwdCluster == 0 && fs.vol.g == TINY
    requires CanPut(EmptyTree(), 0, Name83(PATH_A).value, h, [1])
    requires fs.tree == PutFile(EmptyTree(), 0, Name83(PATH_A).value, h, [1])
    ensures Start(0, PATH_A) in fs.tree.dirs && fs.Place(PATH_A) == Some((0, Name83(PATH_A).value))
    ensures fs.Rewrites(PATH_A) && !fs.CanWrite(PATH_A, 513, true)
  {
    hide Rep, CountFree;
    var nm := Name83(PATH_A).value;
    RepValid(fs.vol.g, fs.vol.disk, fs.chains, fs.tree, 0);
    PathOfA(fs.tree);
    assert fs.tree.Has(0, nm) && fs.tree.At(0, nm) == File(h, [1]);
    RoomBound(fs, 0, nm);
    assert ClustersFor(513, 512) == 1 + ClustersFor(1, 512) == 2 + ClustersFor(0, 512);
  }

  /** The driver on a blank disk with that layout. */
  method BlankDriver() returns (fs: FatDriver)
    ensures fresh(fs) && fresh(fs.vol) && fs.Valid() && fs.vol.g == TINY && IsFresh(TINY, fs.vol.disk)
    ensures fs.chains == map[] && fs.tree == EmptyTree() && fs.cwdCluster == 0 && fs.cwdComps == [] && fs.CwdOk()
  {
    hide Rep, IsFresh, Mirrored, FatDriver.CwdOk;
    var disk: seq<Sector> := seq(4, _ => Zeros(512));
    TinyValid();
    BlankDisk(TINY, 4);
    FreshVolume(TINY, disk);
    var vol := new FatVolume(TINY, disk);
    fs := new FatDriver(vol, map[], EmptyTree());
  }

  /** From a blank disk, by one write and one refused rewrite, to a disk that represents no tree. */
  method RefusedRewrite() returns (fs: FatDriver, first: bool, second: bool)
    ensures fresh(fs) && fresh(fs.vol) && first && !second && fs.vol.Valid() && NoTree(fs.vol.g, fs.vol.disk)
  {
    hide Rep, FatDriver.Place, FatDriver.CanWrite, FatDriver.Rewrites, FatDriver.Contents, IsFresh, Mirrored, NoTree;
    fs := BlankDriver();
    var lost;
    ghost var h;
    FirstFits(fs);
    PathOfA(fs.tree);
    first, lost, h := fs.WriteFile(PATH_A, [1], true);
    SecondDoesNot(fs, h);
    second, lost, h := fs.WriteFile(PATH_A, Zeros(513), true);
  }
}
