/** Each operation's last step: the directory entry that makes its change visible. */
module FsSteps {
  import opened Options
  import opened Bytes
  import opened Chains
  import opened Geometry
  import opened Sectors
  import opened Names
  import opened Tree
  import opened Dirents
  import opened Layout
  import opened FsState

  /** The slot an entry called `nm` goes to: its own, or the first free one. */
  ghost predicate SlotFor(es: seq<Dirent>, nm: Name, i: nat) {
    Find(es, nm, 0) == Some(i) || (Find(es, nm, 0) == None && FreeSlot(es, 0) == Some(i))
  }

  lemma SlotRep(es: seq<Dirent>, d: nat, dir: Dir, i: nat, e: Dirent, nm: Name, n: Node)
    requires DirRep(es, d, dir) && SlotFor(es, nm, i) && Fits(e, nm, n)
    ensures i < |es| && DirRep(es[i := e], d, dir.(entries := dir.entries[nm := n]))
  {
    hide DirRep, Fits;
    if Find(es, nm, 0) == Some(i) {
      RewriteRep(es, d, dir, i, e, nm, n);
    } else {
      CreateRep(es, d, dir, i, e, nm, n);
    }
  }

  // ---- writing a file ---------------------------------------------------------------------

  lemma PutDirsRep(g: Geometry, disk: seq<Sector>, chains: ChainMap, t: Tree, p: nat, nm: Name, h: nat,
                   data: seq<Byte>, i: nat, e: Dirent)
    requires g.Valid(|disk|) && ChainsOk(Table(g, disk), chains) && DirsRep(g, disk, chains, t) && p in t.dirs
    requires SlotFor(Entries(g, disk, chains, p), nm, i) && Fits(e, nm, File(h, data))
    ensures i < |Entries(g, disk, chains, p)|
    ensures DirsRep(g, Updated(g, disk, chains, p, i, e), chains, PutFile(t, p, nm, h, data))
  {
    hide DirRep, Table, Fits, SlotFor, Updated, Entries, AllChains, Disjoint, Covered, TableOk;
    SlotRep(Entries(g, disk, chains, p), p, t.dirs[p], i, e, nm, File(h, data));
    var disk', t' := Updated(g, disk, chains, p, i, e), PutFile(t, p, nm, h, data);
    forall d | d in t'.dirs ensures HasLbas(g, chains, d) && DirRep(Entries(g, disk', chains, d), d, t'.dirs[d]) {
      if d == p {
        UpdatedSelf(g, disk, chains, p, i, e);
      } else {
        UpdatedOther(g, disk, chains, p, i, e, d);
      }
    }
  }

  lemma PutFileAt(t: Tree, p: nat, nm: Name, h: nat, data: seq<Byte>, k: nat)
    requires TreeOk(t) && CanPut(t, p, nm, h, data) && FileAt(PutFile(t, p, nm, h, data), k).Some?
    ensures k != p && k != 0
    ensures k == h ==> FileAt(PutFile(t, p, nm, h, data), k) == Some(data)
    ensures k != h ==> FileAt(t, k) == FileAt(PutFile(t, p, nm, h, data), k) && k != OldHead(t, p, nm)
  {
    assert k in t.home && k != h ==> HomeOk(t, k);
    PutFileOk(t, p, nm, h, data);
    FileHead(PutFile(t, p, nm, h, data), k);
  }

  lemma PutFilesRep(g: Geometry, disk: seq<Sector>, chains: ChainMap, t: Tree, p: nat, nm: Name, h: nat,
                    data: seq<Byte>, i: nat, e: Dirent)
    requires g.Valid(|disk|) && TreeOk(t) && ChainsOk(Table(g, disk), chains) && HasLbas(g, chains, p)
    requires CanPut(t, p, nm, h, data) && FilesRep(g, disk, chains, t, OldHead(t, p, nm))
    requires i < |Entries(g, disk, chains, p)|
    requires h != 0 ==> FileRep(g, disk, chains, h, data)
    ensures FilesRep(g, Updated(g, disk, chains, p, i, e), chains, PutFile(t, p, nm, h, data), 0)
  {
    hide TreeOk, Table, Updated, Entries, AllChains, Disjoint, Covered, TableOk, FileRep, FileAt;
    var t' := PutFile(t, p, nm, h, data);
    forall k | k != 0 && FileAt(t', k).Some?
      ensures FileRep(g, Updated(g, disk, chains, p, i, e), chains, k, FileAt(t', k).value)
    {
      PutFileAt(t, p, nm, h, data, k);
      UpdatedFile(g, disk, chains, p, i, e, k, FileAt(t', k).value);
    }
  }

  lemma DirIn(g: Geometry, disk: seq<Sector>, chains: ChainMap, t: Tree, d: nat)
    requires g.Valid(|disk|) && DirsRep(g, disk, chains, t) && d in t.dirs
    ensures HasLbas(g, chains, d) && DirRep(Entries(g, disk, chains, d), d, t.dirs[d])
  {
  }

  /** Once the chain is in place, the directory entry completes the write. */
  lemma PutStep(g: Geometry, disk: seq<Sector>, chains: ChainMap, t: Tree, p: nat, nm: Name, h: nat, data: seq<Byte>,
                i: nat, e: Dirent)
    requires Pending(g, disk, chains, t, OldHead(t, p, nm), h) && CanPut(t, p, nm, h, data)
    requires SlotFor(Entries(g, disk, chains, p), nm, i) && Fits(e, nm, File(h, data))
    requires h != 0 ==> FileRep(g, disk, chains, h, data)
    ensures i < |Entries(g, disk, chains, p)|
    ensures Rep(g, Updated(g, disk, chains, p, i, e), chains, PutFile(t, p, nm, h, data), 0)
    ensures Table(g, Updated(g, disk, chains, p, i, e)) == Table(g, disk)
  {
    hide TreeOk, Table, Updated, Entries, ChainsOk, DirsRep, FilesRep, FileRep, SlotFor, Fits;
    PutDirsRep(g, disk, chains, t, p, nm, h, data, i, e);
    assert HasLbas(g, chains, p) by { DirIn(g, disk, chains, t, p); }
    PutFilesRep(g, disk, chains, t, p, nm, h, data, i, e);
    PutFileOk(t, p, nm, h, data);
    ZeroHasNoHome(t);
    var _ := UpdatedTables(g, disk, chains, p, i, e);
    assert chains.Keys == PutFile(t, p, nm, h, data).home.Keys - {0};
  }

  // ---- removing -------------------------------------------------------------------------------

  /** The tables of the directories `ds` stand for their directories. */
  ghost predicate DirsRepOn(g: Geometry, disk: seq<Sector>, chains: ChainMap, t: Tree, ds: set<nat>)
    requires g.Valid(|disk|)
  {
    forall d :: d in ds ==> d in t.dirs && HasLbas(g, chains, d) && DirRep(Entries(g, disk, chains, d), d, t.dirs[d])
  }

  lemma RemoveDirsRep(g: Geometry, disk: seq<Sector>, chains: ChainMap, t: Tree, p: nat, nm: Name, i: nat)
    requires g.Valid(|disk|) && ChainsOk(Table(g, disk), chains) && TreeOk(t) && t.Has(p, nm)
    requires DirsRepOn(g, disk, chains, t, Remove(t, p, nm).dirs.Keys) && HasLbas(g, chains, p)
    requires Find(Entries(g, disk, chains, p), nm, 0) == Some(i)
    ensures var e: Dirent := Entries(g, disk, chains, p)[i][0 := DELETED];
      DirsRep(g, Updated(g, disk, chains, p, i, e), chains, Remove(t, p, nm))
  {
    hide TreeOk, DirRep, Table, Updated, Entries, AllChains, Disjoint, Covered, TableOk, Find, Remove;
    var t', es := Remove(t, p, nm), Entries(g, disk, chains, p);
    var e: Dirent := es[i][0 := DELETED];
    RemoveKeeps(t, p, nm);
    EraseRep(es, p, t.dirs[p], i, nm);
    var disk' := Updated(g, disk, chains, p, i, e);
    forall d | d in t'.dirs ensures HasLbas(g, chains, d) && DirRep(Entries(g, disk', chains, d), d, t'.dirs[d]) {
      if d == p {
        UpdatedSelf(g, disk, chains, p, i, e);
      } else {
        UpdatedOther(g, disk, chains, p, i, e, d);
      }
    }
  }

  lemma RemoveKeeps(t: Tree, p: nat, nm: Name)
    requires TreeOk(t) && t.Has(p, nm)
    ensures nm[0] != DOT && p in Remove(t, p, nm).dirs
    ensures t.At(p, nm).Head() !in Remove(t, p, nm).dirs - {0}
    ensures Remove(t, p, nm).dirs.Keys <= t.dirs.Keys
    ensures forall d :: d in Remove(t, p, nm).dirs ==>
      Remove(t, p, nm).dirs[d] == if d == p then t.dirs[p].(entries := t.dirs[p].entries - {nm}) else t.dirs[d]
  {
    NodeAt(t, p, nm);
  }

  lemma RemoveFileAt(t: Tree, p: nat, nm: Name, k: nat)
    requires TreeOk(t) && CanRemove(t, p, nm) && FileAt(Remove(t, p, nm), k).Some?
    ensures k != 0 && k != p && FileAt(t, k) == FileAt(Remove(t, p, nm), k) && k != t.At(p, nm).Head()
  {
    assert HomeOk(t, k);
    FileHead(t, k);
  }

  lemma RemoveFilesRep(g: Geometry, disk1: seq<Sector>, chains1: ChainMap, t: Tree, p: nat, nm: Name, i: nat, e: Dirent)
    requires g.Valid(|disk1|) && TreeOk(t) && ChainsOk(Table(g, disk1), chains1) && HasLbas(g, chains1, p)
    requires CanRemove(t, p, nm) && FilesRep(g, disk1, chains1, t, t.At(p, nm).Head())
    requires i < |Entries(g, disk1, chains1, p)|
    ensures FilesRep(g, Updated(g, disk1, chains1, p, i, e), chains1, Remove(t, p, nm), 0)
  {
    hide TreeOk, Table, Updated, Entries, AllChains, Disjoint, Covered, TableOk, FileRep, FileAt, CanRemove;
    var t' := Remove(t, p, nm);
    forall k | k != 0 && FileAt(t', k).Some?
      ensures FileRep(g, Updated(g, disk1, chains1, p, i, e), chains1, k, FileAt(t', k).value)
    {
      RemoveFileAt(t, p, nm, k);
      UpdatedFile(g, disk1, chains1, p, i, e, k, FileAt(t', k).value);
    }
  }

  lemma WithoutRepOn(g: Geometry, disk: seq<Sector>, disk1: seq<Sector>, chains: ChainMap, t: Tree, p: nat, nm: Name)
    requires Rep(g, disk, chains, t, 0) && t.Has(p, nm) && Without(g, disk, disk1, chains, t, t.At(p, nm).Head())
    ensures DirsRepOn(g, disk1, chains - {t.At(p, nm).Head()}, t, Remove(t, p, nm).dirs.Keys)
    ensures p in t.dirs && HasLbas(g, chains, p) && HasLbas(g, chains - {t.At(p, nm).Head()}, p)
    ensures Entries(g, disk1, chains - {t.At(p, nm).Head()}, p) == Entries(g, disk, chains, p)
  {
    hide TreeOk, DirRep, Table, Entries, ChainsOk, FilesRep, Remove;
    RemoveKeeps(t, p, nm);
  }

  /** The disk with the entry rewritten holds `t` again, with the given chains. */
  ghost predicate Completes(g: Geometry, disk: seq<Sector>, chains: ChainMap, p: nat, i: nat, e: Dirent, t: Tree) {
    && g.Valid(|disk|) && HasLbas(g, chains, p) && i < |Entries(g, disk, chains, p)|
    && Rep(g, Updated(g, disk, chains, p, i, e), chains, t, 0)
    && Table(g, Updated(g, disk, chains, p, i, e)) == Table(g, disk)
  }

  /** Once the chain is released, marking the entry deleted completes the removal. */
  lemma RemoveStep(g: Geometry, disk: seq<Sector>, disk1: seq<Sector>, chains: ChainMap, t: Tree, p: nat, nm: Name,
                   i: nat, e: Dirent)
    requires Rep(g, disk, chains, t, 0) && CanRemove(t, p, nm)
    requires Without(g, disk, disk1, chains, t, t.At(p, nm).Head())
    requires HasLbas(g, chains, p) && Find(Entries(g, disk, chains, p), nm, 0) == Some(i)
    requires e == Entries(g, disk, chains, p)[i][0 := DELETED]
    ensures Completes(g, disk1, chains - {t.At(p, nm).Head()}, p, i, e, Remove(t, p, nm))
  {
    hide TreeOk, Table, Updated, Entries, ChainsOk, DirsRep, FilesRep, CanRemove, Find, Remove, DirsRepOn;
    var chains1 := chains - {t.At(p, nm).Head()};
    WithoutRepOn(g, disk, disk1, chains, t, p, nm);
    RemoveDirsRep(g, disk1, chains1, t, p, nm, i);
    RemoveFilesRep(g, disk1, chains1, t, p, nm, i, e);
    RemoveOk(t, p, nm);
    var _ := UpdatedTables(g, disk1, chains1, p, i, e);
    RemoveHomeKeys(t, p, nm);
    assert chains1.Keys == Remove(t, p, nm).home.Keys - {0};
  }

  lemma RemoveHomeKeys(t: Tree, p: nat, nm: Name)
    requires TreeOk(t) && t.Has(p, nm)
    ensures Remove(t, p, nm).home.Keys == t.home.Keys - {t.At(p, nm).Head()} && 0 !in t.home
  {
    ZeroHasNoHome(t);
  }

  // ---- creating a directory -----------------------------------------------------------------------

  /** The first sector of a new directory: "." and ".." and nothing else. */
  function DotSector(c: nat, p: nat): Sector
    requires c < 0x10000 && p < 0x10000
  {
    MakeEntry(DOT_NAME, ATTR_DIR, c, 0) + MakeEntry(DOTDOT_NAME, ATTR_DIR, p, 0) + Zeros(448)
  }

  lemma DotEntries(c: nat, p: nat, j: nat)
    requires c < 0x10000 && p < 0x10000 && j < 16
    ensures EntryAt(DotSector(c, p), j) ==
      if j == 0 then MakeEntry(DOT_NAME, ATTR_DIR, c, 0)
      else if j == 1 then MakeEntry(DOTDOT_NAME, ATTR_DIR, p, 0)
      else EMPTY_ENTRY
  {
    hide MakeEntry;
    var r := DotSector(c, p);
    if j >= 2 {
      assert forall x :: 64 <= x < 512 ==> r[x] == 0;
    }
  }

  const ZERO_SECTOR: Sector := Zeros(512)

  /** Cluster `c` holds an empty directory whose parent is `p`. */
  ghost predicate FreshCluster(g: Geometry, disk: seq<Sector>, c: nat, p: nat)
    requires g.Valid(|disk|) && g.InData(c)
  {
    && c < 0x10000 && p < 0x10000
    && ClusterSectors(g, disk, c) == [DotSector(c, p)] + seq(g.spc - 1, _ => ZERO_SECTOR)
  }

  lemma ZeroEntries(j: nat)
    requires j < 16
    ensures EntryAt(ZERO_SECTOR, j) == EMPTY_ENTRY
  {
  }

  lemma FreshEntries(g: Geometry, disk: seq<Sector>, chains: ChainMap, c: nat, p: nat)
    requires g.Valid(|disk|) && g.InData(c) && c in chains && chains[c] == [c] && FreshCluster(g, disk, c, p)
    ensures HasLbas(g, chains, c) && Entries(g, disk, chains, c) == FreshTable(16 * g.spc, c, p)
  {
    hide DotSector, EntriesOf, MakeEntry, EntryAt;
    var lbas := DirLbas(g, chains, c);
    assert ChainLbas(g, [c][1..]) == [];
    assert lbas == Run(g.ClusterLba(c), g.spc);
    ClusterRange(g, |disk|, c, 0);
    DirLbasOk(g, disk, chains, c);
    var es, fs, ss := Entries(g, disk, chains, c), FreshTable(16 * g.spc, c, p), ClusterSectors(g, disk, c);
    forall i | 0 <= i < |es| ensures es[i] == fs[i] {
      assert disk[lbas[i / 16]] == ss[i / 16];
      if i < 16 { DotEntries(c, p, i); } else { ZeroEntries(i % 16); }
    }
  }

  lemma MakeKeeps(t: Tree, p: nat, nm: Name, c: nat)
    requires p in t.dirs && c !in t.dirs
    ensures MakeDir(t, p, nm, c).dirs.Keys == t.dirs.Keys + {c}
    ensures MakeDir(t, p, nm, c).dirs[c] == Dir(p, t.dirs[p].depth + 1, map[])
    ensures forall d :: d in t.dirs ==>
      MakeDir(t, p, nm, c).dirs[d]
        == if d == p then t.dirs[p].(entries := t.dirs[p].entries[nm := Sub(c)]) else t.dirs[d]
  {
  }

  lemma MakeDirsRep(g: Geometry, disk: seq<Sector>, chains: ChainMap, t: Tree, p: nat, nm: Name, c: nat, i: nat,
                    e: Dirent)
    requires g.Valid(|disk|) && ChainsOk(Table(g, disk), chains) && DirsRep(g, disk, chains, t) && p in t.dirs
    requires SlotFor(Entries(g, disk, chains, p), nm, i) && Fits(e, nm, Sub(c)) && c != 0 && c !in t.dirs
    requires HasLbas(g, chains, c) && DirRep(Entries(g, disk, chains, c), c, Dir(p, t.dirs[p].depth + 1, map[]))
    ensures i < |Entries(g, disk, chains, p)|
    ensures DirsRep(g, Updated(g, disk, chains, p, i, e), chains, MakeDir(t, p, nm, c))
  {
    hide DirRep, Table, Fits, SlotFor, Updated, Entries, AllChains, Disjoint, Covered, TableOk, MakeDir;
    SlotRep(Entries(g, disk, chains, p), p, t.dirs[p], i, e, nm, Sub(c));
    MakeKeeps(t, p, nm, c);
    var disk', t' := Updated(g, disk, chains, p, i, e), MakeDir(t, p, nm, c);
    forall d | d in t'.dirs ensures HasLbas(g, chains, d) && DirRep(Entries(g, disk', chains, d), d, t'.dirs[d]) {
      if d == p {
        UpdatedSelf(g, disk, chains, p, i, e);
      } else {
        UpdatedOther(g, disk, chains, p, i, e, d);
      }
    }
  }

  lemma MakeFileAt(t: Tree, p: nat, nm: Name, c: nat, k: nat)
    requires TreeOk(t) && CanMake(t, p, nm, c) && FileAt(MakeDir(t, p, nm, c), k).Some?
    ensures k != p && k != 0 && FileAt(t, k) == FileAt(MakeDir(t, p, nm, c), k)
  {
    MakeDirOk(t, p, nm, c);
    FileHead(MakeDir(t, p, nm, c), k);
  }

  lemma MakeFilesRep(g: Geometry, disk: seq<Sector>, chains: ChainMap, t: Tree, p: nat, nm: Name, c: nat, i: nat,
                     e: Dirent)
    requires g.Valid(|disk|) && TreeOk(t) && ChainsOk(Table(g, disk), chains) && HasLbas(g, chains, p)
    requires CanMake(t, p, nm, c) && FilesRep(g, disk, chains, t, 0) && i < |Entries(g, disk, chains, p)|
    ensures FilesRep(g, Updated(g, disk, chains, p, i, e), chains, MakeDir(t, p, nm, c), 0)
  {
    hide TreeOk, Table, Updated, Entries, AllChains, Disjoint, Covered, TableOk, FileRep, FileAt;
    var t' := MakeDir(t, p, nm, c);
    forall k | k != 0 && FileAt(t', k).Some?
      ensures FileRep(g, Updated(g, disk, chains, p, i, e), chains, k, FileAt(t', k).value)
    {
      MakeFileAt(t, p, nm, c, k);
      UpdatedFile(g, disk, chains, p, i, e, k, FileAt(t', k).value);
    }
  }

  /** Once the new directory's cluster is written, its entry in the parent completes mkdir. */
  lemma MakeStep(g: Geometry, disk: seq<Sector>, chains: ChainMap, t: Tree, p: nat, nm: Name, c: nat, i: nat, e: Dirent)
    requires Pending(g, disk, chains, t, 0, c) && CanMake(t, p, nm, c) && g.InData(c)
    requires c in chains && chains[c] == [c] && FreshCluster(g, disk, c, p)
    requires SlotFor(Entries(g, disk, chains, p), nm, i) && Fits(e, nm, Sub(c))
    ensures i < |Entries(g, disk, chains, p)|
    ensures Rep(g, Updated(g, disk, chains, p, i, e), chains, MakeDir(t, p, nm, c), 0)
    ensures Table(g, Updated(g, disk, chains, p, i, e)) == Table(g, disk)
  {
    hide TreeOk, Table, Updated, Entries, ChainsOk, DirsRep, FilesRep, SlotFor, Fits, DirRep, FreshTable, DotSector,
      EntriesOf;
    FreshEntries(g, disk, chains, c, p);
    FreshRep(16 * g.spc, c, p, t.dirs[p].depth + 1);
    MakeDirsRep(g, disk, chains, t, p, nm, c, i, e);
    assert HasLbas(g, chains, p) by { DirIn(g, disk, chains, t, p); }
    MakeFilesRep(g, disk, chains, t, p, nm, c, i, e);
    MakeDirOk(t, p, nm, c);
    ZeroHasNoHome(t);
    var _ := UpdatedTables(g, disk, chains, p, i, e);
    assert chains.Keys == MakeDir(t, p, nm, c).home.Keys - {0};
  }
}
