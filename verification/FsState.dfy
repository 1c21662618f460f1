/** The invariant that ties the disk, its chains and the file tree together, and how each step keeps it. */
module FsState {
  import opened Options
  import opened Bytes
  import opened Chains
  import opened Geometry
  import opened Sectors
  import opened Tree
  import opened Dirents
  import opened Layout

  type ChainMap = map<nat, seq<nat>>

  lemma DirLbasOk(g: Geometry, disk: seq<Sector>, chains: ChainMap, d: nat)
    requires g.Valid(|disk|) && HasLbas(g, chains, d)
    ensures LbasOk(disk, DirLbas(g, chains, d))
  {
    if d != 0 {
      forall i | 0 <= i < |ChainLbas(g, chains[d])| ensures ChainLbas(g, chains[d])[i] < |disk| {
        ChainLbasIn(g, |disk|, chains[d], i);
      }
    }
  }

  /** The entries of directory `d`. */
  ghost function Entries(g: Geometry, disk: seq<Sector>, chains: ChainMap, d: nat): (es: seq<Dirent>)
    requires g.Valid(|disk|) && HasLbas(g, chains, d)
    ensures |es| == 16 * |DirLbas(g, chains, d)|
  {
    DirLbasOk(g, disk, chains, d);
    EntriesOf(disk, DirLbas(g, chains, d))
  }

  /** The file whose first cluster is `h`. */
  ghost function FileAt(t: Tree, h: nat): Option<seq<Byte>> {
    if h in t.home && t.Has(t.home[h].0, t.home[h].1) && t.At(t.home[h].0, t.home[h].1).File?
    then Some(t.At(t.home[h].0, t.home[h].1).content) else None
  }

  ghost predicate DirsRep(g: Geometry, disk: seq<Sector>, chains: ChainMap, t: Tree)
    requires g.Valid(|disk|)
  {
    forall d :: d in t.dirs ==> HasLbas(g, chains, d) && DirRep(Entries(g, disk, chains, d), d, t.dirs[d])
  }

  /** The chain of `h` has exactly the clusters its contents need and holds them. */
  ghost predicate FileRep(g: Geometry, disk: seq<Sector>, chains: ChainMap, h: nat, content: seq<Byte>)
    requires g.Valid(|disk|)
  {
    && h in chains && AllInData(g, chains[h]) && |content| < 0x1_0000_0000
    && |chains[h]| == ClustersFor(|content|, g.ClusterBytes())
    && FileBytes(g, disk, chains[h], |content|) == content
  }

  /** Every file but the one with first cluster `skip` is stored. */
  ghost predicate FilesRep(g: Geometry, disk: seq<Sector>, chains: ChainMap, t: Tree, skip: nat)
    requires g.Valid(|disk|)
  {
    forall h :: h != skip && FileAt(t, h).Some? ==> FileRep(g, disk, chains, h, FileAt(t, h).value)
  }

  /**
   * The tree is well formed and represented on disk: chains partition the used
   * clusters and belong one to one to the named nodes, directory tables list
   * exactly their entries, and files hold their contents. `skip` is the first
   * cluster of a file whose chain has been given up (0: none).
   */
  ghost predicate Rep(g: Geometry, disk: seq<Sector>, chains: ChainMap, t: Tree, skip: nat) {
    && g.Valid(|disk|)
    && ChainsOk(Table(g, disk), chains)
    && TreeOk(t)
    && chains.Keys == t.home.Keys - {skip}
    && skip !in t.dirs - {0}
    && DirsRep(g, disk, chains, t)
    && FilesRep(g, disk, chains, t, skip)
  }

  lemma ChainInData(g: Geometry, disk: seq<Sector>, chains: ChainMap, h: nat)
    requires g.Valid(|disk|) && AllChains(Table(g, disk), chains) && h in chains
    ensures AllInData(g, chains[h]) && chains[h] != [] && chains[h][0] == h
  {
  }

  // ---- frames ---------------------------------------------------------------------------

  lemma DirFrame(g: Geometry, disk: seq<Sector>, disk': seq<Sector>, chains: ChainMap, chains': ChainMap, cs: set<nat>,
                 d: nat)
    requires g.Valid(|disk|) && AgreeData(g, disk, disk', cs) && HasLbas(g, chains, d)
    requires d == 0 ==> AgreeOff(g, disk, disk', cs)
    requires d != 0 ==> d in chains' && chains'[d] == chains[d] && forall c :: c in chains[d] ==> c !in cs
    ensures HasLbas(g, chains', d) && Entries(g, disk', chains', d) == Entries(g, disk, chains, d)
  {
    hide ChainLbas;
    var lbas := DirLbas(g, chains, d);
    DirLbasOk(g, disk, chains, d);
    assert LbasOk(disk, lbas);
    forall i | 0 <= i < |lbas| ensures disk'[lbas[i]] == disk[lbas[i]] {
      if d != 0 { ChainLbasIn(g, |disk|, chains[d], i); }
    }
    EntriesFrame(disk, disk', lbas);
  }

  lemma FileRepFrame(g: Geometry, disk: seq<Sector>, disk': seq<Sector>, chains: ChainMap, chains': ChainMap,
                     cs: set<nat>,
                     h: nat, content: seq<Byte>)
    requires g.Valid(|disk|) && AgreeData(g, disk, disk', cs) && FileRep(g, disk, chains, h, content)
    requires h in chains' && chains'[h] == chains[h] && forall c :: c in chains[h] ==> c !in cs
    ensures FileRep(g, disk', chains', h, content)
  {
    FileFrame(g, disk, disk', cs, chains[h], |content|);
  }

  /** Every directory keeps its sectors and its entries. */
  ghost predicate SameDirs(g: Geometry, disk: seq<Sector>, chains: ChainMap, disk': seq<Sector>, chains': ChainMap,
                           t: Tree)
    requires g.Valid(|disk|) && |disk'| == |disk|
  {
    forall d :: d in t.dirs ==>
      && HasLbas(g, chains, d) && HasLbas(g, chains', d) && DirLbas(g, chains', d) == DirLbas(g, chains, d)
      && Entries(g, disk', chains', d) == Entries(g, disk, chains, d)
  }

  // ---- releasing and adding chains ---------------------------------------------------------

  lemma AgreeOffNothing(g: Geometry, d: seq<Sector>, d': seq<Sector>)
    requires 0 < g.spc && AgreeOffTables(g, d, d')
    ensures AgreeOff(g, d, d', {})
  {
  }

  /** `h` has been released: its chain is gone, every other directory and file is in place. */
  ghost predicate Without(g: Geometry, disk: seq<Sector>, disk': seq<Sector>, chains: ChainMap, t: Tree, h: nat)
    requires Rep(g, disk, chains, t, 0)
  {
    && |disk'| == |disk| && ChainsOk(Table(g, disk'), chains - {h})
    && (forall d :: d in t.dirs && (d == 0 || d != h) ==>
          HasLbas(g, chains - {h}, d) && HasLbas(g, chains, d)
          && Entries(g, disk', chains - {h}, d) == Entries(g, disk, chains, d))
    && FilesRep(g, disk', chains - {h}, t, h)
  }

  lemma ReleaseHead(g: Geometry, disk: seq<Sector>, disk': seq<Sector>, chains: ChainMap, t: Tree, h: nat)
    requires Rep(g, disk, chains, t, 0) && h in chains && AgreeOffTables(g, disk, disk')
    ensures Continues(h) && h <= g.maxCluster && LinksInRange(Table(g, disk))
    ensures Table(g, disk') == Released(Table(g, disk), h) ==> Without(g, disk, disk', chains, t, h)
  {
    hide ChainsOk, DirRep, TreeOk, Table, Released, AgreeOffTables, FileRep, AgreeOff, FileAt, Entries;
    DropChain(Table(g, disk), chains, h);
    AgreeOffNothing(g, disk, disk');
    var chains' := chains - {h};
    forall d | d in t.dirs && (d == 0 || d != h)
      ensures HasLbas(g, chains', d) && HasLbas(g, chains, d)
      ensures Entries(g, disk', chains', d) == Entries(g, disk, chains, d)
    {
      DirFrame(g, disk, disk', chains, chains', {}, d);
    }
    forall k | k != h && FileAt(t, k).Some? ensures FileRep(g, disk', chains', k, FileAt(t, k).value) {
      FileNotZero(t, k);
      FileIn(g, disk, chains, t, 0, k);
      FileRepFrame(g, disk, disk', chains, chains', {}, k, FileAt(t, k).value);
    }
  }

  lemma FileNotZero(t: Tree, k: nat)
    requires TreeOk(t) && FileAt(t, k).Some?
    ensures k != 0
  {
    FileHead(t, k);
  }

  /** Releasing the chain of a file leaves every directory and every other file in place. */
  lemma ReleaseFile(g: Geometry, disk: seq<Sector>, disk': seq<Sector>, chains: ChainMap, t: Tree, h: nat)
    requires Rep(g, disk, chains, t, 0) && FileAt(t, h).Some? && h in chains && Without(g, disk, disk', chains, t, h)
    ensures Rep(g, disk', chains - {h}, t, h) && SameDirs(g, disk, chains, disk', chains - {h}, t)
  {
    hide ChainsOk, TreeOk, Table, FileRep, FileAt, Entries, ChainLbas, DirsRep, FilesRep;
    FileHead(t, h);
    ZeroHasNoHome(t);
    assert (chains - {h}).Keys == t.home.Keys - {h};
    SameDirsRep(g, disk, chains, disk', chains - {h}, t);
  }

  lemma ZeroHasNoHome(t: Tree)
    requires TreeOk(t)
    ensures 0 !in t.home
  {
    assert 0 in t.home ==> HomeOk(t, 0);
  }

  lemma FileHead(t: Tree, h: nat)
    requires TreeOk(t) && FileAt(t, h).Some?
    ensures h >= 2 && h !in t.dirs && FileAt(t, h).value != []
  {
    assert HomeOk(t, h);
    NodeAt(t, t.home[h].0, t.home[h].1);
  }

  /** No cluster of a chain is free. */
  lemma FreeFrame(g: Geometry, disk: seq<Sector>, chains: ChainMap, h: nat)
    requires g.Valid(|disk|) && AllChains(Table(g, disk), chains) && h in chains
    ensures forall c :: c in chains[h] ==> c !in FreeClusters(Table(g, disk))
  {
    forall c | c in chains[h] ensures c !in FreeClusters(Table(g, disk)) {
      LinkOfMember(Table(g, disk), chains[h], c);
    }
  }

  /** A represented tree plus one chain, starting at `h`, that no entry names yet (h == 0: none). */
  ghost predicate Pending(g: Geometry, disk: seq<Sector>, chains: ChainMap, t: Tree, skip: nat, h: nat) {
    && g.Valid(|disk|)
    && ChainsOk(Table(g, disk), chains)
    && TreeOk(t)
    && chains.Keys == (t.home.Keys - {skip}) + (if h == 0 then {} else {h})
    && skip !in t.dirs - {0}
    && (h != 0 ==> h >= 2 && h !in t.dirs && (h in t.home ==> h == skip))
    && DirsRep(g, disk, chains, t)
    && FilesRep(g, disk, chains, t, skip)
  }

  lemma SameDirsRep(g: Geometry, disk: seq<Sector>, chains: ChainMap, disk': seq<Sector>, chains': ChainMap, t: Tree)
    requires g.Valid(|disk|) && |disk'| == |disk| && DirsRep(g, disk, chains, t)
    requires SameDirs(g, disk, chains, disk', chains', t)
    ensures DirsRep(g, disk', chains', t)
  {
    hide DirRep, Entries, ChainLbas;
  }

  lemma FreeSameDirs(g: Geometry, disk: seq<Sector>, disk': seq<Sector>, chains: ChainMap, chains': ChainMap, t: Tree)
    requires g.Valid(|disk|) && AllChains(Table(g, disk), chains) && DirsRep(g, disk, chains, t)
    requires AgreeOff(g, disk, disk', FreeClusters(Table(g, disk)))
    requires forall k :: k in chains ==> k in chains' && chains'[k] == chains[k]
    ensures SameDirs(g, disk, chains, disk', chains', t)
  {
    hide DirRep, Table, AgreeOff, FreeClusters, Entries, ChainLbas, AllChains;
    forall d | d in t.dirs
      ensures HasLbas(g, chains, d) && HasLbas(g, chains', d) && DirLbas(g, chains', d) == DirLbas(g, chains, d)
        && Entries(g, disk', chains', d) == Entries(g, disk, chains, d)
    {
      if d != 0 { FreeFrame(g, disk, chains, d); }
      DirFrame(g, disk, disk', chains, chains', FreeClusters(Table(g, disk)), d);
    }
  }

  lemma FreeFilesRep(g: Geometry, disk: seq<Sector>, disk': seq<Sector>, chains: ChainMap, chains': ChainMap, t: Tree,
                     skip: nat)
    requires g.Valid(|disk|) && AllChains(Table(g, disk), chains) && FilesRep(g, disk, chains, t, skip)
    requires AgreeOff(g, disk, disk', FreeClusters(Table(g, disk)))
    requires forall k :: k in chains ==> k in chains' && chains'[k] == chains[k]
    ensures FilesRep(g, disk', chains', t, skip)
  {
    hide Table, AgreeOff, FreeClusters, AllChains, FileAt;
    forall k | k != skip && FileAt(t, k).Some? ensures FileRep(g, disk', chains', k, FileAt(t, k).value) {
      FreeFrame(g, disk, chains, k);
      FileRepFrame(g, disk, disk', chains, chains', FreeClusters(Table(g, disk)), k, FileAt(t, k).value);
    }
  }

  /** A chain built from free clusters disturbs no directory and no file. */
  lemma AddData(g: Geometry, disk: seq<Sector>, disk': seq<Sector>, chains: ChainMap, t: Tree, skip: nat, s: seq<nat>)
    requires Rep(g, disk, chains, t, skip) && s != []
    requires AgreeOff(g, disk, disk', FreeClusters(Table(g, disk))) && Built(Table(g, disk), Table(g, disk'), s)
    ensures Pending(g, disk', chains[s[0] := s], t, skip, s[0])
    ensures SameDirs(g, disk, chains, disk', chains[s[0] := s], t)
  {
    hide TreeOk, Table, AgreeOff, Built, FreeClusters, DirsRep, FilesRep, SameDirs;
    var fat, fat', h := Table(g, disk), Table(g, disk'), s[0];
    BuiltHead(fat, fat', s);
    AddChainBuilt(fat, chains, fat', s);
    var chains' := chains[h := s];
    FreshHead(g, disk, chains, t, h);
    FreeSameDirs(g, disk, disk', chains, chains', t);
    SameDirsRep(g, disk, chains, disk', chains', t);
    FreeFilesRep(g, disk, disk', chains, chains', t, skip);
  }

  lemma FreshHead(g: Geometry, disk: seq<Sector>, chains: ChainMap, t: Tree, h: nat)
    requires g.Valid(|disk|) && DirsRep(g, disk, chains, t) && h !in chains && h != 0
    ensures h !in t.dirs
  {
    assert forall d :: d in t.dirs ==> HasLbas(g, chains, d);
  }

  /** Writing free clusters without changing the table changes nothing that is represented. */
  lemma AddNothing(g: Geometry, disk: seq<Sector>, disk': seq<Sector>, chains: ChainMap, t: Tree, skip: nat)
    requires Rep(g, disk, chains, t, skip)
    requires AgreeOff(g, disk, disk', FreeClusters(Table(g, disk))) && Table(g, disk') == Table(g, disk)
    ensures Rep(g, disk', chains, t, skip) && SameDirs(g, disk, chains, disk', chains, t)
  {
    hide TreeOk, Table, AgreeOff, FreeClusters, DirsRep, FilesRep, SameDirs;
    FreeSameDirs(g, disk, disk', chains, chains, t);
    SameDirsRep(g, disk, chains, disk', chains, t);
    FreeFilesRep(g, disk, disk', chains, chains, t, skip);
  }

  lemma FileIn(g: Geometry, disk: seq<Sector>, chains: ChainMap, t: Tree, skip: nat, k: nat)
    requires Rep(g, disk, chains, t, skip) && k != skip && FileAt(t, k).Some?
    ensures k in chains && FileRep(g, disk, chains, k, FileAt(t, k).value)
  {
  }

  lemma BuiltHead(fat: seq<nat>, fat': seq<nat>, s: seq<nat>)
    requires Built(fat, fat', s) && s != []
    ensures s[0] in s && IsChain(fat', s) && InTable(fat, s[0])
  {
  }

  lemma AddChainBuilt(fat: seq<nat>, chains: ChainMap, fat': seq<nat>, s: seq<nat>)
    requires ChainsOk(fat, chains) && Built(fat, fat', s) && s != []
    ensures s[0] !in chains && ChainsOk(fat', chains[s[0] := s])
  {
    hide ChainsOk, IsChain, CountFree;
    AddChain(fat, chains, fat', s);
  }

  // ---- rewriting one directory entry -----------------------------------------------------------

  /** The sector that holds entry `i` of directory `p`. */
  ghost function EntryLba(g: Geometry, chains: ChainMap, p: nat, i: nat): nat
    requires HasLbas(g, chains, p) && i < 16 * |DirLbas(g, chains, p)|
  {
    DirLbas(g, chains, p)[i / 16]
  }

  /** The disk with entry `i` of directory `p` replaced. */
  ghost function Updated(g: Geometry, disk: seq<Sector>, chains: ChainMap, p: nat, i: nat, e: Dirent): (r: seq<Sector>)
    requires g.Valid(|disk|) && HasLbas(g, chains, p) && i < 16 * |DirLbas(g, chains, p)|
    ensures |r| == |disk|
  {
    DirLbasOk(g, disk, chains, p);
    var l := EntryLba(g, chains, p, i);
    disk[l := Splice(disk[l], 32 * (i % 16), e)]
  }

  lemma DirLbasInjective(g: Geometry, disk: seq<Sector>, chains: ChainMap, p: nat)
    requires g.Valid(|disk|) && AllChains(Table(g, disk), chains) && HasLbas(g, chains, p)
    ensures forall a, b :: 0 <= a < b < |DirLbas(g, chains, p)| ==> DirLbas(g, chains, p)[a] != DirLbas(g, chains, p)[b]
  {
    hide ChainLbas;
    if p != 0 {
      forall a, b | 0 <= a < b < |ChainLbas(g, chains[p])|
        ensures ChainLbas(g, chains[p])[a] != ChainLbas(g, chains[p])[b]
      {
        ChainLbasInjective(g, |disk|, chains[p], a, b);
      }
    }
  }

  lemma UpdatedSelf(g: Geometry, disk: seq<Sector>, chains: ChainMap, p: nat, i: nat, e: Dirent)
    requires g.Valid(|disk|) && AllChains(Table(g, disk), chains) && HasLbas(g, chains, p)
    requires i < |Entries(g, disk, chains, p)|
    ensures var disk' := Updated(g, disk, chains, p, i, e);
      Entries(g, disk', chains, p) == Entries(g, disk, chains, p)[i := e]
  {
    hide AllChains, DirLbas, EntriesOf;
    DirLbasOk(g, disk, chains, p);
    DirLbasInjective(g, disk, chains, p);
    EntriesUpdate(disk, DirLbas(g, chains, p), i, e);
  }

  lemma UpdatedTables(g: Geometry, disk: seq<Sector>, chains: ChainMap, p: nat, i: nat, e: Dirent) returns (c: nat)
    requires g.Valid(|disk|) && HasLbas(g, chains, p) && i < |Entries(g, disk, chains, p)|
    ensures var disk' := Updated(g, disk, chains, p, i, e);
      && SameTables(g, disk, disk') && Table(g, disk') == Table(g, disk)
      && (p == 0 ==> AgreeData(g, disk, disk', {}))
      && (p != 0 ==> c in chains[p] && AgreeOff(g, disk, disk', {c}))
  {
    hide Table, Mirrored, ChainLbas;
    var disk' := Updated(g, disk, chains, p, i, e);
    var l := EntryLba(g, chains, p, i);
    c := 0;
    if p != 0 {
      ChainLbasIn(g, |disk|, chains[p], i / 16);
      c := g.ClusterOf(l);
    }
    SameTablesTable(g, disk, disk');
  }

  lemma UpdatedOther(g: Geometry, disk: seq<Sector>, chains: ChainMap, p: nat, i: nat, e: Dirent, d: nat)
    requires g.Valid(|disk|) && Disjoint(chains) && HasLbas(g, chains, p) && i < |Entries(g, disk, chains, p)|
    requires HasLbas(g, chains, d) && d != p
    ensures Entries(g, Updated(g, disk, chains, p, i, e), chains, d) == Entries(g, disk, chains, d)
  {
    hide Updated, Entries, AgreeOff, AgreeData, Table, Disjoint, EntryLba;
    var c := UpdatedTables(g, disk, chains, p, i, e);
    var disk' := Updated(g, disk, chains, p, i, e);
    if p == 0 {
      DirFrame(g, disk, disk', chains, chains, {}, d);
    } else {
      if d != 0 { NotShared(chains, p, d, c); }
      DirFrame(g, disk, disk', chains, chains, {c}, d);
    }
  }

  lemma NotShared(chains: ChainMap, p: nat, d: nat, c: nat)
    requires Disjoint(chains) && p in chains && d in chains && p != d && c in chains[p]
    ensures c !in chains[d]
  {
    assert Owns(chains, p, c);
    assert c in chains[d] ==> Owns(chains, d, c);
  }

  lemma UpdatedFile(g: Geometry, disk: seq<Sector>, chains: ChainMap, p: nat, i: nat, e: Dirent, h: nat,
                    content: seq<Byte>)
    requires g.Valid(|disk|) && Disjoint(chains) && HasLbas(g, chains, p) && i < |Entries(g, disk, chains, p)|
    requires FileRep(g, disk, chains, h, content) && h != p
    ensures FileRep(g, Updated(g, disk, chains, p, i, e), chains, h, content)
  {
    hide Updated, Entries, AgreeOff, AgreeData, Table, Disjoint, EntryLba, FileBytes;
    var c := UpdatedTables(g, disk, chains, p, i, e);
    var disk' := Updated(g, disk, chains, p, i, e);
    if p == 0 {
      FileRepFrame(g, disk, disk', chains, chains, {}, h, content);
    } else {
      NotShared(chains, p, h, c);
      FileRepFrame(g, disk, disk', chains, chains, {c}, h, content);
    }
  }
}
