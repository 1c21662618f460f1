/** Directory iteration: one raw entry after another, through the root area or along a chain. */
module DirScan {
  import opened Options
  import opened Arith
  import opened Chains
  import opened Geometry
  import opened Sectors
  import opened Volume
  import opened Names
  import opened Dirents
  import opened Layout
  import opened FsState

  /** Where a directory entry lives on disk. */
  datatype Loc = Loc(lba: nat, off: nat)

  /** Position of an iteration: current cluster (0: root area), sector in it and entry in that. */
  datatype DirIter = DirIter(cluster: nat, sector: nat, entry: nat)

  /** The sectors of `d` follow each other along the links; what comes behind the last is another matter. */
  ghost predicate Linked(vol: FatVolume, chains: ChainMap, d: nat)
    reads vol
  {
    && vol.Valid() && HasLbas(vol.g, chains, d)
    && (d != 0 ==> IsPath(vol.Fat(), chains[d]) && chains[d][0] == d)
  }

  ghost function EntriesIn(vol: FatVolume, chains: ChainMap, d: nat): seq<Dirent>
    requires Linked(vol, chains, d)
    reads vol
  {
    Entries(vol.g, vol.disk, chains, d)
  }

  /** The last link of `d` is an end mark. */
  ghost predicate Closed(vol: FatVolume, chains: ChainMap, d: nat)
    requires Linked(vol, chains, d)
    reads vol
  {
    d != 0 ==> IsEoc(vol.Fat()[chains[d][|chains[d]| - 1]])
  }

  predicate HasEnd(es: seq<Dirent>) { exists j :: 0 <= j < |es| && es[j][0] == 0 }

  /** A scan of `d` stops inside it: at an end marker, if there is nothing to end the chain. */
  ghost predicate Scannable(vol: FatVolume, chains: ChainMap, d: nat)
    reads vol
  {
    Linked(vol, chains, d) && (Closed(vol, chains, d) || HasEnd(EntriesIn(vol, chains, d)))
  }

  /** `it`, in the `k`-th cluster of directory `d`, is about to deliver entry `i`. */
  ghost predicate IterAt(g: Geometry, chains: ChainMap, d: nat, it: DirIter, k: nat, i: nat) {
    && it.entry <= 16
    && if d == 0 then
         && it.cluster == 0 && it.sector <= g.rootSectors && (it.sector == g.rootSectors ==> it.entry == 0)
         && i == 16 * it.sector + it.entry
       else
         && d in chains && k < |chains[d]| && it.cluster == chains[d][k]
         && it.sector <= g.spc && (it.sector == g.spc ==> it.entry == 0)
         && i == 16 * (Times(k, g.spc) + it.sector) + it.entry
  }

  function DirBegin(d: nat): DirIter { DirIter(d, 0, 0) }

  lemma BeginAt(vol: FatVolume, chains: ChainMap, d: nat)
    requires Linked(vol, chains, d)
    ensures IterAt(vol.g, chains, d, DirBegin(d), 0, 0)
  {
  }

  lemma ChainNext(fat: seq<nat>, s: seq<nat>, k: nat)
    requires |fat| <= 0xFFF7 && IsPath(fat, s) && k < |s|
    ensures s[k] < |fat| && s[k] >= 2
    ensures IsEoc(fat[s[k]]) ==> k == |s| - 1
    ensures k < |s| - 1 ==> fat[s[k]] == s[k + 1]
  {
    if k < |s| - 1 {
      assert InTable(fat, s[k + 1]);
    }
  }

  lemma EntryHere(vol: FatVolume, chains: ChainMap, d: nat, it: DirIter, k: nat, i: nat)
    requires Linked(vol, chains, d) && IterAt(vol.g, chains, d, it, k, i) && it.entry < 16
    requires if d == 0 then it.sector < vol.g.rootSectors else it.sector < vol.g.spc
    ensures i < |EntriesIn(vol, chains, d)|
    ensures var lba := if d == 0 then vol.g.rootLba + it.sector else vol.g.ClusterLba(chains[d][k]) + it.sector;
      && lba == EntryLba(vol.g, chains, d, i) && lba < |vol.disk|
      && EntryAt(vol.disk[lba], it.entry) == EntriesIn(vol, chains, d)[i]
    ensures it.entry == i % 16
  {
    DirLbasOk(vol.g, vol.disk, chains, d);
    if d != 0 {
      ChainLbasAt(vol.g, chains[d], k, it.sector);
      assert i / 16 == Times(k, vol.g.spc) + it.sector;
    } else {
      assert i / 16 == it.sector;
    }
  }

  lemma AtEnd(vol: FatVolume, chains: ChainMap, d: nat, it: DirIter, k: nat, i: nat)
    requires Linked(vol, chains, d) && IterAt(vol.g, chains, d, it, k, i)
    requires if d == 0 then it.sector >= vol.g.rootSectors else it.sector >= vol.g.spc && k == |chains[d]| - 1
    ensures i == |EntriesIn(vol, chains, d)|
  {
  }

  /** dir_next: delivers the next raw entry and its location, or reports the end; not past an open end. */
  method DirNext(vol: FatVolume, it: DirIter, ghost chains: ChainMap, ghost d: nat, ghost k: nat, ghost i: nat)
    returns (more: bool, next: DirIter, e: Dirent, loc: Loc, ghost k': nat)
    requires Linked(vol, chains, d) && IterAt(vol.g, chains, d, it, k, i)
    requires Closed(vol, chains, d) || i < |EntriesIn(vol, chains, d)|
    ensures more <==> i < |EntriesIn(vol, chains, d)|
    ensures i <= |EntriesIn(vol, chains, d)|
    ensures more ==> IterAt(vol.g, chains, d, next, k', i + 1)
    ensures more ==> e == EntriesIn(vol, chains, d)[i] && loc == Loc(EntryLba(vol.g, chains, d, i), 32 * (i % 16))
  {
    hide Entries, EntryLba, ChainLbas, IsPath, Table, Mirrored, Closed, IterAt;
    next, k' := it, k;
    e, loc := EMPTY_ENTRY, Loc(0, 0);
    while true
      invariant IterAt(vol.g, chains, d, next, k', i)
      decreases next.entry
    {
      var lba;
      if next.cluster == 0 {
        InRoot(vol, chains, d, next, k', i);
        if next.sector >= vol.g.rootSectors {
          AtEnd(vol, chains, d, next, k', i);
          return false, next, e, loc, k';
        }
        lba := vol.g.rootLba + next.sector;
      } else {
        if next.sector >= vol.g.spc {
          NextCluster(vol, chains, d, next, k', i);
          var c := vol.FatGet(next.cluster);
          if IsEoc(c) {
            return false, next, e, loc, k';
          }
          next := next.(cluster := c, sector := 0);
          k' := k' + 1;
        }
        InChain(vol, chains, d, next, k', i);
        lba := vol.g.ClusterLba(next.cluster) + next.sector;
      }
      if next.entry < 16 {
        EntryHere(vol, chains, d, next, k', i);
        loc := Loc(lba, next.entry * 32);
        e := EntryAt(vol.disk[lba], next.entry);
        EntryTaken(vol, chains, d, next, k', i);
        next := next.(entry := next.entry + 1);
        return true, next, e, loc, k';
      }
      SectorDone(vol, chains, d, next, k', i);
      next := next.(entry := 0, sector := next.sector + 1);
    }
  }

  /** At the end of a cluster: the chain ends here, or the next cluster follows. */
  lemma NextCluster(vol: FatVolume, chains: ChainMap, d: nat, it: DirIter, k: nat, i: nat)
    requires Linked(vol, chains, d) && IterAt(vol.g, chains, d, it, k, i) && it.cluster != 0 && it.sector >= vol.g.spc
    requires Closed(vol, chains, d) || i < |EntriesIn(vol, chains, d)|
    ensures it.cluster < |vol.Fat()|
    ensures IsEoc(vol.Fat()[it.cluster]) ==> i == |EntriesIn(vol, chains, d)|
    ensures !IsEoc(vol.Fat()[it.cluster]) ==> vol.Fat()[it.cluster] >= 2
    ensures !IsEoc(vol.Fat()[it.cluster]) ==>
      IterAt(vol.g, chains, d, it.(cluster := vol.Fat()[it.cluster], sector := 0), k + 1, i)
  {
    hide IsPath, Table, Entries;
    assert d != 0;
    ChainNext(vol.Fat(), chains[d], k);
    if k == |chains[d]| - 1 {
      AtEnd(vol, chains, d, it, k, i);
    } else {
      assert Times(k + 1, vol.g.spc) == vol.g.spc + Times(k, vol.g.spc);
      ChainNext(vol.Fat(), chains[d], k + 1);
    }
  }

  lemma InChain(vol: FatVolume, chains: ChainMap, d: nat, it: DirIter, k: nat, i: nat)
    requires Linked(vol, chains, d) && IterAt(vol.g, chains, d, it, k, i) && it.cluster != 0
    ensures d != 0 && it.cluster >= 2 && d in chains && k < |chains[d]| && it.cluster == chains[d][k]
  {
    hide IsPath, Table;
    assert d != 0;
    ChainNext(vol.Fat(), chains[d], k);
  }

  lemma EntryTaken(vol: FatVolume, chains: ChainMap, d: nat, it: DirIter, k: nat, i: nat)
    requires Linked(vol, chains, d) && IterAt(vol.g, chains, d, it, k, i) && it.entry < 16
    requires if d == 0 then it.sector < vol.g.rootSectors else it.sector < vol.g.spc
    ensures IterAt(vol.g, chains, d, it.(entry := it.entry + 1), k, i + 1)
  {
  }

  lemma SectorDone(vol: FatVolume, chains: ChainMap, d: nat, it: DirIter, k: nat, i: nat)
    requires Linked(vol, chains, d) && IterAt(vol.g, chains, d, it, k, i) && it.entry >= 16
    ensures IterAt(vol.g, chains, d, it.(entry := 0, sector := it.sector + 1), k, i)
  {
  }

  /** A chain can be scanned. */
  lemma ChainScannable(vol: FatVolume, chains: ChainMap, d: nat)
    requires vol.Valid() && HasLbas(vol.g, chains, d)
    requires d != 0 ==> IsChain(vol.Fat(), chains[d]) && chains[d][0] == d
    ensures Scannable(vol, chains, d)
  {
    hide Entries, IsPath;
  }

  lemma InRoot(vol: FatVolume, chains: ChainMap, d: nat, it: DirIter, k: nat, i: nat)
    requires Linked(vol, chains, d) && IterAt(vol.g, chains, d, it, k, i) && it.cluster == 0
    ensures d == 0
  {
  }

  /** The scan of dir_find. */
  method FindEntry(vol: FatVolume, d: nat, nm: Name, ghost chains: ChainMap)
    returns (found: bool, e: Dirent, loc: Loc, ghost i: nat)
    requires Scannable(vol, chains, d)
    ensures found <==> Find(EntriesIn(vol, chains, d), nm, 0).Some?
    ensures found ==> Find(EntriesIn(vol, chains, d), nm, 0) == Some(i)
    ensures found ==> e == EntriesIn(vol, chains, d)[i] && loc == Loc(EntryLba(vol.g, chains, d, i), 32 * (i % 16))
  {
    hide Entries, IterAt, EntryLba, Linked, Closed, DirLbas;
    ghost var es := EntriesIn(vol, chains, d);
    var it, more := DirBegin(d), true;
    BeginAt(vol, chains, d);
    ghost var k := 0;
    i := 0;
    while true
      invariant i <= |es| && IterAt(vol.g, chains, d, it, k, i) && Find(es, nm, i) == Find(es, nm, 0)
      invariant forall j :: 0 <= j < i ==> es[j][0] != 0
      decreases |es| - i
    {
      more, it, e, loc, k := DirNext(vol, it, chains, d, k, i);
      if !more || e[0] == 0 {
        return false, e, loc, i;
      }
      if InUse(e) && NameOf(e) == nm {
        return true, e, loc, i;
      }
      i := i + 1;
    }
  }

  /** dir_free_slot. */
  method FindSlot(vol: FatVolume, d: nat, ghost chains: ChainMap) returns (found: bool, loc: Loc, ghost i: nat)
    requires Scannable(vol, chains, d)
    ensures found <==> FreeSlot(EntriesIn(vol, chains, d), 0).Some?
    ensures found ==> FreeSlot(EntriesIn(vol, chains, d), 0) == Some(i)
    ensures found ==> loc == Loc(EntryLba(vol.g, chains, d, i), 32 * (i % 16))
  {
    hide Entries, IterAt, EntryLba, Linked, Closed, DirLbas;
    ghost var es := EntriesIn(vol, chains, d);
    var it := DirBegin(d);
    var more, e;
    BeginAt(vol, chains, d);
    ghost var k := 0;
    i := 0;
    while true
      invariant i <= |es| && IterAt(vol.g, chains, d, it, k, i) && FreeSlot(es, i) == FreeSlot(es, 0)
      invariant forall j :: 0 <= j < i ==> es[j][0] != 0
      decreases |es| - i
    {
      more, it, e, loc, k := DirNext(vol, it, chains, d, k, i);
      if !more {
        return false, loc, i;
      }
      if e[0] == 0 || e[0] == DELETED {
        return true, loc, i;
      }
      i := i + 1;
    }
  }

  /** The emptiness scan of fat_rm. */
  method HasChildren(vol: FatVolume, d: nat, ghost chains: ChainMap) returns (r: bool)
    requires Scannable(vol, chains, d)
    ensures r <==> Occupied(EntriesIn(vol, chains, d), 0)
  {
    hide Entries, IterAt, EntryLba, Linked, Closed, DirLbas;
    ghost var es := EntriesIn(vol, chains, d);
    var it := DirBegin(d);
    var more, e, loc;
    BeginAt(vol, chains, d);
    ghost var k, i := 0, 0;
    while true
      invariant 0 <= i <= |es| && IterAt(vol.g, chains, d, it, k, i) && Occupied(es, i) == Occupied(es, 0)
      invariant forall j :: 0 <= j < i ==> es[j][0] != 0
      decreases |es| - i
    {
      more, it, e, loc, k := DirNext(vol, it, chains, d, k, i);
      if !more || e[0] == 0 {
        return false;
      }
      if InUse(e) && !IsDotEnt(e) {
        return true;
      }
      i := i + 1;
    }
  }
}
