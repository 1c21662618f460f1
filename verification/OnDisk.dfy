/** What a represented volume is in bytes, at addresses counted from the start of the disk. */
module OnDisk {
  import opened Options
  import opened Arith
  import opened Bytes
  import opened Chains
  import opened Geometry
  import opened Sectors
  import opened Names
  import opened Tree
  import opened Dirents
  import opened Layout
  import opened FsState

  /** The byte at address `a`. */
  function At(disk: seq<Sector>, a: nat): Byte
    requires a < 512 * |disk|
  {
    disk[a / 512][a % 512]
  }

  /** The `n` bytes from address `a` on. */
  function From(disk: seq<Sector>, a: nat, n: nat): (r: seq<Byte>)
    requires a + n <= 512 * |disk|
    ensures |r| == n && forall i :: 0 <= i < n ==> r[i] == At(disk, a + i)
    decreases n
  {
    if n == 0 then [] else [At(disk, a)] + From(disk, a + 1, n - 1)
  }

  /** Within a sector they are that part of it. */
  lemma InSector(disk: seq<Sector>, l: nat, o: nat, n: nat)
    requires l < |disk| && o + n <= 512
    ensures 512 * l + o + n <= 512 * |disk| && From(disk, 512 * l + o, n) == disk[l][o..o + n]
  {
    hide From;
    var r, x := From(disk, 512 * l + o, n), disk[l][o..o + n];
    forall i | 0 <= i < |r|
      ensures r[i] == x[i]
    {
      SectorAt(l, o + i);
    }
  }

  lemma SectorAt(l: nat, o: nat)
    requires o < 512
    ensures (512 * l + o) / 512 == l && (512 * l + o) % 512 == o
  {
  }

  // ---- the allocation table ---------------------------------------------------------------------

  /** The link of cluster `c` is a 16-bit number, the same in every copy of the table. */
  predicate LinkIs(g: Geometry, disk: seq<Sector>, f: nat, c: nat, v: nat) {
    var a := 512 * (g.fatLba + f * g.fatSectors) + 2 * c;
    a + 2 <= 512 * |disk| && Number(From(disk, a, 2)) == v
  }

  lemma LinkOnDisk(g: Geometry, disk: seq<Sector>, f: nat, c: nat)
    requires g.Valid(|disk|) && Mirrored(g, disk) && f < g.numFats && c <= g.maxCluster
    ensures LinkIs(g, disk, f, c, Table(g, disk)[c])
  {
    hide From, Number, Rd16, Times;
    var s, o := 2 * c / 512, 2 * c % 512;
    FatLbaRange(g, |disk|, f, s);
    FatLbaRange(g, |disk|, 0, s);
    AddressesAre(g, f, s, 2);
    AddressesAre(g, 0, s, 2);
    var l := g.FatLba(f, s);
    assert 512 * (g.fatLba + f * g.fatSectors) + 2 * c == 512 * l + o && disk[l] == disk[g.FatLba(0, s)];
    Rd16Is(disk[l], o);
    InSector(disk, l, o, 2);
  }

  /** Cluster `j` of `s` names the next, or holds an end mark if it is the last. */
  predicate LinksOn(g: Geometry, disk: seq<Sector>, f: nat, s: seq<nat>, j: nat)
    requires j < |s|
  {
    var a := 512 * (g.fatLba + f * g.fatSectors) + 2 * s[j];
    && a + 2 <= 512 * |disk|
    && var v := Number(From(disk, a, 2)); if j < |s| - 1 then v == s[j + 1] else v >= 0xFFF8
  }

  /** The chain `s` as every copy of the table spells it. */
  ghost predicate ChainIs(g: Geometry, disk: seq<Sector>, s: seq<nat>) {
    forall f: nat, j: nat :: f < g.numFats && j < |s| ==> LinksOn(g, disk, f, s, j)
  }

  lemma ChainOnDisk(g: Geometry, disk: seq<Sector>, s: seq<nat>)
    requires g.Valid(|disk|) && Mirrored(g, disk) && IsChain(Table(g, disk), s)
    ensures ChainIs(g, disk, s)
  {
    hide Table, Mirrored, From, Number;
    forall f: nat, j: nat | f < g.numFats && j < |s| ensures LinksOn(g, disk, f, s, j) {
      assert InTable(Table(g, disk), s[j]);
      LinkOnDisk(g, disk, f, s[j]);
    }
  }

  // ---- bytes along a chain ----------------------------------------------------------------------

  /** The byte at offset `o` of cluster `c`; clusters are numbered from 2 on. */
  predicate AddressHas(g: Geometry, disk: seq<Sector>, c: nat, o: nat, b: Byte) {
    c >= 2 && var a := 512 * (g.dataLba + (c - 2) * g.spc) + o; a < 512 * |disk| && At(disk, a) == b
  }

  /** Byte `k` of the chain `s` lies that far into its clusters. */
  lemma ByteAddress(g: Geometry, disk: seq<Sector>, s: seq<nat>, k: nat, b: Byte)
    requires ByteOnDisk(g, disk, s, k, b)
    ensures AddressHas(g, disk, s[Div(k, g.spc * 512)], Mod(k, g.spc * 512), b)
  {
    hide ByteInCluster, AddressHas, Div, Mod, At;
    var cb := g.spc * 512;
    InClusterAddress(g, disk, s[Div(k, cb)], Mod(k, cb), b);
  }

  lemma InClusterAddress(g: Geometry, disk: seq<Sector>, c: nat, o: nat, b: Byte)
    requires ByteInCluster(g, disk, c, o, b)
    ensures AddressHas(g, disk, c, o, b)
  {
    AddressesAre(g, 0, 0, c);
  }

  // ---- directories -------------------------------------------------------------------------------

  /** Entry `i` of the root is the 32 bytes at that place of the root area. */
  lemma RootEntry(g: Geometry, disk: seq<Sector>, chains: ChainMap, i: nat)
    requires g.Valid(|disk|) && i < |Entries(g, disk, chains, 0)|
    ensures 512 * g.rootLba + 32 * i + 32 <= 512 * |disk|
    ensures Entries(g, disk, chains, 0)[i] == From(disk, 512 * g.rootLba + 32 * i, 32)
  {
    hide From;
    DirLbasOk(g, disk, chains, 0);
    var l, o := g.rootLba + i / 16, 32 * (i % 16);
    assert DirLbas(g, chains, 0)[i / 16] == l && l < |disk|;
    assert 512 * g.rootLba + 32 * i == 512 * l + o;
    InSector(disk, l, o, 32);
  }

  /** In a subdirectory it is bytes 32 i to 32 i + 31 of the chain. */
  lemma SubEntry(g: Geometry, disk: seq<Sector>, chains: ChainMap, d: nat, i: nat, x: nat)
    requires g.Valid(|disk|) && d != 0 && HasLbas(g, chains, d) && i < |Entries(g, disk, chains, d)| && x < 32
    ensures ByteOnDisk(g, disk, chains[d], 32 * i + x, Entries(g, disk, chains, d)[i][x])
  {
    hide ByteInCluster, Div, Mod, ChainLbas, Times, EntryAt;
    var s, cb := chains[d], g.spc * 512;
    DirLbasOk(g, disk, chains, d);
    var k, j := EntryPlace(g, |s|, i);
    ChainLbasAt(g, s, k, j);
    TimesIsProduct(k, g.spc);
    var o := 512 * j + 32 * (i % 16) + x;
    Regroup(k, g.spc, j, i, x);
    DivUnique(32 * i + x, cb, k, o);
    ClusterRange(g, |disk|, s[k], j);
    EntryByte(g, disk, s[k], j, i % 16, x);
  }

  lemma EntryByte(g: Geometry, disk: seq<Sector>, c: nat, j: nat, i: nat, x: nat)
    requires c >= 2 && g.ClusterLba(c) + j < |disk| && i < 16 && x < 32
    ensures ByteInCluster(g, disk, c, 512 * j + 32 * i + x, EntryAt(disk[g.ClusterLba(c) + j], i)[x])
  {
    var o := 512 * j + 32 * i + x;
    assert o / 512 == j && o % 512 == 32 * i + x;
  }

  lemma Regroup(k: nat, spc: nat, j: nat, i: nat, x: nat)
    requires i / 16 == k * spc + j
    ensures 32 * i + x == k * (spc * 512) + (512 * j + 32 * (i % 16) + x)
  {
    assert k * (spc * 512) == 512 * (k * spc);
    assert i == 16 * (i / 16) + i % 16;
  }

  /** The cluster and the sector in it that hold entry `i`. */
  lemma EntryPlace(g: Geometry, n: nat, i: nat) returns (k: nat, j: nat)
    requires 0 < g.spc && i < 16 * Times(n, g.spc)
    ensures k < n && j < g.spc && i / 16 == k * g.spc + j
  {
    var q := i / 16;
    k, j := q / g.spc, q % g.spc;
    TimesIsProduct(n, g.spc);
    assert q == k * g.spc + j;
    if k >= n {
      if k > n { ProductOrder(n, k, g.spc); }
      assert false;
    }
  }

  /**
   * Entry `i` carries the name `nm`: no end marker up to it, not deleted, and neither
   * a volume label nor a part of a long name, both of which have bit 3 of byte 11.
   */
  predicate Carries(es: seq<Dirent>, i: nat, nm: Name) {
    && i < |es| && (forall j :: 0 <= j <= i ==> es[j][0] != 0)
    && es[i][0] != 0xE5 && es[i][11] / 8 % 2 == 0 && es[i][..11] == nm
  }

  /** Its other fields: bit 4 of byte 11 for a directory, first cluster at 26, size at 28. */
  ghost predicate Describes(e: Dirent, n: Node) {
    match n
    case Sub(id) => e[11] / 16 % 2 == 1 && Number(e[26..28]) == id
    case File(h, content) => e[11] / 16 % 2 == 0 && Number(e[26..28]) == h && Number(e[28..32]) == |content|
  }

  /** The names of a directory are those its entries carry, each once, with the node the entry describes. */
  lemma DirectoryOnDisk(es: seq<Dirent>, d: nat, dir: Dir, nm: Name)
    requires DirRep(es, d, dir) && nm[0] != 46
    ensures nm in dir.entries <==> exists i: nat :: Carries(es, i, nm)
    ensures forall i: nat, j: nat :: Carries(es, i, nm) && Carries(es, j, nm) ==> i == j
    ensures forall i: nat :: Carries(es, i, nm) ==> nm in dir.entries && Describes(es[i], dir.entries[nm])
  {
    hide Find, Dots, Describes, NodeRep, Listed;
    forall i: nat | Carries(es, i, nm) ensures nm in dir.entries && Describes(es[i], dir.entries[nm]) {
      assert InUse(es[i]) && NameOf(es[i])[0] == es[i][0];
      FieldsRead(es[i], dir.entries[nm]);
    }
    if nm in dir.entries {
      assert Listed(es, nm);
      var i := ListedCarries(es, nm);
    }
  }

  lemma FieldsRead(e: Dirent, n: Node)
    requires NodeRep(e, n)
    ensures Describes(e, n)
  {
    Rd16Is(e, 26);
    Rd32Is(e, 28);
  }

  lemma ListedCarries(es: seq<Dirent>, nm: Name) returns (i: nat)
    requires EndOk(es) && Listed(es, nm)
    ensures Carries(es, i, nm)
  {
    i :| i < |es| && InUse(es[i]) && NameOf(es[i]) == nm;
  }

  /** "." and ".." are the first two entries of a subdirectory; the root has none. */
  lemma DotsOnDisk(es: seq<Dirent>, d: nat, dir: Dir)
    requires DirRep(es, d, dir)
    ensures d != 0 ==>
      && Carries(es, 0, [46, 32, 32, 32, 32, 32, 32, 32, 32, 32, 32]) && Describes(es[0], Sub(d))
      && Carries(es, 1, [46, 46, 32, 32, 32, 32, 32, 32, 32, 32, 32]) && Describes(es[1], Sub(dir.parent))
    ensures forall i: nat, nm: Name :: Carries(es, i, nm) && nm[0] == 46 ==> d != 0 && i < 2
  {
    if d != 0 {
      assert DOT_NAME == [46, 32, 32, 32, 32, 32, 32, 32, 32, 32, 32];
      assert DOTDOT_NAME == [46, 46, 32, 32, 32, 32, 32, 32, 32, 32, 32];
      Rd16Is(es[0], 26);
      Rd16Is(es[1], 26);
    }
    forall i: nat, nm: Name | Carries(es, i, nm) && nm[0] == 46 ensures d != 0 && i < 2 {
      assert InUse(es[i]) && IsDotEnt(es[i]);
    }
  }

  /**
   * A file of a represented tree, in bytes: one entry of its directory carries its
   * name, its first cluster and its size; the table chains its clusters to an end
   * mark; and its contents lie along them.
   */
  lemma FileSpelledOut(g: Geometry, disk: seq<Sector>, chains: ChainMap, t: Tree, d: nat, nm: Name) returns (i: nat)
    requires Rep(g, disk, chains, t, 0) && Mirrored(g, disk) && t.Has(d, nm) && t.At(d, nm).File?
    ensures HasLbas(g, chains, d) && Carries(Entries(g, disk, chains, d), i, nm)
    ensures Describes(Entries(g, disk, chains, d)[i], t.At(d, nm))
    ensures var n := t.At(d, nm); if n.head == 0 then n.content == []
      else
        && n.head in chains && chains[n.head] != [] && chains[n.head][0] == n.head && ChainIs(g, disk, chains[n.head])
        && DataOnDisk(g, disk, chains[n.head], n.content)
  {
    hide DirRep, Mirrored, Table, ChainIs, DataOnDisk, IsChain, Carries, Describes, FileBytes;
    var n := t.At(d, nm);
    NodeAt(t, d, nm);
    DirectoryOnDisk(Entries(g, disk, chains, d), d, t.dirs[d], nm);
    i :| Carries(Entries(g, disk, chains, d), i, nm);
    if n.head != 0 {
      assert FileAt(t, n.head) == Some(n.content);
      ChainInData(g, disk, chains, n.head);
      ChainOnDisk(g, disk, chains[n.head]);
      FileOnDisk(g, disk, chains[n.head], |n.content|);
    }
  }
}
