/** What the sectors of a partition mean: the mirrored table, cluster contents and the bytes along a chain. */
module Sectors {
  import opened Arith
  import opened Bytes
  import opened Chains
  import opened Geometry

  /** Entry `c` of the first copy of the allocation table. */
  function FatAt(g: Geometry, disk: seq<Sector>, c: nat): (v: nat)
    requires g.Valid(|disk|) && c <= g.maxCluster
    ensures v < 0x10000
  {
    FatLbaRange(g, |disk|, 0, 2 * c / 512);
    Rd16(disk[g.fatLba + 2 * c / 512], 2 * c % 512)
  }

  function Table(g: Geometry, disk: seq<Sector>): (fat: seq<nat>)
    requires g.Valid(|disk|)
    ensures |fat| == g.maxCluster + 1 && TableOk(fat)
  {
    seq(g.maxCluster + 1, c requires 0 <= c <= g.maxCluster => FatAt(g, disk, c))
  }

  /** All copies of the allocation table are identical. */
  ghost predicate Mirrored(g: Geometry, disk: seq<Sector>)
    requires g.Valid(|disk|)
  {
    forall f: nat, s: nat | f < g.numFats && s < g.fatSectors ::
      g.FatLba(f, s) < |disk| && g.FatLba(0, s) < |disk| && disk[g.FatLba(f, s)] == disk[g.FatLba(0, s)]
  }

  predicate InTables(g: Geometry, l: nat) { g.fatLba <= l < g.rootLba }

  /** The disks differ at most in the allocation tables and in clusters of `cs`. */
  ghost predicate AgreeOff(g: Geometry, d: seq<Sector>, d': seq<Sector>, cs: set<nat>): (r: bool)
    requires 0 < g.spc
    ensures r ==> |d'| == |d|
    ensures d == d' ==> r
  {
    && |d'| == |d|
    && forall l :: 0 <= l < |d| && !InTables(g, l) && (l < g.dataLba || g.ClusterOf(l) !in cs) ==> d'[l] == d[l]
  }

  /** The disks agree on every cluster outside `cs`. */
  ghost predicate AgreeData(g: Geometry, d: seq<Sector>, d': seq<Sector>, cs: set<nat>): (r: bool)
    requires 0 < g.spc
    ensures r ==> |d'| == |d|
    ensures AgreeOff(g, d, d', cs) && g.rootLba <= g.dataLba ==> r
  {
    && |d'| == |d|
    && forall l :: g.dataLba <= l < |d| && g.ClusterOf(l) !in cs ==> d'[l] == d[l]
  }

  /** The disks differ at most in the allocation tables. */
  ghost predicate AgreeOffTables(g: Geometry, d: seq<Sector>, d': seq<Sector>): (r: bool)
    ensures r ==> |d'| == |d|
    ensures d == d' ==> r
  {
    |d'| == |d| && forall l :: 0 <= l < |d| && !InTables(g, l) ==> d'[l] == d[l]
  }

  /** The disks differ only outside the allocation tables. */
  ghost predicate SameTables(g: Geometry, d: seq<Sector>, d': seq<Sector>) {
    |d'| == |d| && forall l :: 0 <= l < |d| && InTables(g, l) ==> d'[l] == d[l]
  }

  lemma SameTablesTable(g: Geometry, d: seq<Sector>, d': seq<Sector>)
    requires g.Valid(|d|) && SameTables(g, d, d')
    ensures Table(g, d') == Table(g, d)
    ensures Mirrored(g, d) ==> Mirrored(g, d')
  {
    forall c | 0 <= c <= g.maxCluster ensures FatAt(g, d', c) == FatAt(g, d, c) {
      FatLbaRange(g, |d|, 0, 2 * c / 512);
    }
    if Mirrored(g, d) {
      forall f: nat, s: nat | f < g.numFats && s < g.fatSectors
        ensures g.FatLba(f, s) < |d'| && g.FatLba(0, s) < |d'| && d'[g.FatLba(f, s)] == d'[g.FatLba(0, s)]
      {
        FatLbaRange(g, |d|, f, s);
        FatLbaRange(g, |d|, 0, s);
      }
    }
  }

  // ---- cluster contents -------------------------------------------------------

  function Flatten(ss: seq<Sector>): (r: seq<Byte>)
    ensures |r| == |ss| * 512
  {
    if ss == [] then [] else ss[0] + Flatten(ss[1..])
  }

  /** The sectors that a buffer of whole sectors is written to. */
  function Chunk(buf: seq<Byte>): (ss: seq<Sector>)
    requires |buf| % 512 == 0
    ensures |ss| == |buf| / 512
  {
    if buf == [] then [] else [buf[..512]] + Chunk(buf[512..])
  }

  lemma {:induction false} FlattenChunk(buf: seq<Byte>)
    requires |buf| % 512 == 0
    ensures Flatten(Chunk(buf)) == buf
  {
    if buf != [] {
      FlattenChunk(buf[512..]);
      assert Chunk(buf)[1..] == Chunk(buf[512..]);
      assert buf == buf[..512] + buf[512..];
    }
  }

  /** Sectors lie one behind the other. */
  lemma {:induction false} FlattenAt(ss: seq<Sector>, k: nat)
    requires k < |ss| * 512
    ensures Flatten(ss)[k] == ss[k / 512][k % 512]
    decreases |ss|
  {
    if k >= 512 {
      FlattenAt(ss[1..], k - 512);
    }
  }

  function ClusterSectors(g: Geometry, disk: seq<Sector>, c: nat): (ss: seq<Sector>)
    requires g.Valid(|disk|) && g.InData(c)
    ensures |ss| == g.spc
  {
    ClusterRange(g, |disk|, c, 0);
    disk[g.ClusterLba(c)..g.ClusterLba(c) + g.spc]
  }

  function ClusterData(g: Geometry, disk: seq<Sector>, c: nat): (r: seq<Byte>)
    requires g.Valid(|disk|) && g.InData(c)
    ensures |r| == g.ClusterBytes()
  {
    Flatten(ClusterSectors(g, disk, c))
  }

  predicate AllInData(g: Geometry, s: seq<nat>) {
    forall i :: 0 <= i < |s| ==> g.InData(s[i])
  }

  /** The first `size` bytes stored along the clusters `s`. */
  function FileBytes(g: Geometry, disk: seq<Sector>, s: seq<nat>, size: nat): (r: seq<Byte>)
    requires g.Valid(|disk|) && AllInData(g, s)
    ensures |r| <= size
    decreases |s|
  {
    if size == 0 || s == [] then []
    else
      var n := Min(size, g.ClusterBytes());
      ClusterData(g, disk, s[0])[..n] + FileBytes(g, disk, s[1..], size - n)
  }

  lemma ClusterByte(g: Geometry, disk: seq<Sector>, c: nat, o: nat)
    requires g.Valid(|disk|) && g.InData(c) && o < g.ClusterBytes()
    ensures g.ClusterLba(c) + o / 512 < |disk|
    ensures ClusterData(g, disk, c)[o] == disk[g.ClusterLba(c) + o / 512][o % 512]
  {
    ClusterRange(g, |disk|, c, o / 512);
    FlattenAt(ClusterSectors(g, disk, c), o);
  }

  /** `b` is the byte at offset `o` of cluster `c`, whose sectors lie one behind the other. */
  predicate ByteInCluster(g: Geometry, disk: seq<Sector>, c: nat, o: nat, b: Byte) {
    c >= 2 && var l := g.ClusterLba(c) + o / 512; l < |disk| && disk[l][o % 512] == b
  }

  /** `b` is the byte at place `k` of the chain `s`, whose clusters follow each other. */
  predicate ByteOnDisk(g: Geometry, disk: seq<Sector>, s: seq<nat>, k: nat, b: Byte) {
    var cb := g.spc * 512;
    cb > 0 && Div(k, cb) < |s| && ByteInCluster(g, disk, s[Div(k, cb)], Mod(k, cb), b)
  }

  /** Where byte `k` of a file lies. */
  lemma {:induction false} FileByte(g: Geometry, disk: seq<Sector>, s: seq<nat>, size: nat, k: nat)
    requires g.Valid(|disk|) && AllInData(g, s) && k < |FileBytes(g, disk, s, size)|
    ensures ByteOnDisk(g, disk, s, k, FileBytes(g, disk, s, size)[k])
    decreases |s|
  {
    hide ClusterData, FileBytes, ByteOnDisk;
    var cb := g.ClusterBytes();
    FileBytesStep(g, disk, s, size);
    if k < cb {
      FirstByte(g, disk, s, k);
    } else {
      FileByte(g, disk, s[1..], size - cb, k - cb);
      LaterByte(g, disk, s, k, FileBytes(g, disk, s, size)[k]);
    }
  }

  lemma FirstByte(g: Geometry, disk: seq<Sector>, s: seq<nat>, k: nat)
    requires g.Valid(|disk|) && AllInData(g, s) && s != [] && k < g.ClusterBytes()
    ensures ByteOnDisk(g, disk, s, k, ClusterData(g, disk, s[0])[k])
  {
    hide ClusterData, Div, Mod;
    DivStep(k, g.ClusterBytes());
    ClusterByte(g, disk, s[0], k);
  }

  lemma LaterByte(g: Geometry, disk: seq<Sector>, s: seq<nat>, k: nat, b: Byte)
    requires s != [] && k >= g.spc * 512 && ByteOnDisk(g, disk, s[1..], k - g.spc * 512, b)
    ensures ByteOnDisk(g, disk, s, k, b)
  {
    hide ByteInCluster, Div, Mod;
    DivStep(k, g.spc * 512);
  }

  /** All of `data` lies along `s` in this way. */
  ghost predicate DataOnDisk(g: Geometry, disk: seq<Sector>, s: seq<nat>, data: seq<Byte>) {
    forall k :: 0 <= k < |data| ==> ByteOnDisk(g, disk, s, k, data[k])
  }

  lemma FileOnDisk(g: Geometry, disk: seq<Sector>, s: seq<nat>, size: nat)
    requires g.Valid(|disk|) && AllInData(g, s)
    ensures DataOnDisk(g, disk, s, FileBytes(g, disk, s, size))
  {
    hide ByteOnDisk;
    var data := FileBytes(g, disk, s, size);
    forall k | 0 <= k < |data| ensures ByteOnDisk(g, disk, s, k, data[k]) { FileByte(g, disk, s, size, k); }
  }

  lemma FileBytesStep(g: Geometry, disk: seq<Sector>, s: seq<nat>, size: nat)
    requires g.Valid(|disk|) && AllInData(g, s)
    ensures size == 0 || s == [] ==> FileBytes(g, disk, s, size) == []
    ensures size > 0 && s != [] ==>
      && g.InData(s[0]) && AllInData(g, s[1..])
      && var n := Min(size, g.ClusterBytes());
         FileBytes(g, disk, s, size) == ClusterData(g, disk, s[0])[..n] + FileBytes(g, disk, s[1..], size - n)
  {
  }

  lemma ClusterFrame(g: Geometry, d: seq<Sector>, d': seq<Sector>, cs: set<nat>, c: nat)
    requires g.Valid(|d|) && AgreeData(g, d, d', cs) && g.InData(c) && c !in cs
    ensures ClusterSectors(g, d', c) == ClusterSectors(g, d, c)
  {
    ClusterRange(g, |d|, c, 0);
    var l := g.ClusterLba(c);
    var s, s' := d[l..l + g.spc], d'[l..l + g.spc];
    forall j | 0 <= j < g.spc ensures s'[j] == s[j] {
      ClusterRange(g, |d|, c, j);
    }
  }

  /** Bytes along a chain only depend on the clusters of the chain. */
  lemma {:induction false} FileFrame(g: Geometry, d: seq<Sector>, d': seq<Sector>, cs: set<nat>, s: seq<nat>, size: nat)
    requires g.Valid(|d|) && AgreeData(g, d, d', cs) && AllInData(g, s)
    requires forall i :: 0 <= i < |s| ==> s[i] !in cs
    ensures FileBytes(g, d', s, size) == FileBytes(g, d, s, size)
    decreases |s|
  {
    if size != 0 && s != [] {
      ClusterFrame(g, d, d', cs, s[0]);
      FileFrame(g, d, d', cs, s[1..], size - Min(size, g.ClusterBytes()));
    }
  }

  /** One more cluster behind a full chain appends its bytes. */
  lemma {:induction false} FileAppend(g: Geometry, disk: seq<Sector>, s: seq<nat>, c: nat, n: nat)
    requires g.Valid(|disk|) && AllInData(g, s) && g.InData(c) && n <= g.ClusterBytes()
    ensures |FileBytes(g, disk, s, Times(|s|, g.ClusterBytes()))| == Times(|s|, g.ClusterBytes())
    ensures FileBytes(g, disk, s + [c], Times(|s|, g.ClusterBytes()) + n)
         == FileBytes(g, disk, s, Times(|s|, g.ClusterBytes())) + ClusterData(g, disk, c)[..n]
    decreases |s|
  {
    hide ClusterData, FileBytes;
    var cb, u := g.ClusterBytes(), s + [c];
    var k := Times(|s|, cb);
    FileBytesStep(g, disk, s, k);
    FileBytesStep(g, disk, u, k + n);
    if s == [] {
      assert u[1..] == [];
      FileBytesStep(g, disk, [], 0);
    } else {
      FileAppend(g, disk, s[1..], c, n);
      assert u[1..] == s[1..] + [c];
    }
  }

  lemma {:induction false} FileBytesLength(g: Geometry, disk: seq<Sector>, s: seq<nat>, size: nat)
    requires g.Valid(|disk|) && AllInData(g, s)
    ensures |FileBytes(g, disk, s, size)| == size <==> size <= Times(|s|, g.ClusterBytes())
    decreases |s|
  {
    var cb := g.ClusterBytes();
    if size != 0 && s != [] {
      FileBytesLength(g, disk, s[1..], size - Min(size, cb));
    }
  }

  /** How many clusters of `cb` bytes hold `size` bytes. */
  function ClustersFor(size: nat, cb: nat): nat
    requires 0 < cb
  {
    if size == 0 then 0 else 1 + ClustersFor(size - Min(size, cb), cb)
  }

  /** ClustersFor rounds up: the last cluster is needed and is enough. */
  lemma {:induction false} ClustersForIsCeiling(size: nat, cb: nat)
    requires 0 < cb
    ensures size <= Times(ClustersFor(size, cb), cb)
    ensures size > 0 ==> Times(ClustersFor(size, cb) - 1, cb) < size
    decreases size
  {
    if size > 0 {
      ClustersForIsCeiling(size - Min(size, cb), cb);
    }
  }

  /** A shorter file is a prefix of what its chain holds. */
  lemma {:induction false} FilePrefix(g: Geometry, disk: seq<Sector>, s: seq<nat>, size: nat, more: nat)
    requires g.Valid(|disk|) && AllInData(g, s) && size <= more <= Times(|s|, g.ClusterBytes())
    ensures |FileBytes(g, disk, s, more)| == more
    ensures FileBytes(g, disk, s, size) == FileBytes(g, disk, s, more)[..size]
    decreases |s|
  {
    hide ClusterData;
    FileBytesLength(g, disk, s, more);
    if size != 0 && s != [] {
      var cb := g.ClusterBytes();
      FilePrefix(g, disk, s[1..], size - Min(size, cb), more - Min(more, cb));
    }
  }

  lemma AgreeTrans(g: Geometry, a: seq<Sector>, b: seq<Sector>, c: seq<Sector>, cs: set<nat>, ds: set<nat>)
    requires 0 < g.spc && AgreeOff(g, a, b, cs) && AgreeOff(g, b, c, ds) && ds <= cs
    ensures AgreeOff(g, a, c, cs)
  {
  }
}
