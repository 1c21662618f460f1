/** The sector level of the FAT16 driver: table access, allocation, release and cluster I/O. */
module Volume {
  import opened Arith
  import opened Bytes
  import opened Chains
  import opened Geometry
  import opened Sectors

  /** The disk after entry `c` has been set to `v` in the first `n` copies of the table. */
  function SetCopies(g: Geometry, d: seq<Sector>, n: nat, c: nat, v: nat): (r: seq<Sector>)
    requires g.Valid(|d|) && n <= g.numFats && c <= g.maxCluster && v < 0x10000
    ensures |r| == |d|
    decreases n
  {
    if n == 0 then d
    else
      FatLbaRange(g, |d|, n - 1, 2 * c / 512);
      var p := SetCopies(g, d, n - 1, c, v);
      var l := g.FatLba(n - 1, 2 * c / 512);
      p[l := Splice(p[l], 2 * c % 512, Le16(v))]
  }

  lemma SetCopiesStep(g: Geometry, d: seq<Sector>, n: nat, c: nat, v: nat)
    requires g.Valid(|d|) && n <= g.numFats && c <= g.maxCluster && v < 0x10000
    ensures n == 0 ==> SetCopies(g, d, n, c, v) == d
    ensures n > 0 ==>
      var p, l := SetCopies(g, d, n - 1, c, v), g.FatLba(n - 1, 2 * c / 512);
      l < |d| && SetCopies(g, d, n, c, v) == p[l := Splice(p[l], 2 * c % 512, Le16(v))]
  {
    if n > 0 {
      FatLbaRange(g, |d|, n - 1, 2 * c / 512);
    }
  }

  lemma {:induction false} SetCopiesAt(g: Geometry, d: seq<Sector>, n: nat, c: nat, v: nat, f: nat, s: nat)
    requires g.Valid(|d|) && n <= g.numFats && c <= g.maxCluster && v < 0x10000
    requires f < g.numFats && s < g.fatSectors
    ensures g.FatLba(f, s) < |d|
    ensures SetCopies(g, d, n, c, v)[g.FatLba(f, s)]
         == if f < n && s == 2 * c / 512 then Splice(d[g.FatLba(f, s)], 2 * c % 512, Le16(v)) else d[g.FatLba(f, s)]
    decreases n
  {
    hide SetCopies, Splice, Le16;
    FatLbaRange(g, |d|, f, s);
    SetCopiesStep(g, d, n, c, v);
    if n > 0 {
      SetCopiesAt(g, d, n - 1, c, v, f, s);
      var l := g.FatLba(n - 1, 2 * c / 512);
      if l == g.FatLba(f, s) {
        FatLbaInjective(g, n - 1, 2 * c / 512, f, s);
      }
    }
  }

  lemma {:induction false} SetCopiesElsewhere(g: Geometry, d: seq<Sector>, n: nat, c: nat, v: nat)
    requires g.Valid(|d|) && n <= g.numFats && c <= g.maxCluster && v < 0x10000
    ensures AgreeOffTables(g, d, SetCopies(g, d, n, c, v))
    decreases n
  {
    hide SetCopies, Splice, Le16;
    SetCopiesStep(g, d, n, c, v);
    if n > 0 {
      SetCopiesElsewhere(g, d, n - 1, c, v);
      FatLbaRange(g, |d|, n - 1, 2 * c / 512);
    }
  }

  /**
   * Setting an entry in every copy is an update of the cluster-to-link map: the
   * copies stay identical and no sector outside the tables changes.
   */
  lemma SetCopiesRefines(g: Geometry, d: seq<Sector>, c: nat, v: nat)
    requires g.Valid(|d|) && Mirrored(g, d) && c <= g.maxCluster && v < 0x10000
    ensures var d' := SetCopies(g, d, g.numFats, c, v);
      && Table(g, d') == Table(g, d)[c := v]
      && Mirrored(g, d')
      && AgreeOffTables(g, d, d')
  {
    hide SetCopies;
    var d' := SetCopies(g, d, g.numFats, c, v);
    SetCopiesElsewhere(g, d, g.numFats, c, v);
    forall x | 0 <= x <= g.maxCluster ensures Table(g, d')[x] == Table(g, d)[c := v][x] {
      SetCopiesAt(g, d, g.numFats, c, v, 0, 2 * x / 512);
      if x == c {
        SpliceRd16(d[g.FatLba(0, 2 * c / 512)], 2 * c % 512, v);
      }
    }
    assert Table(g, d') == Table(g, d)[c := v];
    forall f: nat, s: nat | f < g.numFats && s < g.fatSectors
      ensures g.FatLba(f, s) < |d'| && g.FatLba(0, s) < |d'| && d'[g.FatLba(f, s)] == d'[g.FatLba(0, s)]
    {
      SetCopiesAt(g, d, g.numFats, c, v, f, s);
      SetCopiesAt(g, d, g.numFats, c, v, 0, s);
    }
  }

  class FatVolume {
    const g: Geometry
    var disk: seq<Sector>

    constructor (g: Geometry, disk: seq<Sector>)
      ensures this.g == g && this.disk == disk
    {
      this.g := g;
      this.disk := disk;
    }

    ghost predicate Valid()
      reads this
    {
      g.Valid(|disk|) && Mirrored(g, disk)
    }

    ghost function Fat(): (fat: seq<nat>)
      requires Valid()
      reads this
    {
      Table(g, disk)
    }

    method FatGet(c: nat) returns (v: nat)
      requires Valid() && c <= g.maxCluster
      ensures v == Fat()[c]
    {
      var off := c * 2;
      FatLbaRange(g, |disk|, 0, off / 512);
      v := Rd16(disk[g.fatLba + off / 512], off % 512);
    }

    method FatSet(c: nat, v: nat)
      requires Valid() && c <= g.maxCluster && v < 0x10000
      modifies this
      ensures Valid() && Fat() == old(Fat())[c := v]
      ensures AgreeOffTables(g, old(disk), disk)
    {
      hide Mirrored, Table, AgreeOffTables, SetCopies, Le16, Splice;
      SetCopiesRefines(g, disk, c, v);
      var off := c * 2;
      var f := 0;
      SetCopiesStep(g, disk, 0, c, v);
      while f < g.numFats
        invariant 0 <= f <= g.numFats && |disk| == |old(disk)|
        invariant disk == SetCopies(g, old(disk), f, c, v)
      {
        var lba := g.FatLba(f, off / 512);
        FatLbaRange(g, |disk|, f, off / 512);
        SetCopiesStep(g, old(disk), f + 1, c, v);
        disk := disk[lba := Splice(disk[lba], off % 512, Le16(v))];
        f := f + 1;
      }
    }

    /** First-fit allocation; 0 when the disk is full. */
    method ClusterAlloc() returns (c: nat)
      requires Valid()
      modifies this
      ensures Valid()
      ensures c == 0 <==> CountFree(old(Fat()), 2) == 0
      ensures c == 0 ==> disk == old(disk)
      ensures c != 0 ==> g.InData(c) && old(Fat())[c] == FREE && Fat() == old(Fat())[c := EOC]
      ensures c != 0 ==> forall x :: 2 <= x < c ==> old(Fat())[x] != FREE
      ensures AgreeOffTables(g, old(disk), disk)
    {
      var x := 2;
      while x <= g.maxCluster
        invariant 2 <= x <= g.maxCluster + 1 && disk == old(disk)
        invariant forall y :: 2 <= y < x ==> Fat()[y] != FREE
      {
        var v := FatGet(x);
        if v == FREE {
          CountZero(Fat(), 2);
          FatSet(x, EOC);
          return x;
        }
        x := x + 1;
      }
      CountZero(Fat(), 2);
      return 0;
    }

    method ChainFree(start: nat)
      requires Valid() && LinksInRange(Fat()) && (Continues(start) ==> start < |Fat()|)
      modifies this
      ensures Valid() && Fat() == Released(old(Fat()), start)
      ensures AgreeOffTables(g, old(disk), disk)
    {
      var cluster: nat := start;
      while Continues(cluster)
        invariant Valid() && LinksInRange(Fat()) && (Continues(cluster) ==> cluster < |Fat()|)
        invariant Released(Fat(), cluster) == Released(old(Fat()), start)
        invariant AgreeOffTables(g, old(disk), disk)
        decreases UsedCount(Fat()), Continues(cluster)
      {
        CountUpdate(Fat(), 2, cluster, FREE);
        var next := FatGet(cluster);
        FatSet(cluster, FREE);
        cluster := next;
      }
    }

    /** ata_write of one cluster from a buffer of whole sectors. */
    method WriteCluster(c: nat, buf: seq<Byte>)
      requires Valid() && g.InData(c) && |buf| == g.ClusterBytes()
      modifies this
      ensures Valid() && Fat() == old(Fat()) && |disk| == |old(disk)|
      ensures ClusterSectors(g, disk, c) == Chunk(buf) && ClusterData(g, disk, c) == buf
      ensures SameTables(g, old(disk), disk) && AgreeOff(g, old(disk), disk, {c})
    {
      hide Mirrored;
      ClusterRange(g, |disk|, c, 0);
      var l := g.ClusterLba(c);
      var ss := Chunk(buf);
      disk := disk[..l] + ss + disk[l + g.spc..];
      FlattenChunk(buf);
      assert disk[l..l + g.spc] == ss;
      SameTablesTable(g, old(disk), disk);
      ClusterWriteFrame(g, old(disk), disk, c);
    }

    /** One round of chain_write: allocates a cluster, hangs it behind `prev` and fills it. */
    method AppendCluster(prev: nat, chunk: seq<Byte>, ghost base: seq<nat>, ghost s: seq<nat>, ghost data: seq<Byte>)
      returns (c: nat)
      requires Valid() && Built(base, Fat(), s) && AllInData(g, s) && prev == (if s == [] then 0 else s[|s| - 1])
      requires Holds(g, disk, s, data) && |data| == Times(|s|, g.ClusterBytes()) && |chunk| <= g.ClusterBytes()
      modifies this
      ensures Valid() && (c == 0 <==> CountFree(old(Fat()), 2) == 0) && (c == 0 ==> disk == old(disk))
      ensures c != 0 ==> g.InData(c) && c !in s && AllInData(g, s + [c]) && Built(base, Fat(), s + [c])
      ensures c != 0 ==> Holds(g, disk, s + [c], data + chunk)
      ensures AgreeOff(g, old(disk), disk, FreeClusters(base))
    {
      hide IsChain, FileBytes, Mirrored, CountFree, Table, LinksInRange, AgreeOffTables, AgreeOff, SameTables, Holds,
        Built, ClusterData, ClusterSectors;
      ghost var fat1, d1 := Fat(), disk;
      c := ClusterAlloc();
      TablesAgree(g, d1, disk);
      if c == 0 {
        return;
      }
      BuiltExtend(base, fat1, s, c);
      BuiltFacts(base, Extended(fat1, s, c), s + [c]);
      ghost var d2 := disk;
      if prev != 0 {
        FatSet(prev, c);
      }
      TablesAgree(g, d2, disk);
      ghost var d3 := disk;
      WriteCluster(c, chunk + Zeros(g.ClusterBytes() - |chunk|));
      HoldsExtend(g, d1, d2, d3, disk, s, c, data, chunk);
      AgreeStep(g, d1, d1, d2, d3, disk, FreeClusters(base), c);
    }

    /**
     * chain_write: builds a chain for `data`, or gives back every cluster it took.
     * `bufOk` says whether the heap supplied the cluster-sized buffer.
     */
    method ChainWrite(data: seq<Byte>, bufOk: bool) returns (first: nat, ghost s: seq<nat>)
      requires Valid() && LinksInRange(Fat())
      modifies this
      ensures Valid()
      ensures first != 0 <==> data != [] && bufOk && ClustersFor(|data|, g.ClusterBytes()) <= CountFree(old(Fat()), 2)
      ensures first == 0 ==> Fat() == old(Fat())
      ensures first != 0 ==> s != [] && s[0] == first && Built(old(Fat()), Fat(), s)
      ensures first != 0 ==> |s| == ClustersFor(|data|, g.ClusterBytes()) && AllInData(g, s)
      ensures first != 0 ==> Holds(g, disk, s, data)
      ensures first != 0 ==> |data| <= |s| * g.ClusterBytes()
      ensures first != 0 ==>
        DataOnDisk(g, disk, s, data + Zeros(|s| * g.ClusterBytes() - |data|))
      ensures AgreeOff(g, old(disk), disk, FreeClusters(old(Fat())))
    {
      hide IsChain, Mirrored, CountFree, Released, Table, AgreeOffTables, AgreeOff, LinksInRange, Built, Holds,
        AllInData, DataOnDisk;
      s := [];
      if data == [] || !bufOk {
        return 0, s;
      }
      var cb := g.ClusterBytes();
      ghost var base, d0 := Fat(), disk;
      BuiltBegin(g, disk);
      first := 0;
      var prev, pos := 0, 0;
      while pos < |data|
        invariant Valid() && 0 <= pos <= |data| && Built(base, Fat(), s) && AllInData(g, s)
        invariant first == (if s == [] then 0 else s[0]) && prev == (if s == [] then 0 else s[|s| - 1])
        invariant pos == Min(|data|, Times(|s|, cb)) && Holds(g, disk, s, data[..pos])
        invariant |s| + ClustersFor(|data| - pos, cb) == ClustersFor(|data|, cb)
        invariant AgreeOff(g, d0, disk, FreeClusters(base))
      {
        ghost var d1 := disk;
        BuiltFacts(base, Fat(), s);
        var chunk := Min(|data| - pos, cb);
        assert data[..pos] + data[pos..pos + chunk] == data[..pos + chunk];
        var c := AppendCluster(prev, data[pos..pos + chunk], base, s, data[..pos]);
        AgreeTrans(g, d0, d1, disk, FreeClusters(base), FreeClusters(base));
        if c == 0 {
          if first != 0 {
            BuiltUndo(base, Fat(), s);
            ghost var d2 := disk;
            ChainFree(first);
            TablesAgree(g, d2, disk);
            AgreeTrans(g, d0, d2, disk, FreeClusters(base), {});
          }
          return 0, s;
        }
        if first == 0 {
          first := c;
        }
        prev, pos := c, pos + chunk;
        s := s + [c];
      }
      BuiltFacts(base, Fat(), s);
      assert data[..pos] == data;
      HeldOnDisk(g, disk, s, data);
    }

    /** ata_write of sector `j` of a cluster. */
    method WriteInCluster(c: nat, j: nat, sec: Sector)
      requires Valid() && g.InData(c) && j < g.spc
      modifies this
      ensures Valid() && Fat() == old(Fat()) && |disk| == |old(disk)|
      ensures ClusterSectors(g, disk, c) == old(ClusterSectors(g, disk, c))[j := sec]
      ensures AgreeOff(g, old(disk), disk, {c})
    {
      hide Mirrored;
      ClusterRange(g, |disk|, c, j);
      var l := g.ClusterLba(c);
      disk := disk[l + j := sec];
      assert disk[l..l + g.spc] == old(disk[l..l + g.spc])[j := sec];
      SameTablesTable(g, old(disk), disk);
      ClusterWriteFrame(g, old(disk), disk, c);
    }

    /** cluster_zero. */
    method ClusterZero(c: nat)
      requires Valid() && g.InData(c)
      modifies this
      ensures Valid() && Fat() == old(Fat()) && |disk| == |old(disk)|
      ensures ClusterSectors(g, disk, c) == seq(g.spc, _ => Zeros(512))
      ensures AgreeOff(g, old(disk), disk, {c})
    {
      hide Mirrored, Table, AgreeOff, ClusterSectors;
      var j := 0;
      while j < g.spc
        invariant 0 <= j <= g.spc && Valid() && Fat() == old(Fat()) && |disk| == |old(disk)|
        invariant forall i :: 0 <= i < j ==> ClusterSectors(g, disk, c)[i] == Zeros(512)
        invariant AgreeOff(g, old(disk), disk, {c})
      {
        ghost var d := disk;
        WriteInCluster(c, j, Zeros(512));
        AgreeTrans(g, old(disk), d, disk, {c}, {c});
        j := j + 1;
      }
    }

    /** ata_read of one cluster into a buffer. */
    method ReadCluster(c: nat) returns (buf: seq<Byte>)
      requires Valid() && g.InData(c)
      ensures buf == ClusterData(g, disk, c)
    {
      ClusterRange(g, |disk|, c, 0);
      buf := Flatten(disk[g.ClusterLba(c)..g.ClusterLba(c) + g.spc]);
    }

    /** What walking from `cluster` visits: the chain `s`, or nothing. */
    ghost predicate Starts(cluster: nat, s: seq<nat>)
      requires Valid()
      reads this
    {
      if s == [] then !Continues(cluster) else IsChain(Fat(), s) && s[0] == cluster
    }

    /** file_stream with stream_copy: the first `size` bytes along the chain. */
    method FileStream(start: nat, size: nat, bufOk: bool, ghost s: seq<nat>) returns (ok: bool, data: seq<Byte>)
      requires Valid() && Starts(start, s)
      ensures AllInData(g, s)
      ensures ok <==> bufOk && size <= Times(|s|, g.ClusterBytes())
      ensures ok ==> data == FileBytes(g, disk, s, size) && DataOnDisk(g, disk, s, data)
    {
      hide Mirrored, ClusterData, IsEoc, IsChain, FileBytes, Starts, Table, AllInData, DataOnDisk;
      StartsNext(start, s);
      data := [];
      if !bufOk {
        return false, data;
      }
      var cb := g.ClusterBytes();
      var remaining, cluster := size, start;
      ghost var k := 0;
      while remaining != 0 && Continues(cluster)
        invariant 0 <= k <= |s| && 0 <= remaining && AllInData(g, s[k..]) && Starts(cluster, s[k..])
        invariant data + FileBytes(g, disk, s[k..], remaining) == FileBytes(g, disk, s, size)
        invariant remaining <= Times(|s| - k, cb) <==> size <= Times(|s|, cb)
        decreases |s| - k
      {
        StartsNext(cluster, s[k..]);
        FileBytesStep(g, disk, s[k..], remaining);
        assert s[k..][1..] == s[k + 1..];
        var buf := ReadCluster(cluster);
        var chunk := Min(remaining, cb);
        data := data + buf[..chunk];
        remaining := remaining - chunk;
        cluster := FatGet(cluster);
        k := k + 1;
      }
      StartsNext(cluster, s[k..]);
      FileBytesStep(g, disk, s[k..], remaining);
      FileOnDisk(g, disk, s, size);
      return remaining == 0, data;
    }

    lemma StartsNext(cluster: nat, s: seq<nat>)
      requires Valid() && Starts(cluster, s)
      ensures AllInData(g, s) && (s == [] <==> !Continues(cluster))
      ensures s != [] ==> s[0] == cluster && g.InData(cluster) && AllInData(g, s[1..]) && Starts(Fat()[cluster], s[1..])
    {
      if s != [] {
        var t := s[1..];
        assert forall i :: 0 <= i < |t| ==> t[i] == s[i + 1];
      }
    }
  }

  lemma BuiltBegin(g: Geometry, d: seq<Sector>)
    requires g.Valid(|d|) && LinksInRange(Table(g, d))
    ensures Built(Table(g, d), Table(g, d), []) && Holds(g, d, [], []) && AllInData(g, [])
  {
  }

  /** The clusters `s` hold `data`, padded with zeros to whole clusters. */
  ghost predicate Holds(g: Geometry, disk: seq<Sector>, s: seq<nat>, data: seq<Byte>)
    requires g.Valid(|disk|) && AllInData(g, s)
  {
    var cap := Times(|s|, g.ClusterBytes());
    |data| <= cap && FileBytes(g, disk, s, cap) == data + Zeros(cap - |data|)
  }

  /** Data that is held lies on the disk byte by byte, with zeros up to the end of the last cluster. */
  lemma HeldOnDisk(g: Geometry, disk: seq<Sector>, s: seq<nat>, data: seq<Byte>)
    requires g.Valid(|disk|) && AllInData(g, s) && Holds(g, disk, s, data)
    ensures |data| <= |s| * g.ClusterBytes() && DataOnDisk(g, disk, s, data + Zeros(|s| * g.ClusterBytes() - |data|))
  {
    hide FileBytes, DataOnDisk;
    TimesIsProduct(|s|, g.ClusterBytes());
    FileOnDisk(g, disk, s, Times(|s|, g.ClusterBytes()));
  }

  lemma TablesAgree(g: Geometry, d: seq<Sector>, d': seq<Sector>)
    requires 0 < g.spc && AgreeOffTables(g, d, d')
    ensures AgreeOff(g, d, d', {})
  {
  }

  lemma AgreeStep(g: Geometry, d0: seq<Sector>, d1: seq<Sector>, d2: seq<Sector>, d3: seq<Sector>, d4: seq<Sector>,
                  cs: set<nat>, c: nat)
    requires 0 < g.spc && c in cs
    requires AgreeOff(g, d0, d1, cs) && AgreeOff(g, d1, d2, {}) && AgreeOff(g, d2, d3, {}) && AgreeOff(g, d3, d4, {c})
    ensures AgreeOff(g, d0, d4, cs)
  {
    hide AgreeOff;
    AgreeTrans(g, d0, d1, d2, cs, {});
    AgreeTrans(g, d0, d2, d3, cs, {});
    AgreeTrans(g, d0, d3, d4, cs, {c});
  }

  lemma HoldsExtend(g: Geometry, d1: seq<Sector>, d2: seq<Sector>, d3: seq<Sector>, d4: seq<Sector>,
                    s: seq<nat>, c: nat, data: seq<Byte>, more: seq<Byte>)
    requires g.Valid(|d1|) && AllInData(g, s) && g.InData(c) && c !in s
    requires AgreeOff(g, d1, d2, {}) && AgreeOff(g, d2, d3, {}) && AgreeOff(g, d3, d4, {c})
    requires Holds(g, d1, s, data) && |data| == Times(|s|, g.ClusterBytes())
    requires |more| <= g.ClusterBytes() && ClusterData(g, d4, c) == more + Zeros(g.ClusterBytes() - |more|)
    ensures AllInData(g, s + [c]) && Holds(g, d4, s + [c], data + more)
  {
    hide AgreeOff, AgreeData, ClusterData, FileBytes, Zeros;
    AgreeStep(g, d1, d1, d2, d3, d4, {c}, c);
    var cb, cap := g.ClusterBytes(), Times(|s|, g.ClusterBytes());
    FileFrame(g, d1, d4, {c}, s, cap);
    FileAppend(g, d4, s, c, cb);
    PadLast(FileBytes(g, d1, s, cap), data, more, cb);
    assert |s + [c]| == |s| + 1 && Times(|s| + 1, cb) == cap + cb && cap + cb - |data + more| == cb - |more|;
  }

  lemma PadLast(stored: seq<Byte>, data: seq<Byte>, more: seq<Byte>, cb: nat)
    requires |more| <= cb && stored == data + Zeros(0)
    ensures stored + (more + Zeros(cb - |more|))[..cb] == (data + more) + Zeros(cb - |more|)
  {
    assert stored == data;
    assert (more + Zeros(cb - |more|))[..cb] == more + Zeros(cb - |more|);
  }

  lemma ClusterWriteFrame(g: Geometry, d: seq<Sector>, d': seq<Sector>, c: nat)
    requires g.Valid(|d|) && |d'| == |d| && g.InData(c)
    requires forall l :: 0 <= l < |d| && !(g.ClusterLba(c) <= l < g.ClusterLba(c) + g.spc) ==> d'[l] == d[l]
    ensures AgreeOff(g, d, d', {c})
  {
    forall l | 0 <= l < |d| && !InTables(g, l) && (l < g.dataLba || g.ClusterOf(l) != c) ensures d'[l] == d[l] {
      if g.ClusterLba(c) <= l < g.ClusterLba(c) + g.spc {
        ClusterRange(g, |d|, c, l - g.ClusterLba(c));
      }
    }
  }
}
