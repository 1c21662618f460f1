/** Where directories and files of a tree live on disk. */
module Layout {
  import opened Arith
  import opened Bytes
  import opened Geometry
  import opened Sectors
  import opened Dirents

  // ---- sectors of a directory ------------------------------------------------------------

  function Run(lba: nat, n: nat): (r: seq<nat>)
    ensures |r| == n && forall j :: 0 <= j < n ==> r[j] == lba + j
  {
    seq(n, (j: nat) => lba + j)
  }

  /** The sectors of the clusters `s`, in order. */
  function ChainLbas(g: Geometry, s: seq<nat>): (r: seq<nat>)
    requires AllInData(g, s)
    ensures |r| == Times(|s|, g.spc)
  {
    if s == [] then [] else Run(g.ClusterLba(s[0]), g.spc) + ChainLbas(g, s[1..])
  }

  function RootLbas(g: Geometry): (r: seq<nat>)
    ensures |r| == g.rootSectors
  {
    Run(g.rootLba, g.rootSectors)
  }

  ghost predicate HasLbas(g: Geometry, chains: map<nat, seq<nat>>, d: nat) {
    d != 0 ==> d in chains && AllInData(g, chains[d])
  }

  ghost function DirLbas(g: Geometry, chains: map<nat, seq<nat>>, d: nat): seq<nat>
    requires HasLbas(g, chains, d)
  {
    if d == 0 then RootLbas(g) else ChainLbas(g, chains[d])
  }

  lemma {:induction false} ChainLbasAt(g: Geometry, s: seq<nat>, k: nat, j: nat)
    requires AllInData(g, s) && k < |s| && j < g.spc
    ensures Times(k, g.spc) + j < |ChainLbas(g, s)| && ChainLbas(g, s)[Times(k, g.spc) + j] == g.ClusterLba(s[k]) + j
    decreases k
  {
    if k > 0 {
      ChainLbasAt(g, s[1..], k - 1, j);
    }
  }

  lemma {:induction false} ChainLbasIn(g: Geometry, n: nat, s: seq<nat>, i: nat)
    requires g.Valid(n) && AllInData(g, s) && i < |ChainLbas(g, s)|
    ensures g.dataLba <= ChainLbas(g, s)[i] < n && g.ClusterOf(ChainLbas(g, s)[i]) in s
    decreases |s|
  {
    if s != [] {
      if i < g.spc {
        ClusterRange(g, n, s[0], i);
      } else {
        ChainLbasIn(g, n, s[1..], i - g.spc);
      }
    }
  }

  lemma {:induction false} ChainLbasInjective(g: Geometry, n: nat, s: seq<nat>, i: nat, j: nat)
    requires g.Valid(n) && AllInData(g, s) && i < j < |ChainLbas(g, s)|
    requires forall a, b :: 0 <= a < b < |s| ==> s[a] != s[b]
    ensures ChainLbas(g, s)[i] != ChainLbas(g, s)[j]
    decreases |s|
  {
    var t := s[1..];
    if j < g.spc {
    } else if i >= g.spc {
      ChainLbasInjective(g, n, t, i - g.spc, j - g.spc);
    } else {
      ClusterRange(g, n, s[0], i);
      ChainLbasIn(g, n, t, j - g.spc);
      assert s[0] !in t;
    }
  }

  // ---- entries of a directory ------------------------------------------------------------

  ghost predicate LbasOk(disk: seq<Sector>, lbas: seq<nat>) {
    forall i :: 0 <= i < |lbas| ==> lbas[i] < |disk|
  }

  function EntryAt(sec: Sector, j: nat): Dirent
    requires j < 16
  {
    sec[32 * j..32 * j + 32]
  }

  /** The directory entries stored in the sectors `lbas`, sixteen to a sector. */
  ghost function EntriesOf(disk: seq<Sector>, lbas: seq<nat>): (es: seq<Dirent>)
    requires LbasOk(disk, lbas)
    ensures |es| == 16 * |lbas|
    ensures forall i :: 0 <= i < |es| ==> es[i] == EntryAt(disk[lbas[i / 16]], i % 16)
  {
    seq(16 * |lbas|, i requires 0 <= i < 16 * |lbas| => EntryAt(disk[lbas[i / 16]], i % 16))
  }

  lemma EntriesFrame(d: seq<Sector>, d': seq<Sector>, lbas: seq<nat>)
    requires LbasOk(d, lbas) && |d'| == |d| && forall i :: 0 <= i < |lbas| ==> d'[lbas[i]] == d[lbas[i]]
    ensures EntriesOf(d', lbas) == EntriesOf(d, lbas)
  {
    hide EntriesOf;
    var es, es' := EntriesOf(d, lbas), EntriesOf(d', lbas);
    forall i | 0 <= i < |es| ensures es'[i] == es[i] {
    }
  }

  lemma SpliceEntry(sec: Sector, j: nat, e: Dirent, k: nat)
    requires j < 16 && k < 16
    ensures EntryAt(Splice(sec, 32 * j, e), k) == if k == j then e else EntryAt(sec, k)
  {
    hide Splice;
    var r := Splice(sec, 32 * j, e);
    if k == j {
      assert r[32 * j..32 * j + 32] == e;
    } else {
      assert forall x :: 32 * k <= x < 32 * k + 32 ==> r[x] == sec[x];
    }
  }

  /** Storing 32 bytes over entry `i` changes that entry alone. */
  lemma EntriesUpdate(d: seq<Sector>, lbas: seq<nat>, i: nat, e: Dirent)
    requires LbasOk(d, lbas) && i < 16 * |lbas|
    requires forall a, b :: 0 <= a < b < |lbas| ==> lbas[a] != lbas[b]
    ensures var l := lbas[i / 16];
      LbasOk(d[l := Splice(d[l], 32 * (i % 16), e)], lbas)
      && EntriesOf(d[l := Splice(d[l], 32 * (i % 16), e)], lbas) == EntriesOf(d, lbas)[i := e]
  {
    hide EntriesOf, EntryAt, Splice;
    var l := lbas[i / 16];
    var d' := d[l := Splice(d[l], 32 * (i % 16), e)];
    assert LbasOk(d', lbas);
    var es, es' := EntriesOf(d, lbas), EntriesOf(d', lbas);
    forall k | 0 <= k < |es| ensures es'[k] == es[i := e][k] {
      if k / 16 == i / 16 {
        SpliceEntry(d[l], i % 16, e, k % 16);
      } else {
        assert lbas[k / 16] != l;
      }
    }
  }
}
