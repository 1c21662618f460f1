/** The layout of a mounted FAT16 partition: allocation tables, root directory and clusters, as ranges of sectors. */
module Geometry {
  import opened Arith

  datatype Geometry = Geometry(
    partLba: nat,
    fatLba: nat,
    fatSectors: nat,
    numFats: nat,
    rootLba: nat,
    rootSectors: nat,
    dataLba: nat,
    spc: nat,            // sectors per cluster
    maxCluster: nat      // highest valid cluster number
  ) {

    /** What a well-formed boot sector guarantees of the layout on a disk of `sectors` sectors. */
    predicate Valid(sectors: nat) {
      && 0 < partLba <= fatLba
      && 0 < numFats && 0 < spc < 256 && 0 < fatSectors
      && rootLba == fatLba + Times(numFats, fatSectors)
      && dataLba == rootLba + rootSectors
      && 1 <= maxCluster < 0xFFF7
      && 2 * (maxCluster + 1) <= fatSectors * 512
      && dataLba + Times(maxCluster - 1, spc) <= sectors
    }

    predicate InData(c: nat) { 2 <= c <= maxCluster }

    /** Sector `s` of the `f`-th copy of the allocation table. */
    function FatLba(f: nat, s: nat): nat {
      fatLba + Times(f, fatSectors) + s
    }

    function ClusterLba(c: nat): nat
      requires 2 <= c
    {
      dataLba + Times(c - 2, spc)
    }

    /** The cluster a sector of the data area belongs to. */
    function ClusterOf(l: nat): nat
      requires 0 < spc && dataLba <= l
    {
      Quot(l - dataLba, spc) + 2
    }

    function ClusterBytes(): nat { spc * 512 }
  }

  /** Table copies lie one after another between the reserved sectors and the root area. */
  lemma FatLbaRange(g: Geometry, n: nat, f: nat, s: nat)
    requires g.Valid(n) && f < g.numFats && s < g.fatSectors
    ensures g.fatLba <= g.FatLba(f, s) < g.rootLba
    ensures g.FatLba(f, s) < n
  {
    TimesOrder(f, g.numFats, g.fatSectors);
  }

  lemma FatLbaInjective(g: Geometry, f: nat, s: nat, f': nat, s': nat)
    requires s < g.fatSectors && s' < g.fatSectors && g.FatLba(f, s) == g.FatLba(f', s')
    ensures f == f' && s == s'
  {
    if f < f' { TimesOrder(f, f', g.fatSectors); }
    if f' < f { TimesOrder(f', f, g.fatSectors); }
  }

  /** The addresses are the products the driver computes. */
  lemma AddressesAre(g: Geometry, f: nat, s: nat, c: nat)
    requires 2 <= c
    ensures g.FatLba(f, s) == g.fatLba + f * g.fatSectors + s
    ensures g.ClusterLba(c) == g.dataLba + (c - 2) * g.spc
  {
    TimesIsProduct(f, g.fatSectors);
    TimesIsProduct(c - 2, g.spc);
  }

  /**
   * Clusters occupy consecutive sector ranges inside the partition: the range
   * of each one starts after the root area and ends inside the disk, and a
   * sector of the range belongs to that cluster alone.
   */
  lemma ClusterRange(g: Geometry, n: nat, c: nat, j: nat)
    requires g.Valid(n) && g.InData(c) && j < g.spc
    ensures g.dataLba <= g.ClusterLba(c) && g.ClusterLba(c) + g.spc <= n
    ensures g.ClusterOf(g.ClusterLba(c) + j) == c
  {
    TimesOrder(c - 2, g.maxCluster - 1, g.spc);
    QuotOfTimes(c - 2, j, g.spc);
  }
}
