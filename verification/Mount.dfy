/** fat_mount: the partition table, the BIOS parameter block and the layout computed from them. */
module Mount {
  import opened Options
  import opened Arith
  import opened Bytes
  import opened Geometry

  function Sub32(a: nat, b: nat): nat { (a - b) % DWORD }

  function Add32(a: nat, b: nat): nat { (a + b) % DWORD }

  predicate IsFatType(b: Byte) { b == 0x04 || b == 0x06 || b == 0x0E }

  /** The first partition table entry, from `i` on, with a FAT16 type. */
  function FatEntry(mbr: Sector, i: nat): (r: Option<nat>)
    requires i <= 4
    ensures r.Some? ==> i <= r.value < 4 && IsFatType(mbr[446 + r.value * 16 + 4])
    ensures r.Some? ==> forall j :: i <= j < r.value ==> !IsFatType(mbr[446 + j * 16 + 4])
    ensures r == None ==> forall j :: i <= j < 4 ==> !IsFatType(mbr[446 + j * 16 + 4])
    decreases 4 - i
  {
    if i == 4 then None else if IsFatType(mbr[446 + i * 16 + 4]) then Some(i) else FatEntry(mbr, i + 1)
  }

  /** The fields of the parameter block that fat_mount reads. */
  datatype Bpb = Bpb(bytesPerSector: nat, spc: Byte, reserved: nat, numFats: Byte, rootEntries: nat, fatSize: nat)

  function ReadBpb(s: Sector): Bpb {
    Bpb(Rd16(s, 11), s[13], Rd16(s, 14), s[16], Rd16(s, 17), Rd16(s, 22))
  }

  predicate Usable(b: Bpb) {
    b.bytesPerSector == 512 && b.spc != 0 && b.numFats != 0 && b.fatSize != 0
  }

  /** What the volume header promises: the areas fit the partition and the table covers every cluster. */
  ghost predicate WellFormed(b: Bpb, partLba: nat, partSectors: nat) {
    && Usable(b) && partLba + partSectors < DWORD
    && HeaderSectors(b) <= partSectors
    && var clusters := Quot(partSectors - HeaderSectors(b), b.spc);
       clusters < 0xFFF6 && 2 * (clusters + 2) <= b.fatSize * 512
  }

  /** Sectors of the partition in front of the first cluster. */
  function HeaderSectors(b: Bpb): nat {
    b.reserved + Times(b.numFats, b.fatSize) + (b.rootEntries * 32 + 511) / 512
  }

  /** The layout, with the source's 32-bit sums and differences. */
  function LayoutOf(b: Bpb, partLba: nat, partSectors: nat): Geometry
    requires b.spc != 0
  {
    var fatLba := Add32(partLba, b.reserved);
    var rootLba := Add32(fatLba, Times(b.numFats, b.fatSize));
    var rootSectors := (b.rootEntries * 32 + 511) / 512;
    var dataLba := Add32(rootLba, rootSectors);
    Geometry(partLba, fatLba, b.fatSize, b.numFats, rootLba, rootSectors, dataLba, b.spc,
             1 + Quot(Sub32(partSectors, Sub32(dataLba, partLba)), b.spc))
  }

  /**
   * On a well-formed volume the computed layout is valid for any disk that holds
   * the partition, and every cluster lies inside the partition.
   */
  lemma LayoutValid(b: Bpb, partLba: nat, partSectors: nat, sectors: nat)
    requires WellFormed(b, partLba, partSectors) && 0 < partLba && partLba + partSectors <= sectors
    ensures LayoutOf(b, partLba, partSectors).Valid(sectors)
    ensures var g := LayoutOf(b, partLba, partSectors);
      forall c: nat :: g.InData(c) ==> g.dataLba <= g.ClusterLba(c) && g.ClusterLba(c) + g.spc <= partLba + partSectors
  {
    var g, room := LayoutOf(b, partLba, partSectors), partSectors - HeaderSectors(b);
    SmallMod(partLba + b.reserved);
    SmallMod(partLba + b.reserved + Times(b.numFats, b.fatSize));
    SmallMod(partLba + HeaderSectors(b));
    assert g.dataLba == partLba + HeaderSectors(b);
    SmallMod(HeaderSectors(b));
    SmallMod(room);
    QuotBounds(room, b.spc);
    assert g.maxCluster == 1 + Quot(room, b.spc);
    forall c: nat | g.InData(c)
      ensures g.dataLba <= g.ClusterLba(c) && g.ClusterLba(c) + g.spc <= partLba + partSectors
    {
      TimesOrder(c - 2, g.maxCluster - 1, g.spc);
    }
  }

  lemma SmallMod(x: nat)
    requires x < DWORD
    ensures x % DWORD == x
  {
  }

  /** What mounting finds on a disk; a sector beyond its end cannot be read. */
  function Mounted(disk: seq<Sector>): Option<Geometry> {
    if |disk| == 0 || Rd16(disk[0], 510) != 0xAA55 then None
    else match FatEntry(disk[0], 0)
      case None => None
      case Some(i) =>
        var lba, sectors := Rd32(disk[0], 446 + i * 16 + 8), Rd32(disk[0], 446 + i * 16 + 12);
        if lba == 0 || lba >= |disk| || !Usable(ReadBpb(disk[lba])) then None
        else Some(LayoutOf(ReadBpb(disk[lba]), lba, sectors))
  }

  /** fat_mount. */
  method MountVolume(disk: seq<Sector>) returns (r: Option<Geometry>)
    ensures r == Mounted(disk)
  {
    if |disk| == 0 {
      return None;
    }
    var buf := disk[0];
    if Rd16(buf, 510) != 0xAA55 {
      return None;
    }
    var partLba, partSectors := 0, 0;
    var i := 0;
    while i < 4
      invariant 0 <= i <= 4 && partLba == 0 && FatEntry(buf, i) == FatEntry(buf, 0)
    {
      var e := 446 + i * 16;
      if IsFatType(buf[e + 4]) {
        partLba := Rd32(buf, e + 8);
        partSectors := Rd32(buf, e + 12);
        break;
      }
      i := i + 1;
    }
    if partLba == 0 || partLba >= |disk| {
      return None;
    }
    var b := ReadBpb(disk[partLba]);
    if !Usable(b) {
      return None;
    }
    return Some(LayoutOf(b, partLba, partSectors));
  }

  // ---- a disk given by its fields ------------------------------------------------------------------

  /** An entry of the partition table. */
  datatype Partition =
    Partition(status: Byte, first: seq<Byte>, ptype: Byte, last: seq<Byte>, lba: nat, sectors: nat)

  predicate PartitionOk(p: Partition) { |p.first| == 3 && |p.last| == 3 && p.lba < DWORD && p.sectors < DWORD }

  function PartitionBytes(p: Partition): (r: seq<Byte>)
    requires PartitionOk(p)
    ensures |r| == 16
  {
    [p.status] + p.first + [p.ptype] + p.last + Le32(p.lba) + Le32(p.sectors)
  }

  /** The master boot record: code, four partitions, signature. */
  function MbrBytes(code: seq<Byte>, p: seq<Partition>): (r: Sector)
    requires |code| == 446 && |p| == 4 && forall i :: 0 <= i < 4 ==> PartitionOk(p[i])
  {
    code + PartitionBytes(p[0]) + PartitionBytes(p[1]) + PartitionBytes(p[2]) + PartitionBytes(p[3]) + [0x55, 0xAA]
  }

  /** The first fields of a FAT boot sector, in their order, and whatever follows. */
  datatype BootRecord = BootRecord(jump: seq<Byte>, oem: seq<Byte>, bytesPerSector: nat, spc: Byte, reserved: nat,
                                   numFats: Byte, rootEntries: nat, totalSectors: nat, media: Byte, fatSize: nat,
                                   more: seq<Byte>)

  predicate BootOk(b: BootRecord) {
    && |b.jump| == 3 && |b.oem| == 8 && |b.more| == 488 && b.bytesPerSector < 0x10000 && b.reserved < 0x10000
    && b.rootEntries < 0x10000 && b.totalSectors < 0x10000 && b.fatSize < 0x10000
  }

  function BootBytes(b: BootRecord): (r: Sector)
    requires BootOk(b)
  {
    b.jump + b.oem + Le16(b.bytesPerSector) + [b.spc] + Le16(b.reserved) + [b.numFats] + Le16(b.rootEntries)
    + Le16(b.totalSectors) + [b.media] + Le16(b.fatSize) + b.more
  }

  /** The fields are found where they were put. */
  lemma ReadsBoot(b: BootRecord)
    requires BootOk(b)
    ensures ReadBpb(BootBytes(b)) == Bpb(b.bytesPerSector, b.spc, b.reserved, b.numFats, b.rootEntries, b.fatSize)
  {
    hide Le16;
    var s := BootBytes(b);
    var w, x, y, z := Le16(b.bytesPerSector), Le16(b.reserved), Le16(b.rootEntries), Le16(b.fatSize);
    assert s[11] == w[0] && s[12] == w[1] && s[13] == b.spc && s[14] == x[0] && s[15] == x[1] && s[16] == b.numFats;
    assert s[17] == y[0] && s[18] == y[1] && s[22] == z[0] && s[23] == z[1];
  }

  lemma ReadsPartition(p: Partition)
    requires PartitionOk(p)
    ensures PartitionBytes(p)[4] == p.ptype
    ensures Rd32(PartitionBytes(p), 8) == p.lba && Rd32(PartitionBytes(p), 12) == p.sectors
  {
    hide Le32;
    var s, x, y := PartitionBytes(p), Le32(p.lba), Le32(p.sectors);
    assert s[8] == x[0] && s[9] == x[1] && s[10] == x[2] && s[11] == x[3];
    assert s[12] == y[0] && s[13] == y[1] && s[14] == y[2] && s[15] == y[3];
  }

  lemma ReadsMbr(code: seq<Byte>, p: seq<Partition>, i: nat)
    requires |code| == 446 && |p| == 4 && (forall i :: 0 <= i < 4 ==> PartitionOk(p[i])) && i < 4
    ensures var m := MbrBytes(code, p);
      && Rd16(m, 510) == 0xAA55 && m[446 + i * 16 + 4] == p[i].ptype
      && Rd32(m, 446 + i * 16 + 8) == p[i].lba && Rd32(m, 446 + i * 16 + 12) == p[i].sectors
  {
    hide PartitionBytes;
    var m, e := MbrBytes(code, p), PartitionBytes(p[i]);
    assert m[510] == 0x55 && m[511] == 0xAA;
    assert m[446 + i * 16..446 + i * 16 + 16] == e;
    assert forall x :: 0 <= x < 16 ==> m[446 + i * 16 + x] == e[x];
    ReadsPartition(p[i]);
  }

  /** The disk begins with such a record, and partition `i` is its first of type FAT16 and begins with `b`. */
  ghost predicate DiskIs(disk: seq<Sector>, code: seq<Byte>, p: seq<Partition>, i: nat, b: BootRecord) {
    && |code| == 446 && |p| == 4 && (forall j :: 0 <= j < 4 ==> PartitionOk(p[j])) && BootOk(b) && i < 4
    && p[i].ptype in {0x04, 0x06, 0x0E} && (forall j :: 0 <= j < i ==> p[j].ptype !in {0x04, 0x06, 0x0E})
    && 0 < p[i].lba < |disk| && disk[0] == MbrBytes(code, p) && disk[p[i].lba] == BootBytes(b)
  }

  lemma FirstFat(disk: seq<Sector>, code: seq<Byte>, p: seq<Partition>, i: nat, b: BootRecord)
    requires DiskIs(disk, code, p, i, b)
    ensures FatEntry(disk[0], 0) == Some(i)
  {
    hide MbrBytes, BootBytes, FatEntry;
    FirstFrom(disk[0], code, p, i, 0);
  }

  lemma {:induction false} FirstFrom(m: Sector, code: seq<Byte>, p: seq<Partition>, i: nat, k: nat)
    requires |code| == 446 && |p| == 4 && (forall j :: 0 <= j < 4 ==> PartitionOk(p[j])) && k <= i < 4
    requires m == MbrBytes(code, p) && p[i].ptype in {0x04, 0x06, 0x0E}
    requires forall j :: 0 <= j < i ==> p[j].ptype !in {0x04, 0x06, 0x0E}
    ensures FatEntry(m, k) == Some(i)
    decreases i - k
  {
    hide MbrBytes;
    ReadsMbr(code, p, k);
    if k < i {
      FirstFrom(m, code, p, i, k + 1);
    }
  }

  /** The areas in front of the clusters fit the partition. */
  predicate AreasFit(reserved: nat, numFats: nat, fatSize: nat, rootEntries: nat, lba: nat, sectors: nat) {
    lba + sectors < DWORD && reserved + numFats * fatSize + (rootEntries * 32 + 511) / 512 <= sectors
  }

  /** Reserved sectors, tables, root directory, then as many whole clusters as there is room for. */
  predicate Consecutive(g: Geometry, spc: nat, reserved: nat, numFats: nat, fatSize: nat, rootEntries: nat,
                        lba: nat, sectors: nat)
  {
    var end := lba + sectors;
    && g.partLba == lba && g.fatLba == lba + reserved && g.fatSectors == fatSize && g.numFats == numFats
    && g.rootLba == g.fatLba + numFats * fatSize
    && 512 * g.rootSectors - 512 < 32 * rootEntries <= 512 * g.rootSectors
    && g.dataLba == g.rootLba + g.rootSectors <= end && g.spc == spc
    && (g.maxCluster - 1) * spc <= end - g.dataLba < g.maxCluster * spc
  }

  /** Mounting such a disk: it succeeds exactly for 512-byte sectors and counts that are not zero. */
  lemma MountGiven(disk: seq<Sector>, code: seq<Byte>, p: seq<Partition>, i: nat, b: BootRecord)
    requires DiskIs(disk, code, p, i, b)
    ensures Mounted(disk).Some? <==> b.bytesPerSector == 512 && b.spc != 0 && b.numFats != 0 && b.fatSize != 0
    ensures Mounted(disk).Some? && AreasFit(b.reserved, b.numFats, b.fatSize, b.rootEntries, p[i].lba, p[i].sectors) ==>
      Consecutive(Mounted(disk).value, b.spc, b.reserved, b.numFats, b.fatSize, b.rootEntries, p[i].lba, p[i].sectors)
  {
    hide MbrBytes, BootBytes, FatEntry, LayoutOf, Consecutive, AreasFit;
    FirstFat(disk, code, p, i, b);
    ReadsMbr(code, p, i);
    ReadsBoot(b);
    var r := ReadBpb(disk[p[i].lba]);
    if Mounted(disk).Some? && AreasFit(b.reserved, b.numFats, b.fatSize, b.rootEntries, p[i].lba, p[i].sectors) {
      AreasFollow(r, p[i].lba, p[i].sectors);
    }
  }

  lemma AreasFollow(b: Bpb, lba: nat, sectors: nat)
    requires b.spc != 0 && AreasFit(b.reserved, b.numFats, b.fatSize, b.rootEntries, lba, sectors)
    ensures Consecutive(LayoutOf(b, lba, sectors), b.spc, b.reserved, b.numFats, b.fatSize, b.rootEntries, lba, sectors)
  {
    hide Times, Quot;
    var g, room := LayoutOf(b, lba, sectors), sectors - HeaderSectors(b);
    TimesIsProduct(b.numFats, b.fatSize);
    SmallMod(lba + b.reserved);
    SmallMod(lba + b.reserved + Times(b.numFats, b.fatSize));
    SmallMod(lba + HeaderSectors(b));
    SmallMod(HeaderSectors(b));
    SmallMod(room);
    assert g.dataLba == lba + HeaderSectors(b) && g.maxCluster == 1 + Quot(room, b.spc);
    QuotRoom(room, b.spc);
  }

  lemma QuotRoom(room: nat, k: nat)
    requires 0 < k
    ensures Quot(room, k) * k <= room < (1 + Quot(room, k)) * k
  {
    var q := Quot(room, k);
    QuotBounds(room, k);
    TimesIsProduct(q, k);
    assert (1 + q) * k == q * k + k;
  }
}
