/** 32-byte directory entries, tables of them, and the directory a table stands for. */
module Dirents {
  import opened Options
  import opened Bytes
  import opened Names
  import opened Tree

  type Dirent = e: seq<Byte> | |e| == 32 witness seq(32, _ => 0)

  const ATTR_DIR: Byte := 0x10
  const DELETED: Byte := 0xE5

  function NameOf(e: Dirent): Name { e[..11] }
  function Attr(e: Dirent): Byte { e[11] }
  function Cluster(e: Dirent): (c: nat) ensures c < 0x10000 { Rd16(e, 26) }
  function Size(e: Dirent): (n: nat) ensures n < 0x1_0000_0000 { Rd32(e, 28) }

  predicate IsDirEnt(e: Dirent) { Attr(e) / 16 % 2 == 1 }
  predicate IsVolume(e: Dirent) { Attr(e) / 8 % 2 == 1 }

  /** Neither an end marker nor deleted, a long-name fragment or a volume label. */
  predicate InUse(e: Dirent) {
    e[0] != 0 && e[0] != DELETED && Attr(e) != 0x0F && !IsVolume(e)
  }

  predicate IsDotEnt(e: Dirent) { e[0] == DOT }

  /** A fresh entry: zeroed except for the given fields. */
  function MakeEntry(nm: Name, attr: Byte, cluster: nat, size: nat): (e: Dirent)
    requires cluster < 0x10000 && size < 0x1_0000_0000
    ensures NameOf(e) == nm && Attr(e) == attr && Cluster(e) == cluster && Size(e) == size
  {
    var front: seq<Byte> := nm + [attr] + seq(14, _ => 0);
    var e := front + Le16(cluster) + Le32(size);
    assert e[..11] == nm;
    assert e[26] == Le16(cluster)[0] && e[27] == Le16(cluster)[1];
    assert e[28] == Le32(size)[0] && e[29] == Le32(size)[1] && e[30] == Le32(size)[2] && e[31] == Le32(size)[3];
    e
  }

  /** An entry pointed at new data; name and attributes stay. */
  function WithData(e: Dirent, cluster: nat, size: nat): (r: Dirent)
    requires cluster < 0x10000 && size < 0x1_0000_0000
    ensures NameOf(r) == NameOf(e) && Attr(r) == Attr(e) && Cluster(r) == cluster && Size(r) == size
  {
    var r := e[..20] + [0, 0] + e[22..26] + Le16(cluster) + Le32(size);
    assert r[..11] == e[..11];
    assert r[26] == Le16(cluster)[0] && r[27] == Le16(cluster)[1];
    assert r[28] == Le32(size)[0] && r[29] == Le32(size)[1] && r[30] == Le32(size)[2] && r[31] == Le32(size)[3];
    r
  }

  /** `r` is `e` with a new first cluster and size; the high half of the cluster is zero, all else as it was. */
  predicate Repointed(e: seq<Byte>, r: seq<Byte>, cluster: nat, size: nat) {
    && |e| == |r| == 32 && r[..20] == e[..20] && r[20..22] == [0, 0] && r[22..26] == e[22..26]
    && Number(r[26..28]) == cluster && Number(r[28..32]) == size
  }

  lemma WithDataBytes(e: Dirent, cluster: nat, size: nat)
    requires cluster < 0x10000 && size < 0x1_0000_0000
    ensures Repointed(e, WithData(e, cluster, size), cluster, size)
  {
    hide Le16, Le32;
    var r := WithData(e, cluster, size);
    Rd16Is(r, 26);
    Rd32Is(r, 28);
    assert r[..20] == e[..20] && r[20..22] == [0, 0] && r[22..26] == e[22..26];
  }

  /** A fresh entry has nothing but its fields. */
  lemma MakeEntryBytes(nm: Name, attr: Byte, cluster: nat, size: nat)
    requires cluster < 0x10000 && size < 0x1_0000_0000
    ensures var e := MakeEntry(nm, attr, cluster, size);
      && e[..11] == nm && e[11] == attr && (forall k :: 12 <= k < 26 ==> e[k] == 0)
      && Number(e[26..28]) == cluster && Number(e[28..32]) == size
  {
    hide Le16, Le32;
    var e := MakeEntry(nm, attr, cluster, size);
    Rd16Is(e, 26);
    Rd32Is(e, 28);
  }

  // ---- searching a table ------------------------------------------------------------

  /** dir_find: the first entry in use with this name, before any end marker. */
  function Find(es: seq<Dirent>, nm: Name, from: nat): (r: Option<nat>)
    requires from <= |es|
    ensures r.Some? ==> from <= r.value < |es| && InUse(es[r.value]) && NameOf(es[r.value]) == nm
    decreases |es| - from
  {
    if from == |es| || es[from][0] == 0 then None
    else if InUse(es[from]) && NameOf(es[from]) == nm then Some(from)
    else Find(es, nm, from + 1)
  }

  /** dir_free_slot: the first end marker or deleted entry. */
  function FreeSlot(es: seq<Dirent>, from: nat): (r: Option<nat>)
    requires from <= |es|
    ensures r.Some? ==> from <= r.value < |es| && (es[r.value][0] == 0 || es[r.value][0] == DELETED)
    ensures r.Some? ==> forall i :: from <= i < r.value ==> es[i][0] != 0 && es[i][0] != DELETED
    ensures r.None? ==> forall i :: from <= i < |es| ==> es[i][0] != 0 && es[i][0] != DELETED
    decreases |es| - from
  {
    if from == |es| then None
    else if es[from][0] == 0 || es[from][0] == DELETED then Some(from)
    else FreeSlot(es, from + 1)
  }

  /** The emptiness test of fat_rm: an entry in use, other than "." and "..", before any end marker. */
  predicate Occupied(es: seq<Dirent>, from: nat)
    requires from <= |es|
    decreases |es| - from
  {
    from < |es| && es[from][0] != 0 && ((InUse(es[from]) && !IsDotEnt(es[from])) || Occupied(es, from + 1))
  }

  // ---- the directory a table stands for -------------------------------------------------

  /** Nothing in use follows an end marker. */
  ghost predicate EndOk(es: seq<Dirent>) {
    forall i, j :: 0 <= i < j < |es| && es[i][0] == 0 ==> !InUse(es[j])
  }

  ghost predicate UniqueNames(es: seq<Dirent>) {
    forall i, j :: 0 <= i < j < |es| && InUse(es[i]) && InUse(es[j]) ==> NameOf(es[i]) != NameOf(es[j])
  }

  ghost predicate NodeRep(e: Dirent, n: Node) {
    match n
    case Sub(id) => IsDirEnt(e) && Cluster(e) == id
    case File(h, content) => !IsDirEnt(e) && Cluster(e) == h && Size(e) == |content|
  }

  ghost predicate Sound(es: seq<Dirent>, entries: map<Name, Node>) {
    forall i :: 0 <= i < |es| && InUse(es[i]) && !IsDotEnt(es[i]) ==>
      NameOf(es[i]) in entries && NodeRep(es[i], entries[NameOf(es[i])])
  }

  ghost predicate Listed(es: seq<Dirent>, nm: Name) {
    nm[0] != DOT && exists i :: 0 <= i < |es| && InUse(es[i]) && NameOf(es[i]) == nm
  }

  ghost predicate Complete(es: seq<Dirent>, entries: map<Name, Node>) {
    forall nm :: nm in entries ==> Listed(es, nm)
  }

  predicate DotAt(es: seq<Dirent>, i: nat, nm: Name, cluster: nat) {
    i < |es| && InUse(es[i]) && NameOf(es[i]) == nm && IsDirEnt(es[i]) && Cluster(es[i]) == cluster
  }

  /** "." and ".." come first in a subdirectory and name it and its parent; the root has neither. */
  ghost predicate Dots(es: seq<Dirent>, d: nat, parent: nat) {
    && (d != 0 ==> DotAt(es, 0, DOT_NAME, d) && DotAt(es, 1, DOTDOT_NAME, parent))
    && (forall i :: 0 <= i < |es| && InUse(es[i]) && IsDotEnt(es[i]) ==> d != 0 && i < 2)
  }

  ghost predicate DirRep(es: seq<Dirent>, d: nat, dir: Dir) {
    && EndOk(es) && UniqueNames(es)
    && Sound(es, dir.entries) && Complete(es, dir.entries) && Dots(es, d, dir.parent)
  }

  lemma {:induction false} FindNone(es: seq<Dirent>, nm: Name, from: nat)
    requires from <= |es| && EndOk(es) && Find(es, nm, from) == None
    ensures forall i :: from <= i < |es| && InUse(es[i]) ==> NameOf(es[i]) != nm
    decreases |es| - from
  {
    if from < |es| && es[from][0] != 0 {
      FindNone(es, nm, from + 1);
    }
  }

  lemma FindIndex(es: seq<Dirent>, nm: Name, i: nat)
    requires EndOk(es) && UniqueNames(es) && i < |es| && InUse(es[i]) && NameOf(es[i]) == nm
    ensures Find(es, nm, 0) == Some(i)
  {
    if Find(es, nm, 0) == None {
      FindNone(es, nm, 0);
    }
  }

  /** A lookup in the table is a lookup in the directory. */
  lemma FindRep(es: seq<Dirent>, d: nat, dir: Dir, nm: Name)
    requires DirRep(es, d, dir) && nm[0] != DOT
    ensures Find(es, nm, 0).Some? <==> nm in dir.entries
    ensures Find(es, nm, 0).Some? ==> NodeRep(es[Find(es, nm, 0).value], dir.entries[nm])
  {
    if nm in dir.entries {
      assert Listed(es, nm);
      var i :| 0 <= i < |es| && InUse(es[i]) && NameOf(es[i]) == nm;
      FindIndex(es, nm, i);
    }
  }

  lemma FindDots(es: seq<Dirent>, d: nat, dir: Dir)
    requires DirRep(es, d, dir) && d != 0
    ensures Find(es, DOT_NAME, 0) == Some(0) && Find(es, DOTDOT_NAME, 0) == Some(1)
    ensures |es| >= 2 && IsDirEnt(es[0]) && Cluster(es[0]) == d && IsDirEnt(es[1]) && Cluster(es[1]) == dir.parent
  {
    FindIndex(es, DOT_NAME, 0);
    FindIndex(es, DOTDOT_NAME, 1);
  }

  lemma {:induction false} OccupiedIs(es: seq<Dirent>, from: nat)
    requires from <= |es| && EndOk(es)
    ensures Occupied(es, from) <==> exists i :: from <= i < |es| && InUse(es[i]) && !IsDotEnt(es[i])
    decreases |es| - from
  {
    if from < |es| && es[from][0] != 0 {
      OccupiedIs(es, from + 1);
    }
  }

  lemma OccupiedRep(es: seq<Dirent>, d: nat, dir: Dir)
    requires DirRep(es, d, dir)
    ensures Occupied(es, 0) <==> dir.entries != map[]
  {
    OccupiedIs(es, 0);
    if dir.entries != map[] {
      var nm :| nm in dir.entries;
      assert Listed(es, nm);
      var i :| 0 <= i < |es| && InUse(es[i]) && NameOf(es[i]) == nm;
      assert NameOf(es[i])[0] == es[i][0];
    }
  }

  // ---- entries that are passed over ------------------------------------------------------------

  /** Bit 3 of the attribute byte: a volume label, or a part of a long name. */
  predicate Label(e: Dirent) { e[11] / 8 % 2 == 1 }

  lemma {:induction false} PassedOver(es: seq<Dirent>, i: nat, e: Dirent, nm: Name, from: nat)
    requires i < |es| && es[i][0] != 0 && !InUse(es[i]) && e[0] != 0 && !InUse(e) && from <= |es|
    ensures Find(es[i := e], nm, from) == Find(es, nm, from)
    ensures Occupied(es[i := e], from) <==> Occupied(es, from)
    decreases |es| - from
  {
    if from < |es| {
      PassedOver(es, i, e, nm, from + 1);
    }
  }

  /**
   * A volume label or long-name entry counts for nothing: with a deleted entry in
   * its place every search, the emptiness test and the directory are the same.
   */
  lemma LabelIgnored(es: seq<Dirent>, i: nat, e: Dirent, nm: Name, d: nat, dir: Dir)
    requires i < |es| && Label(es[i]) && es[i][0] != 0 && e[0] == 0xE5
    ensures Find(es[i := e], nm, 0) == Find(es, nm, 0) && Find(es, nm, 0) != Some(i)
    ensures Occupied(es[i := e], 0) <==> Occupied(es, 0)
    ensures DirRep(es[i := e], d, dir) <==> DirRep(es, d, dir)
  {
    hide Find, Occupied, DirRep;
    assert !InUse(es[i]) && !InUse(e);
    PassedOver(es, i, e, nm, 0);
    if DirRep(es, d, dir) { RepWithout(es, i, e, d, dir); }
    if DirRep(es[i := e], d, dir) {
      RepWithout(es[i := e], i, es[i], d, dir);
      assert es[i := e][i := es[i]] == es;
    }
  }

  lemma RepWithout(es: seq<Dirent>, i: nat, e: Dirent, d: nat, dir: Dir)
    requires i < |es| && es[i][0] != 0 && !InUse(es[i]) && e[0] != 0 && !InUse(e) && DirRep(es, d, dir)
    ensures DirRep(es[i := e], d, dir)
  {
    hide Complete, Dots, Listed;
    DotsKept(es, d, dir.parent, i, e);
    assert Complete(es[i := e], dir.entries) by {
      forall n | n in dir.entries ensures Listed(es[i := e], n) { ListedWithout(es, i, e, n, dir.entries); }
      CompleteIs(es[i := e], dir.entries);
    }
  }

  lemma ListedWithout(es: seq<Dirent>, i: nat, e: Dirent, nm: Name, entries: map<Name, Node>)
    requires i < |es| && !InUse(es[i]) && Complete(es, entries) && nm in entries
    ensures Listed(es[i := e], nm)
  {
    assert Listed(es, nm);
    var j :| 0 <= j < |es| && InUse(es[j]) && NameOf(es[j]) == nm;
    assert InUse(es[i := e][j]) && NameOf(es[i := e][j]) == nm;
  }

  // ---- changing a table ---------------------------------------------------------------------

  ghost predicate Fits(e: Dirent, nm: Name, n: Node) {
    InUse(e) && NameOf(e) == nm && nm[0] != DOT && NodeRep(e, n)
  }

  lemma DotsKept(es: seq<Dirent>, d: nat, parent: nat, i: nat, e: Dirent)
    requires Dots(es, d, parent) && i < |es| && (InUse(e) ==> !IsDotEnt(e))
    requires !(InUse(es[i]) && IsDotEnt(es[i]))
    ensures Dots(es[i := e], d, parent)
  {
    if d != 0 {
      assert NameOf(es[0])[0] == es[0][0] == DOT && NameOf(es[1])[0] == es[1][0] == DOT;
      assert i >= 2;
    }
  }

  lemma CompleteKept(es: seq<Dirent>, entries: map<Name, Node>, i: nat, e: Dirent, nm: Name)
    requires Complete(es, entries) && i < |es| && InUse(e) && NameOf(e) == nm
    requires InUse(es[i]) ==> NameOf(es[i]) == nm
    ensures forall n :: n in entries ==> Listed(es[i := e], n)
  {
    forall n | n in entries ensures Listed(es[i := e], n) {
      assert Listed(es, n);
      var j :| 0 <= j < |es| && InUse(es[j]) && NameOf(es[j]) == n;
      assert InUse(es[i := e][j]) && NameOf(es[i := e][j]) == n;
    }
  }

  /** A new entry in the first free slot adds its name to the directory. */
  lemma CreateRep(es: seq<Dirent>, d: nat, dir: Dir, i: nat, e: Dirent, nm: Name, n: Node)
    requires DirRep(es, d, dir) && FreeSlot(es, 0) == Some(i) && Find(es, nm, 0) == None && Fits(e, nm, n)
    ensures DirRep(es[i := e], d, dir.(entries := dir.entries[nm := n]))
  {
    hide Complete, Find, FreeSlot, Dots, Listed;
    var es', entries' := es[i := e], dir.entries[nm := n];
    assert es'[i][0] == NameOf(es'[i])[0];
    FindNone(es, nm, 0);
    DotsKept(es, d, dir.parent, i, e);
    assert Complete(es', entries') by {
      CompleteKept(es, dir.entries, i, e, nm);
      ListedAt(es', i, nm);
      CompleteIs(es', entries');
    }
  }

  lemma ListedAt(es: seq<Dirent>, i: nat, nm: Name)
    requires i < |es| && InUse(es[i]) && NameOf(es[i]) == nm && nm[0] != DOT
    ensures Listed(es, nm)
  {
  }

  lemma CompleteIs(es: seq<Dirent>, entries: map<Name, Node>)
    requires forall n :: n in entries ==> Listed(es, n)
    ensures Complete(es, entries)
  {
  }

  /** Rewriting an entry under its own name replaces that node. */
  lemma RewriteRep(es: seq<Dirent>, d: nat, dir: Dir, i: nat, e: Dirent, nm: Name, n: Node)
    requires DirRep(es, d, dir) && Find(es, nm, 0) == Some(i) && Fits(e, nm, n)
    ensures DirRep(es[i := e], d, dir.(entries := dir.entries[nm := n]))
  {
    hide Complete, Find, Dots, Listed;
    var es', entries' := es[i := e], dir.entries[nm := n];
    assert es'[i][0] == NameOf(es'[i])[0] == NameOf(es[i])[0] == es[i][0];
    DotsKept(es, d, dir.parent, i, e);
    assert Complete(es', entries') by {
      CompleteKept(es, dir.entries, i, e, nm);
      ListedAt(es', i, nm);
      CompleteIs(es', entries');
    }
  }

  /** Marking an entry deleted takes its name out of the directory. */
  lemma EraseRep(es: seq<Dirent>, d: nat, dir: Dir, i: nat, nm: Name)
    requires DirRep(es, d, dir) && Find(es, nm, 0) == Some(i) && nm[0] != DOT
    ensures DirRep(es[i := es[i][0 := DELETED]], d, dir.(entries := dir.entries - {nm}))
  {
    hide Complete, Find, Dots, Listed;
    var e: Dirent := es[i][0 := DELETED];
    var es', entries' := es[i := e], dir.entries - {nm};
    assert NameOf(es[i])[0] == es[i][0];
    DotsKept(es, d, dir.parent, i, e);
    EraseComplete(es, dir.entries, i, e, nm);
  }

  lemma EraseComplete(es: seq<Dirent>, entries: map<Name, Node>, i: nat, e: Dirent, nm: Name)
    requires Complete(es, entries) && i < |es| && InUse(es[i]) && NameOf(es[i]) == nm
    ensures Complete(es[i := e], entries - {nm})
  {
    forall n | n in entries - {nm} ensures Listed(es[i := e], n) {
      assert Listed(es, n);
      var j :| 0 <= j < |es| && InUse(es[j]) && NameOf(es[j]) == n;
      assert InUse(es[i := e][j]) && NameOf(es[i := e][j]) == n;
    }
  }

  const EMPTY_ENTRY: Dirent := Zeros(32)

  /** The table fat_mkdir writes for cluster `c` under directory `p`. */
  function FreshTable(n: nat, c: nat, p: nat): (es: seq<Dirent>)
    requires n >= 2 && c < 0x10000 && p < 0x10000
    ensures |es| == n
  {
    [MakeEntry(DOT_NAME, ATTR_DIR, c, 0), MakeEntry(DOTDOT_NAME, ATTR_DIR, p, 0)] + seq(n - 2, _ => EMPTY_ENTRY)
  }

  lemma FreshRep(n: nat, c: nat, p: nat, depth: nat)
    requires n >= 2 && 0 < c < 0x10000 && p < 0x10000
    ensures DirRep(FreshTable(n, c, p), c, Dir(p, depth, map[]))
  {
    hide MakeEntry;
    var es := FreshTable(n, c, p);
    assert forall i :: 2 <= i < n ==> es[i] == EMPTY_ENTRY && !InUse(es[i]);
    assert NameOf(es[0])[0] == DOT && NameOf(es[1])[0] == DOT && es[0][0] == DOT && es[1][0] == DOT;
    assert DOT_NAME[1] != DOTDOT_NAME[1];
  }
}
