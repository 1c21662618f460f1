/** The file tree a volume stands for: directories by first cluster (0 is the root), files by name. */
module Tree {
  import opened Bytes
  import opened Names

  datatype Node = File(head: nat, content: seq<Byte>) | Sub(id: nat) {
    function Head(): nat { if File? then head else id }
  }

  datatype Dir = Dir(parent: nat, depth: nat, entries: map<Name, Node>)

  /** `home` records, for every first cluster, the directory and name that refer to it. */
  datatype Tree = Tree(dirs: map<nat, Dir>, home: map<nat, (nat, Name)>) {

    ghost predicate Has(d: nat, nm: Name) { d in dirs && nm in dirs[d].entries }

    ghost function At(d: nat, nm: Name): Node
      requires Has(d, nm)
    {
      dirs[d].entries[nm]
    }
  }

  /** A node agrees with the rest of the tree: one name per first cluster, parents and depths. */
  ghost predicate NodeOk(t: Tree, d: nat, nm: Name)
    requires t.Has(d, nm)
  {
    && nm[0] != DOT
    && match t.At(d, nm)
       case Sub(id) =>
         && id >= 2 && id in t.home && t.home[id] == (d, nm)
         && id in t.dirs && t.dirs[id].parent == d && t.dirs[id].depth == t.dirs[d].depth + 1
       case File(h, content) =>
         && (h == 0 <==> content == [])
         && (h != 0 ==> h >= 2 && h !in t.dirs && h in t.home && t.home[h] == (d, nm))
  }

  ghost predicate HomeOk(t: Tree, h: nat)
    requires h in t.home
  {
    h >= 2 && t.Has(t.home[h].0, t.home[h].1) && t.At(t.home[h].0, t.home[h].1).Head() == h
  }

  ghost predicate NodesOk(t: Tree) { forall d: nat, nm: Name :: t.Has(d, nm) ==> NodeOk(t, d, nm) }

  ghost predicate HomesOk(t: Tree) { forall h :: h in t.home ==> HomeOk(t, h) }

  ghost predicate RootOk(t: Tree) { 0 in t.dirs && t.dirs[0].parent == 0 && t.dirs[0].depth == 0 }

  /** A directory is the root or is named by an entry. */
  ghost predicate Named(t: Tree, d: nat) {
    d == 0 || (d in t.home && t.Has(t.home[d].0, t.home[d].1) && t.At(t.home[d].0, t.home[d].1) == Sub(d))
  }

  ghost predicate DirsOk(t: Tree) { forall d :: d in t.dirs ==> Named(t, d) }

  ghost predicate TreeOk(t: Tree) { RootOk(t) && NodesOk(t) && HomesOk(t) && DirsOk(t) }

  // ---- the three changes -------------------------------------------------------

  /** First cluster given up when (d, nm) is rewritten or removed; 0 if none. */
  ghost function OldHead(t: Tree, d: nat, nm: Name): nat {
    if t.Has(d, nm) then t.At(d, nm).Head() else 0
  }

  ghost function PutFile(t: Tree, d: nat, nm: Name, h: nat, content: seq<Byte>): Tree
    requires d in t.dirs
  {
    var home := t.home - {OldHead(t, d, nm)};
    Tree(t.dirs[d := t.dirs[d].(entries := t.dirs[d].entries[nm := File(h, content)])],
         if h == 0 then home else home[h := (d, nm)])
  }

  ghost function Remove(t: Tree, d: nat, nm: Name): Tree
    requires t.Has(d, nm)
  {
    var dirs := t.dirs[d := t.dirs[d].(entries := t.dirs[d].entries - {nm})];
    Tree(if t.At(d, nm).Sub? then dirs - {t.At(d, nm).id} else dirs, t.home - {t.At(d, nm).Head()})
  }

  ghost function MakeDir(t: Tree, d: nat, nm: Name, c: nat): Tree
    requires d in t.dirs
  {
    var dir := t.dirs[d];
    Tree(t.dirs[d := dir.(entries := dir.entries[nm := Sub(c)])][c := Dir(d, dir.depth + 1, map[])],
         t.home[c := (d, nm)])
  }

  /** What the driver establishes before it writes a file: a usable name and a fresh first cluster. */
  ghost predicate CanPut(t: Tree, d: nat, nm: Name, h: nat, content: seq<Byte>) {
    && d in t.dirs && nm[0] != DOT
    && (t.Has(d, nm) ==> t.At(d, nm).File?)
    && (h == 0 <==> content == [])
    && (h != 0 ==> h >= 2 && h !in t.dirs && (h in t.home ==> h == OldHead(t, d, nm)))
  }

  ghost predicate CanRemove(t: Tree, d: nat, nm: Name): (r: bool)
    ensures r ==> t.Has(d, nm)
  {
    t.Has(d, nm) && (t.At(d, nm).Sub? && t.At(d, nm).id in t.dirs ==> t.dirs[t.At(d, nm).id].entries == map[])
  }

  ghost predicate CanMake(t: Tree, d: nat, nm: Name, c: nat) {
    d in t.dirs && nm[0] != DOT && !t.Has(d, nm) && c >= 2 && c !in t.dirs && c !in t.home
  }

  lemma HeadUnique(t: Tree, d: nat, nm: Name, d': nat, nm': Name)
    requires TreeOk(t) && t.Has(d, nm) && t.Has(d', nm') && t.At(d, nm).Head() == t.At(d', nm').Head() != 0
    ensures d == d' && nm == nm'
  {
    assert NodeOk(t, d, nm) && NodeOk(t, d', nm');
  }

  lemma PutFileNode(t: Tree, d: nat, nm: Name, h: nat, content: seq<Byte>, e: nat, n: Name)
    requires TreeOk(t) && CanPut(t, d, nm, h, content) && PutFile(t, d, nm, h, content).Has(e, n)
    ensures NodeOk(PutFile(t, d, nm, h, content), e, n)
  {
    hide NodesOk, HomesOk, DirsOk;
    if (e, n) != (d, nm) {
      assert t.Has(e, n);
      assert NodeOk(t, e, n) by { NodeAt(t, e, n); }
      if t.Has(d, nm) && t.At(e, n).Head() == t.At(d, nm).Head() != 0 {
        HeadUnique(t, e, n, d, nm);
      }
    }
  }

  lemma NodeAt(t: Tree, d: nat, nm: Name)
    requires TreeOk(t) && t.Has(d, nm)
    ensures NodeOk(t, d, nm)
  {
  }

  lemma PutFileHome(t: Tree, d: nat, nm: Name, h: nat, content: seq<Byte>, k: nat)
    requires TreeOk(t) && CanPut(t, d, nm, h, content) && k in PutFile(t, d, nm, h, content).home
    ensures HomeOk(PutFile(t, d, nm, h, content), k)
  {
    hide NodesOk, DirsOk;
    if k != h {
      assert HomeOk(t, k);
    }
  }

  lemma PutFileNamed(t: Tree, d: nat, nm: Name, h: nat, content: seq<Byte>, e: nat)
    requires TreeOk(t) && CanPut(t, d, nm, h, content) && e in t.dirs
    ensures Named(PutFile(t, d, nm, h, content), e)
  {
    hide HomesOk;
    assert Named(t, e);
    if t.Has(d, nm) { NodeAt(t, d, nm); }
  }

  lemma PutFileOk(t: Tree, d: nat, nm: Name, h: nat, content: seq<Byte>)
    requires TreeOk(t) && CanPut(t, d, nm, h, content)
    ensures TreeOk(PutFile(t, d, nm, h, content))
  {
    hide NodeOk, HomeOk, Named;
    var t' := PutFile(t, d, nm, h, content);
    forall e: nat, n: Name | t'.Has(e, n) ensures NodeOk(t', e, n) { PutFileNode(t, d, nm, h, content, e, n); }
    forall k | k in t'.home ensures HomeOk(t', k) { PutFileHome(t, d, nm, h, content, k); }
    forall e | e in t'.dirs ensures Named(t', e) { PutFileNamed(t, d, nm, h, content, e); }
  }

  lemma RemoveNode(t: Tree, d: nat, nm: Name, e: nat, n: Name)
    requires TreeOk(t) && CanRemove(t, d, nm) && Remove(t, d, nm).Has(e, n)
    ensures NodeOk(Remove(t, d, nm), e, n)
  {
    hide NodesOk, HomesOk, DirsOk;
    assert t.Has(e, n) && (e, n) != (d, nm);
    NodeAt(t, e, n);
    NodeAt(t, d, nm);
    if t.At(e, n).Head() == t.At(d, nm).Head() != 0 {
      HeadUnique(t, e, n, d, nm);
    }
  }

  lemma RemoveHome(t: Tree, d: nat, nm: Name, k: nat)
    requires TreeOk(t) && CanRemove(t, d, nm) && k in Remove(t, d, nm).home
    ensures HomeOk(Remove(t, d, nm), k)
  {
    hide NodesOk, DirsOk;
    NodeAt(t, d, nm);
    assert HomeOk(t, k);
  }

  lemma RemoveNamed(t: Tree, d: nat, nm: Name, e: nat)
    requires TreeOk(t) && CanRemove(t, d, nm) && e in Remove(t, d, nm).dirs
    ensures Named(Remove(t, d, nm), e)
  {
    hide NodesOk, HomesOk;
    NodeAt(t, d, nm);
    assert Named(t, e);
  }

  lemma RemoveOk(t: Tree, d: nat, nm: Name)
    requires TreeOk(t) && CanRemove(t, d, nm)
    ensures TreeOk(Remove(t, d, nm))
  {
    hide HomeOk, Named;
    var t' := Remove(t, d, nm);
    NodeAt(t, d, nm);
    forall e: nat, n: Name | t'.Has(e, n) ensures NodeOk(t', e, n) { RemoveNode(t, d, nm, e, n); }
    forall k | k in t'.home ensures HomeOk(t', k) { RemoveHome(t, d, nm, k); }
    forall e | e in t'.dirs ensures Named(t', e) { RemoveNamed(t, d, nm, e); }
  }

  lemma MakeDirNode(t: Tree, d: nat, nm: Name, c: nat, e: nat, n: Name)
    requires TreeOk(t) && CanMake(t, d, nm, c) && MakeDir(t, d, nm, c).Has(e, n)
    ensures NodeOk(MakeDir(t, d, nm, c), e, n)
  {
    hide NodesOk, HomesOk, DirsOk;
    if (e, n) != (d, nm) {
      assert t.Has(e, n);
      NodeAt(t, e, n);
    }
  }

  lemma MakeDirHome(t: Tree, d: nat, nm: Name, c: nat, k: nat)
    requires TreeOk(t) && CanMake(t, d, nm, c) && k in MakeDir(t, d, nm, c).home
    ensures HomeOk(MakeDir(t, d, nm, c), k)
  {
    hide NodesOk, DirsOk;
    if k != c {
      assert HomeOk(t, k);
    }
  }

  lemma MakeDirNamed(t: Tree, d: nat, nm: Name, c: nat, e: nat)
    requires TreeOk(t) && CanMake(t, d, nm, c) && e in MakeDir(t, d, nm, c).dirs
    ensures Named(MakeDir(t, d, nm, c), e)
  {
    hide NodesOk, HomesOk;
    if e != c {
      assert Named(t, e);
    }
  }

  lemma MakeDirOk(t: Tree, d: nat, nm: Name, c: nat)
    requires TreeOk(t) && CanMake(t, d, nm, c)
    ensures TreeOk(MakeDir(t, d, nm, c))
  {
    hide NodeOk, HomeOk, Named;
    var t' := MakeDir(t, d, nm, c);
    forall e: nat, n: Name | t'.Has(e, n) ensures NodeOk(t', e, n) { MakeDirNode(t, d, nm, c, e, n); }
    forall k | k in t'.home ensures HomeOk(t', k) { MakeDirHome(t, d, nm, c, k); }
    forall e | e in t'.dirs ensures Named(t', e) { MakeDirNamed(t, d, nm, c, e); }
  }

  /** Every directory but the root sits in its parent under the name recorded for it. */
  lemma ParentOf(t: Tree, d: nat)
    requires TreeOk(t) && d in t.dirs && d != 0
    ensures d in t.home && t.dirs[d].parent in t.dirs && t.home[d].0 == t.dirs[d].parent
    ensures t.Has(t.home[d].0, t.home[d].1) && t.At(t.home[d].0, t.home[d].1) == Sub(d)
    ensures t.dirs[d].depth == t.dirs[t.dirs[d].parent].depth + 1
  {
    assert Named(t, d);
    NodeAt(t, t.home[d].0, t.home[d].1);
  }

  /** A tree with any directory besides the root has a non-empty root. */
  lemma {:induction false} RootNotEmpty(t: Tree, d: nat)
    requires TreeOk(t) && d in t.dirs && d != 0
    ensures t.dirs[0].entries != map[]
    decreases t.dirs[d].depth
  {
    ParentOf(t, d);
    var p := t.dirs[d].parent;
    if p == 0 {
      assert t.home[d].1 in t.dirs[0].entries;
    } else {
      RootNotEmpty(t, p);
    }
  }
}
