/** A disk represents at most one tree; none if an entry names a released chain, or a chain in use has no entry. */
module FsUnique {
  import opened Options
  import opened Bytes
  import opened Chains
  import opened Geometry
  import opened Sectors
  import opened Names
  import opened Tree
  import opened Dirents
  import opened Layout
  import opened FsState

  /** Every directory of `t` is in place; nothing is said of files, or of what no entry names. */
  ghost predicate Placed(g: Geometry, disk: seq<Sector>, chains: ChainMap, t: Tree) {
    g.Valid(|disk|) && AllChains(Table(g, disk), chains) && TreeOk(t) && DirsRep(g, disk, chains, t)
  }

  lemma RepPlaced(g: Geometry, disk: seq<Sector>, chains: ChainMap, t: Tree, skip: nat)
    requires Rep(g, disk, chains, t, skip)
    ensures Placed(g, disk, chains, t)
  {
    hide Table, TreeOk, DirsRep, FilesRep, AllChains;
  }

  /** Two representations give a first cluster the same chain. */
  lemma SameChain(g: Geometry, disk: seq<Sector>, cs: ChainMap, t: Tree, cs': ChainMap, t': Tree, h: nat)
    requires Placed(g, disk, cs, t) && Placed(g, disk, cs', t') && h in cs && h in cs'
    ensures cs'[h] == cs[h]
  {
    hide TreeOk, DirsRep, IsChain, Table;
    ChainUnique(Table(g, disk), cs[h], cs'[h]);
  }

  lemma RepValid(g: Geometry, disk: seq<Sector>, chains: ChainMap, t: Tree, skip: nat)
    requires Rep(g, disk, chains, t, skip)
    ensures g.Valid(|disk|) && TreeOk(t)
  {
  }

  lemma PlacedDir(g: Geometry, disk: seq<Sector>, chains: ChainMap, t: Tree, d: nat)
    requires Placed(g, disk, chains, t) && d in t.dirs
    ensures g.Valid(|disk|) && HasLbas(g, chains, d) && DirRep(Entries(g, disk, chains, d), d, t.dirs[d])
    ensures d != 0 ==> d in chains
  {
    hide TreeOk, DirRep, AllChains;
  }

  lemma HomeChain(g: Geometry, disk: seq<Sector>, chains: ChainMap, t: Tree, h: nat)
    requires Rep(g, disk, chains, t, 0) && h in t.home
    ensures h in chains
  {
    hide DirsRep, FilesRep, ChainsOk;
    ZeroHasNoHome(t);
  }

  /** Directory `d` has the same place and the same sectors in both. */
  ghost predicate Shared(cs: ChainMap, t: Tree, cs': ChainMap, t': Tree, d: nat) {
    && d in t.dirs && d in t'.dirs && (d != 0 ==> d in cs && d in cs' && cs'[d] == cs[d])
    && t'.dirs[d].parent == t.dirs[d].parent && t'.dirs[d].depth == t.dirs[d].depth
  }

  /** The nodes are told apart by nothing a directory entry records. */
  ghost predicate SameNode(n: Node, n': Node) {
    match n
    case Sub(id) => n' == n
    case File(h, content) => n'.File? && n'.head == h && |n'.content| == |content|
  }

  lemma EntryNode(e: Dirent, n: Node, n': Node)
    requires NodeRep(e, n) && NodeRep(e, n')
    ensures SameNode(n, n')
  {
  }

  /** In a shared directory both trees have the same names, with nodes that look alike. */
  lemma SameEntries(g: Geometry, disk: seq<Sector>, cs: ChainMap, t: Tree, cs': ChainMap, t': Tree, d: nat, nm: Name)
    requires Placed(g, disk, cs, t) && Placed(g, disk, cs', t') && Shared(cs, t, cs', t', d)
    ensures t.Has(d, nm) <==> t'.Has(d, nm)
    ensures t.Has(d, nm) ==> SameNode(t.At(d, nm), t'.At(d, nm))
  {
    hide Placed, DirRep, NodeRep, SameNode, Find, Entries;
    PlacedDir(g, disk, cs, t, d);
    PlacedDir(g, disk, cs', t', d);
    var es := Entries(g, disk, cs, d);
    assert Entries(g, disk, cs', d) == es by { SameTable(g, disk, cs, cs', d); }
    if nm[0] == DOT {
      NoDotNames(g, disk, cs, t, d, nm);
      NoDotNames(g, disk, cs', t', d, nm);
    } else {
      FindRep(es, d, t.dirs[d], nm);
      FindRep(es, d, t'.dirs[d], nm);
      if t.Has(d, nm) {
        EntryNode(es[Find(es, nm, 0).value], t.At(d, nm), t'.At(d, nm));
      }
    }
  }

  lemma SameTable(g: Geometry, disk: seq<Sector>, cs: ChainMap, cs': ChainMap, d: nat)
    requires g.Valid(|disk|) && HasLbas(g, cs, d) && HasLbas(g, cs', d) && (d != 0 ==> cs'[d] == cs[d])
    ensures Entries(g, disk, cs', d) == Entries(g, disk, cs, d)
  {
  }

  lemma NoDotNames(g: Geometry, disk: seq<Sector>, cs: ChainMap, t: Tree, d: nat, nm: Name)
    requires Placed(g, disk, cs, t) && nm[0] == DOT
    ensures !t.Has(d, nm)
  {
    hide DirsRep, AllChains;
    assert t.Has(d, nm) ==> NodeOk(t, d, nm);
  }

  /** Every directory is shared, from the root down. */
  lemma {:induction false} AllShared(g: Geometry, disk: seq<Sector>, cs: ChainMap, t: Tree, cs': ChainMap, t': Tree,
                                     d: nat)
    requires Placed(g, disk, cs, t) && Placed(g, disk, cs', t') && d in t.dirs
    ensures Shared(cs, t, cs', t', d)
    decreases t.dirs[d].depth
  {
    hide TreeOk, AllChains, DirsRep;
    if d == 0 {
      assert RootOk(t) && RootOk(t') by { RootBoth(t, t'); }
    } else {
      ParentOf(t, d);
      var p, nm := t.home[d].0, t.home[d].1;
      AllShared(g, disk, cs, t, cs', t', p);
      SameEntries(g, disk, cs, t, cs', t', p, nm);
      NodeAt(t', p, nm);
      PlacedDir(g, disk, cs, t, d);
      PlacedDir(g, disk, cs', t', d);
      SameChain(g, disk, cs, t, cs', t', d);
    }
  }

  lemma RootBoth(t: Tree, t': Tree)
    requires TreeOk(t) && TreeOk(t')
    ensures RootOk(t) && RootOk(t')
  {
  }

  /**
   * A tree all of whose directories are in place, but with an entry that names a
   * released chain: no tree whatsoever is represented.
   */
  lemma NoTreeLeft(g: Geometry, disk: seq<Sector>, cs: ChainMap, t: Tree, h: nat, cs': ChainMap, t': Tree)
    requires Rep(g, disk, cs, t, h) && h in t.home && h < |Table(g, disk)| && Table(g, disk)[h] == FREE
    ensures !Rep(g, disk, cs', t', 0)
  {
    hide Rep, TreeOk, Table, IsChain, Placed;
    if Rep(g, disk, cs', t', 0) {
      RepValid(g, disk, cs, t, h);
      RepValid(g, disk, cs', t', 0);
      RepPlaced(g, disk, cs, t, h);
      RepPlaced(g, disk, cs', t', 0);
      var p, nm := HomeEntry(t, h);
      AllShared(g, disk, cs, t, cs', t', p);
      SameEntries(g, disk, cs, t, cs', t', p, nm);
      NodeAt(t', p, nm);
      HomeChain(g, disk, cs', t', h);
      UsedLink(g, disk, cs', t', h);
      assert false;
    }
  }

  /** The first cluster of a chain is in use. */
  lemma UsedLink(g: Geometry, disk: seq<Sector>, chains: ChainMap, t: Tree, h: nat)
    requires Rep(g, disk, chains, t, 0) && h in chains
    ensures h < |Table(g, disk)| && Table(g, disk)[h] != FREE
  {
    hide TreeOk, DirsRep, FilesRep, Table, Disjoint, Covered;
    LinkOfMember(Table(g, disk), chains[h], h);
  }

  /** A tree that is in place, and a chain in use that no entry names: no tree whatsoever is represented. */
  lemma NoTreeBeside(g: Geometry, disk: seq<Sector>, cs: ChainMap, t: Tree, c: nat, cs': ChainMap, t': Tree)
    requires Pending(g, disk, cs, t, 0, c) && c != 0
    ensures !Rep(g, disk, cs', t', 0)
  {
    hide Rep, TreeOk, Pending, Placed;
    if Rep(g, disk, cs', t', 0) {
      RepValid(g, disk, cs', t', 0);
      RepPlaced(g, disk, cs', t', 0);
      PendingFacts(g, disk, cs, t, c);
      var h := CoveredBy(g, disk, cs', t', c);
      var p, nm := HomeEntry(t', h);
      AllShared(g, disk, cs', t', cs, t, p);
      SameEntries(g, disk, cs', t', cs, t, p, nm);
      NodeAt(t, p, nm);
      SameChain(g, disk, cs, t, cs', t', h);
      PendingApart(g, disk, cs, t, c, h);
      assert false;
    }
  }

  lemma PendingFacts(g: Geometry, disk: seq<Sector>, cs: ChainMap, t: Tree, c: nat)
    requires Pending(g, disk, cs, t, 0, c) && c != 0
    ensures Placed(g, disk, cs, t) && TreeOk(t) && c < |Table(g, disk)| && Table(g, disk)[c] != FREE && c >= 2
    ensures forall h :: h in t.home ==> h in cs && h != c
  {
    hide DirsRep, FilesRep, Table, Disjoint, Covered;
    ZeroHasNoHome(t);
    hide TreeOk;
    LinkOfMember(Table(g, disk), cs[c], c);
  }

  lemma PendingApart(g: Geometry, disk: seq<Sector>, cs: ChainMap, t: Tree, c: nat, h: nat)
    requires Pending(g, disk, cs, t, 0, c) && c != 0 && h in cs && h != c
    ensures c !in cs[h]
  {
    hide DirsRep, FilesRep, Table, TreeOk, Covered, IsChain;
    assert Owns(cs, c, c) && !Owns(cs, h, c);
  }

  /** The chain a cluster in use belongs to, and the tree's name for it. */
  lemma CoveredBy(g: Geometry, disk: seq<Sector>, chains: ChainMap, t: Tree, c: nat) returns (h: nat)
    requires Rep(g, disk, chains, t, 0) && 2 <= c < |Table(g, disk)| && Table(g, disk)[c] != FREE
    ensures h in chains && c in chains[h] && h in t.home
  {
    hide DirsRep, FilesRep, Table, TreeOk, Disjoint, AllChains;
    h :| h in chains && c in chains[h];
  }

  /** No tree at all is represented. */
  ghost predicate NoTree(g: Geometry, disk: seq<Sector>) {
    forall cs: ChainMap, t: Tree :: !Rep(g, disk, cs, t, 0)
  }

  /** With the chain of `h` given up, every other file is still stored, and every directory lists its entries. */
  lemma OthersStay(g: Geometry, disk: seq<Sector>, chains: ChainMap, t: Tree, h: nat, d: nat, nm: Name)
    requires Rep(g, disk, chains, t, h) && d in t.dirs
    ensures g.Valid(|disk|) && HasLbas(g, chains, d) && DirRep(Entries(g, disk, chains, d), d, t.dirs[d])
    ensures t.Has(d, nm) && t.At(d, nm).File? && t.At(d, nm).head !in {0, h} ==>
      FileRep(g, disk, chains, t.At(d, nm).head, t.At(d, nm).content)
  {
    hide TreeOk, DirRep, FileRep, ChainsOk;
    if t.Has(d, nm) {
      NodeAt(t, d, nm);
      var n := t.At(d, nm);
      assert n.File? && n.head != 0 ==> FileAt(t, n.head) == Some(n.content);
    }
  }

  lemma HomeEntry(t: Tree, h: nat) returns (p: nat, nm: Name)
    requires TreeOk(t) && h in t.home
    ensures h != 0 && t.Has(p, nm) && t.At(p, nm).Head() == h
  {
    assert HomeOk(t, h);
    p, nm := t.home[h].0, t.home[h].1;
  }

  // ---- uniqueness ----------------------------------------------------------------------------------

  lemma SameFile(g: Geometry, disk: seq<Sector>, cs: ChainMap, t: Tree, cs': ChainMap, t': Tree, d: nat, nm: Name)
    requires Rep(g, disk, cs, t, 0) && Rep(g, disk, cs', t', 0) && t.Has(d, nm) && t'.Has(d, nm)
    requires SameNode(t.At(d, nm), t'.At(d, nm))
    ensures t.At(d, nm) == t'.At(d, nm)
  {
    hide TreeOk, ChainsOk, DirsRep, FileBytes, ClustersFor, Placed;
    RepPlaced(g, disk, cs, t, 0);
    RepPlaced(g, disk, cs', t', 0);
    NodeAt(t, d, nm);
    NodeAt(t', d, nm);
    var n, n' := t.At(d, nm), t'.At(d, nm);
    if n.File? && n.head != 0 {
      assert FileAt(t, n.head) == Some(n.content) && FileAt(t', n.head) == Some(n'.content);
      SameChain(g, disk, cs, t, cs', t', n.head);
    }
  }

  /** One inclusion of the uniqueness theorem. */
  lemma Included(g: Geometry, disk: seq<Sector>, cs: ChainMap, t: Tree, cs': ChainMap, t': Tree)
    requires Rep(g, disk, cs, t, 0) && Rep(g, disk, cs', t', 0)
    ensures forall d :: d in t.dirs ==> d in t'.dirs && t'.dirs[d] == t.dirs[d]
    ensures forall h :: h in t.home ==> h in t'.home && t'.home[h] == t.home[h]
    ensures forall h :: h in cs ==> h in cs' && cs'[h] == cs[h]
  {
    hide Rep, TreeOk, SameNode, Placed;
    RepValid(g, disk, cs, t, 0);
    RepValid(g, disk, cs', t', 0);
    RepPlaced(g, disk, cs, t, 0);
    RepPlaced(g, disk, cs', t', 0);
    forall d | d in t.dirs ensures d in t'.dirs && t'.dirs[d] == t.dirs[d] {
      AllShared(g, disk, cs, t, cs', t', d);
      SameDirectory(g, disk, cs, t, cs', t', d);
    }
    forall h | h in t.home ensures h in t'.home && t'.home[h] == t.home[h] {
      SameHome(t, t', h);
    }
    forall h | h in cs ensures h in cs' && cs'[h] == cs[h] {
      ChainHome(g, disk, cs, t, h);
      HomeChain(g, disk, cs', t', h);
      SameChain(g, disk, cs, t, cs', t', h);
    }
  }

  lemma ChainHome(g: Geometry, disk: seq<Sector>, chains: ChainMap, t: Tree, h: nat)
    requires Rep(g, disk, chains, t, 0) && h in chains
    ensures h in t.home
  {
    hide DirsRep, FilesRep, ChainsOk, TreeOk;
  }

  lemma SameHome(t: Tree, t': Tree, h: nat)
    requires TreeOk(t) && TreeOk(t') && h in t.home
    requires forall d :: d in t.dirs ==> d in t'.dirs && t'.dirs[d] == t.dirs[d]
    ensures h in t'.home && t'.home[h] == t.home[h]
  {
    hide TreeOk;
    var p, nm := HomeEntry(t, h);
    NodeAt(t, p, nm);
    NodeAt(t', p, nm);
  }

  lemma SameDirectory(g: Geometry, disk: seq<Sector>, cs: ChainMap, t: Tree, cs': ChainMap, t': Tree, d: nat)
    requires Rep(g, disk, cs, t, 0) && Rep(g, disk, cs', t', 0) && Shared(cs, t, cs', t', d)
    ensures t'.dirs[d] == t.dirs[d]
  {
    hide Rep, SameNode, Placed;
    RepPlaced(g, disk, cs, t, 0);
    RepPlaced(g, disk, cs', t', 0);
    var es, es' := t.dirs[d].entries, t'.dirs[d].entries;
    forall nm: Name ensures (nm in es <==> nm in es') && (nm in es ==> es[nm] == es'[nm]) {
      SameEntries(g, disk, cs, t, cs', t', d, nm);
      assert t.Has(d, nm) <==> nm in es;
      if nm in es { SameFile(g, disk, cs, t, cs', t', d, nm); }
    }
    assert es == es';
  }

  /** A disk represents at most one tree, in one way. */
  lemma RepUnique(g: Geometry, disk: seq<Sector>, cs: ChainMap, t: Tree, cs': ChainMap, t': Tree)
    requires Rep(g, disk, cs, t, 0) && Rep(g, disk, cs', t', 0)
    ensures t == t' && cs == cs'
  {
    hide Rep;
    Included(g, disk, cs, t, cs', t');
    Included(g, disk, cs', t', cs, t);
    assert t.dirs == t'.dirs && t.home == t'.home;
  }
}
