/** Whole runs of file system operations: the tree stays well formed and both forms of the current directory agree. */
module FsRuns {
  import opened Options
  import opened Bytes
  import opened Names
  import opened Tree
  import opened Paths
  import opened Effects
  import opened Cwd
  import opened CwdText

  /** One successful operation of the driver, as its contract describes it. */
  datatype Op =
    | Put(p: nat, nm: Name, h: nat, data: seq<Byte>)
    | Del(p: nat, nm: Name)
    | Make(p: nat, nm: Name, c: nat)
    | Chdir(path: Text, d: nat)

  /** The tree, the current directory and its text. */
  datatype State = State(tree: Tree, cwd: nat, L: seq<Text>)

  ghost predicate Enabled(s: State, op: Op) {
    match op
    case Put(p, nm, h, data) => CanPut(s.tree, p, nm, h, data)
    case Del(p, nm) => CanRemove(s.tree, p, nm)
    case Make(p, nm, c) => CanMake(s.tree, p, nm, c)
    case Chdir(path, d) =>
      TreeOk(s.tree) && Start(s.cwd, path) in s.tree.dirs && Resolve(s.tree, s.cwd, path) == Some(AtDir(d))
  }

  ghost function Apply(s: State, op: Op): State
    requires Enabled(s, op)
  {
    match op
    case Put(p, nm, h, data) => s.(tree := PutFile(s.tree, p, nm, h, data))
    case Del(p, nm) => s.(tree := Remove(s.tree, p, nm))
    case Make(p, nm, c) => s.(tree := MakeDir(s.tree, p, nm, c))
    case Chdir(path, d) => s.(cwd := d, L := NextCwd(s.L, path))
  }

  /** The current directory is not removed, and no cd keeps the blank component of a "//" path. */
  ghost predicate Gentle(s: State, op: Op) {
    match op
    case Del(p, nm) => s.tree.Has(p, nm) ==> s.tree.At(p, nm) != Sub(s.cwd)
    case Chdir(path, d) => !DoubleSlash(path) || DropsBelow(CwdComps(path), 0)
    case _ => true
  }

  ghost predicate IsRun(s: State, ops: seq<Op>)
    decreases |ops|
  {
    ops != [] ==> Enabled(s, ops[0]) && IsRun(Apply(s, ops[0]), ops[1..])
  }

  ghost predicate IsGentleRun(s: State, ops: seq<Op>)
    decreases |ops|
  {
    ops != [] ==> Enabled(s, ops[0]) && Gentle(s, ops[0]) && IsGentleRun(Apply(s, ops[0]), ops[1..])
  }

  ghost function Final(s: State, ops: seq<Op>): State
    requires IsRun(s, ops)
    decreases |ops|
  {
    if ops == [] then s else Final(Apply(s, ops[0]), ops[1..])
  }

  lemma ApplyOk(s: State, op: Op)
    requires TreeOk(s.tree) && Enabled(s, op)
    ensures TreeOk(Apply(s, op).tree)
  {
    hide TreeOk, CanPut, CanRemove, CanMake;
    match op
    case Put(p, nm, h, data) => PutFileOk(s.tree, p, nm, h, data);
    case Del(p, nm) => RemoveOk(s.tree, p, nm);
    case Make(p, nm, c) => MakeDirOk(s.tree, p, nm, c);
    case Chdir(_, _) =>
  }

  /** Every run keeps the tree well formed. */
  lemma {:induction false} RunOk(s: State, ops: seq<Op>)
    requires TreeOk(s.tree) && IsRun(s, ops)
    ensures TreeOk(Final(s, ops).tree)
    decreases |ops|
  {
    hide TreeOk, Apply, Enabled;
    if ops != [] {
      ApplyOk(s, ops[0]);
      RunOk(Apply(s, ops[0]), ops[1..]);
    }
  }

  // ---- the current directory survives every other operation ------------------------------------

  lemma LeadsAvoids(t: Tree, t': Tree, p: nat, nm: Name, L: seq<Text>, d: nat)
    requires TreeOk(t) && TreeOk(t') && AgreeOffEntry(t, t', p, nm) && ClosedOffEntry(t, t', p, nm)
    requires LeadsTo(t, L, d) && Avoids(t, AtDir(0), L, p, nm)
    ensures LeadsTo(t', L, d)
  {
    hide TreeOk, AgreeOffEntry, ClosedOffEntry;
    RootIn(t');
    WalkAvoids(t, t', p, nm, AtDir(0), L);
  }

  /** A walk without dots can only pass an empty directory as its last stop. */
  lemma {:induction false} EmptyIsLast(t: Tree, hit: Hit, L: seq<Text>, p: nat, nm: Name, d: nat)
    requires TreeOk(t) && NoDots(L) && HitOk(t, hit) && Walk(t, hit, L) == Some(AtDir(d))
    requires CanRemove(t, p, nm) && t.At(p, nm) != Sub(d)
    ensures Avoids(t, hit, L, p, nm)
    decreases |L|
  {
    hide TreeOk, Walk, CanRemove;
    if L != [] {
      WalkStep(t, hit, L);
      var n, h := Name83(L[0]).value, Step(t, hit, L[0]).value;
      DotNames(L[0]);
      if hit.id == p && n == nm {
        RemovedIsEmpty(t, p, nm);
        EmptyEnds(t, h, L[1..], d);
        assert false;
      }
      EmptyIsLast(t, h, L[1..], p, nm, d);
    }
  }

  /** From a file or an empty directory a walk without dots goes nowhere. */
  lemma EmptyEnds(t: Tree, h: Hit, L: seq<Text>, d: nat)
    requires TreeOk(t) && HitOk(t, h) && NoDots(L) && Walk(t, h, L) == Some(AtDir(d))
    requires h.AtDir? ==> h.id in t.dirs && t.dirs[h.id].entries == map[]
    ensures h == AtDir(d)
  {
    hide TreeOk;
    if L != [] {
      WalkStep(t, h, L);
      DotNames(L[0]);
    }
  }

  lemma WalkStep(t: Tree, hit: Hit, L: seq<Text>)
    requires TreeOk(t) && HitOk(t, hit) && L != [] && Walk(t, hit, L).Some?
    ensures Name83(L[0]).Some? && hit.AtDir? && Step(t, hit, L[0]).Some?
    ensures HitOk(t, Step(t, hit, L[0]).value) && Walk(t, Step(t, hit, L[0]).value, L[1..]) == Walk(t, hit, L)
  {
    StepOk(t, hit, L[0]);
  }

  lemma RemovedIsEmpty(t: Tree, p: nat, nm: Name)
    requires TreeOk(t) && CanRemove(t, p, nm)
    ensures nm[0] != DOT
    ensures t.At(p, nm).Sub? ==> t.At(p, nm).id in t.dirs && t.dirs[t.At(p, nm).id].entries == map[]
  {
    NodeAt(t, p, nm);
  }

  lemma ApplyLeads(s: State, op: Op)
    requires TreeOk(s.tree) && LeadsTo(s.tree, s.L, s.cwd) && Enabled(s, op) && Gentle(s, op)
    ensures TreeOk(Apply(s, op).tree) && LeadsTo(Apply(s, op).tree, Apply(s, op).L, Apply(s, op).cwd)
  {
    hide TreeOk, PutFile, Remove, MakeDir, AgreeOffEntry, ClosedOffEntry, NextCwd, DropsBelow;
    ApplyOk(s, op);
    RootIn(s.tree);
    match op
    case Put(p, nm, h, data) =>
      PutAgrees(s.tree, p, nm, h, data);
      DirWalkAvoids(s.tree, AtDir(0), s.L, p, nm);
      LeadsAvoids(s.tree, PutFile(s.tree, p, nm, h, data), p, nm, s.L, s.cwd);
    case Del(p, nm) =>
      RemoveAgrees(s.tree, p, nm);
      EmptyIsLast(s.tree, AtDir(0), s.L, p, nm, s.cwd);
      LeadsAvoids(s.tree, Remove(s.tree, p, nm), p, nm, s.L, s.cwd);
    case Make(p, nm, c) =>
      MakeAgrees(s.tree, p, nm, c);
      DirWalkAvoids(s.tree, AtDir(0), s.L, p, nm);
      LeadsAvoids(s.tree, MakeDir(s.tree, p, nm, c), p, nm, s.L, s.cwd);
    case Chdir(path, d) =>
      CdAgrees(s.tree, s.L, s.cwd, path, d);
  }

  lemma {:induction false} GentleIsRun(s: State, ops: seq<Op>)
    requires IsGentleRun(s, ops)
    ensures IsRun(s, ops)
    decreases |ops|
  {
    if ops != [] {
      GentleIsRun(Apply(s, ops[0]), ops[1..]);
    }
  }

  /**
   * Over any run of writes, removals, mkdirs and cds that spares the current
   * directory, walking its path from the root reaches exactly its cluster, and so
   * does resolving its text if that path has at most 126 characters.
   */
  lemma {:induction false} RunLeads(s: State, ops: seq<Op>, later: nat)
    requires TreeOk(s.tree) && LeadsTo(s.tree, s.L, s.cwd) && AllPlain(s.L) && IsGentleRun(s, ops)
    ensures IsRun(s, ops) && TreeOk(Final(s, ops).tree) && AllPlain(Final(s, ops).L)
    ensures var f := Final(s, ops);
      && LeadsTo(f.tree, f.L, f.cwd) && Start(later, TextOf(f.L)) in f.tree.dirs
      && (|Render(f.L)| <= 126 ==> Resolve(f.tree, later, TextOf(f.L)) == Some(AtDir(f.cwd)))
    decreases |ops|
  {
    hide TreeOk, Apply, Enabled, Gentle, LeadsTo, TextOf, Render;
    GentleIsRun(s, ops);
    if ops != [] {
      ApplyLeads(s, ops[0]);
      ApplyPlain(s, ops[0]);
      RunLeads(Apply(s, ops[0]), ops[1..], later);
    } else {
      TextResolves(s, later);
    }
  }

  lemma ApplyPlain(s: State, op: Op)
    requires AllPlain(s.L) && Enabled(s, op)
    ensures AllPlain(Apply(s, op).L)
  {
    hide NextCwd, AllPlain;
    match op
    case Chdir(path, _) => NextPlain(s.L, path);
    case _ =>
  }

  lemma TextResolves(s: State, later: nat)
    requires TreeOk(s.tree) && LeadsTo(s.tree, s.L, s.cwd) && AllPlain(s.L)
    ensures Start(later, TextOf(s.L)) in s.tree.dirs
    ensures |Render(s.L)| <= 126 ==> Resolve(s.tree, later, TextOf(s.L)) == Some(AtDir(s.cwd))
  {
    hide TreeOk, Walk, PathComps, TextOf, Render;
    RootIn(s.tree);
    TextExact(s.L);
    TextParses(s.L);
  }

  // ---- the exception is real ------------------------------------------------------------------------

  /** A root with one directory, whose name is all blanks (mkdir "//" makes it). */
  ghost function BlankTree(): Tree {
    Tree(map[0 := Dir(0, 0, map[BLANK := Sub(2)]), 2 := Dir(0, 1, map[])], map[2 := (0, BLANK)])
  }

  /** In that tree cd "//" succeeds and leaves the text "/" for a directory that is not the root. */
  lemma DoubleSlashParts()
    ensures TreeOk(BlankTree())
    ensures Resolve(BlankTree(), 0, [SLASH, SLASH]) == Some(AtDir(2))
    ensures LeadsTo(BlankTree(), [], 0) && NextCwd([], [SLASH, SLASH]) == []
    ensures !LeadsTo(BlankTree(), NextCwd([], [SLASH, SLASH]), 2)
  {
    var t, path := BlankTree(), [SLASH, SLASH];
    assert BLANK[0] == SPACE;
    assert TreeOk(t);
    assert SkipSlashes([SLASH]) == SkipSlashes([]) == [] && path[1..] == [SLASH];
    assert IndexOf([SLASH], SLASH) == 0 && [SLASH][0..] == [SLASH];
    var rest: Text := SkipSlashes([SLASH]);
    assert Comps([SLASH]) == [[]] + Comps(rest) && Comps(rest) == [];
    assert PathComps(path) == [[]];
    BlankName();
    assert Step(t, AtDir(0), []) == Some(AtDir(2));
    var cs: seq<Text> := [[]];
    assert cs[1..] == [];
    assert Walk(t, AtDir(2), cs[1..]) == Some(AtDir(2));
    assert Walk(t, AtDir(0), cs) == Some(AtDir(2));
    assert SkipSlashes(path) == SkipSlashes(path[1..]) == [];
    assert CwdComps(path) == [];
  }

  lemma BlankName()
    ensures Name83([]) == Some(BLANK)
  {
    assert IndexOf([], DOT) == 0;
    assert Raw([], []) == BLANK;
  }
}
