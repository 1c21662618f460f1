/** What writing, removing and creating do to every path of the tree. */
module Effects {
  import opened Options
  import opened Bytes
  import opened Names
  import opened Tree
  import opened Paths

  // ---- writing a file ---------------------------------------------------------------

  /** Parents and subdirectories of a directory are directories. */
  lemma LinksStay(t: Tree)
    requires TreeOk(t)
    ensures forall d :: d in t.dirs ==> t.dirs[d].parent in t.dirs
    ensures forall d: nat, n: Name :: t.Has(d, n) && t.At(d, n).Sub? ==> t.At(d, n).id in t.dirs
  {
    hide TreeOk;
    assert RootOk(t) by { RootIn(t); }
    forall d | d in t.dirs ensures t.dirs[d].parent in t.dirs {
      if d != 0 { ParentOf(t, d); }
    }
    forall d: nat, n: Name | t.Has(d, n) && t.At(d, n).Sub? ensures t.At(d, n).id in t.dirs {
      NodeAt(t, d, n);
    }
  }

  /** Where no directory goes and none is moved, parents and subdirectories stay within reach. */
  lemma GrownLinks(t: Tree, t': Tree, p: nat, nm: Name)
    requires TreeOk(t)
    requires forall d :: d in t.dirs ==> d in t'.dirs && t'.dirs[d].parent == t.dirs[d].parent
    ensures SameParents(t, t') && ClosedOffEntry(t, t', p, nm)
  {
    hide TreeOk;
    LinksStay(t);
  }

  lemma PutAgrees(t: Tree, p: nat, nm: Name, h: nat, data: seq<Byte>)
    requires TreeOk(t) && CanPut(t, p, nm, h, data)
    ensures TreeOk(PutFile(t, p, nm, h, data))
    ensures AgreeOffEntry(t, PutFile(t, p, nm, h, data), p, nm) && ClosedOffEntry(t, PutFile(t, p, nm, h, data), p, nm)
  {
    hide TreeOk, PutFile, SameEntry, SameParents, ClosedOffEntry;
    PutFileOk(t, p, nm, h, data);
    PutDirs(t, p, nm, h, data);
    GrownLinks(t, PutFile(t, p, nm, h, data), p, nm);
    forall d: nat, n: Name ensures (d != p || n != nm) ==> SameEntry(t, PutFile(t, p, nm, h, data), d, n) {
      PutSame(t, p, nm, h, data, d, n);
    }
  }

  lemma PutSame(t: Tree, p: nat, nm: Name, h: nat, data: seq<Byte>, d: nat, n: Name)
    requires p in t.dirs
    ensures (d != p || n != nm) ==> SameEntry(t, PutFile(t, p, nm, h, data), d, n)
  {
  }

  lemma PutDirs(t: Tree, p: nat, nm: Name, h: nat, data: seq<Byte>)
    requires p in t.dirs
    ensures PutFile(t, p, nm, h, data).dirs.Keys == t.dirs.Keys
    ensures forall d :: d in t.dirs ==> PutFile(t, p, nm, h, data).dirs[d].parent == t.dirs[d].parent
  {
  }

  /** A walk that arrives at a directory never looked up a file or a missing entry. */
  lemma {:induction false} DirWalkAvoids(t: Tree, hit: Hit, cs: seq<Text>, p: nat, nm: Name)
    requires TreeOk(t) && HitOk(t, hit) && nm[0] != DOT && (t.Has(p, nm) ==> t.At(p, nm).File?)
    requires Walk(t, hit, cs).Some? && Walk(t, hit, cs).value.AtDir?
    ensures Avoids(t, hit, cs, p, nm)
    decreases |cs|
  {
    hide TreeOk;
    if cs != [] {
      StepOk(t, hit, cs[0]);
      var h := Step(t, hit, cs[0]).value;
      assert hit.AtDir?;
      if hit.id == p && Name83(cs[0]).value == nm {
        assert h.AtFile?;
        FileWalkEnds(t, h, cs[1..]);
        assert false;
      }
      DirWalkAvoids(t, h, cs[1..], p, nm);
    }
  }

  lemma FileWalkEnds(t: Tree, hit: Hit, cs: seq<Text>)
    requires TreeOk(t) && HitOk(t, hit) && hit.AtFile?
    ensures Walk(t, hit, cs) == if cs == [] then Some(hit) else None
  {
  }

  /** After a successful write the path reads back exactly the data written. */
  lemma WriteThenRead(t: Tree, hit: Hit, cs: seq<Text>, p: nat, nm: Name, h: nat, data: seq<Byte>)
    requires TreeOk(t) && CanPut(t, p, nm, h, data)
    requires HitOk(t, hit) && hit.AtDir? && WalkParent(t, hit, cs) == Some((AtDir(p), nm))
    ensures var t' := PutFile(t, p, nm, h, data);
      && TreeOk(t') && HitOk(t', hit)
      && Walk(t', hit, cs) == Some(AtFile(p, nm)) && ReadAt(t', hit, cs) == Some(data)
  {
    hide TreeOk, AgreeOffEntry, ClosedOffEntry, Walk, Name83, Avoids;
    PutAgrees(t, p, nm, h, data);
    var t' := PutFile(t, p, nm, h, data);
    var cs', c := cs[..|cs| - 1], cs[|cs| - 1];
    DirWalkAvoids(t, hit, cs', p, nm);
    WalkAvoids(t, t', p, nm, hit, cs');
    WalkAppend(t', hit, cs', c);
    assert cs' + [c] == cs;
  }

  /** A walk over the written entry ends there in both trees, or fails in both. */
  lemma {:induction false} WriteHits(t: Tree, p: nat, nm: Name, h: nat, data: seq<Byte>, hit: Hit, cs: seq<Text>)
    requires TreeOk(t) && CanPut(t, p, nm, h, data) && HitOk(t, hit) && hit.AtDir? && !Avoids(t, hit, cs, p, nm)
    ensures var t' := PutFile(t, p, nm, h, data);
      && TreeOk(t') && HitOk(t', hit)
      && (Walk(t', hit, cs) == Some(AtFile(p, nm)) || (Walk(t', hit, cs) == None && Walk(t, hit, cs) == None))
    decreases |cs|
  {
    hide TreeOk, AgreeOffEntry, ClosedOffEntry;
    PutAgrees(t, p, nm, h, data);
    var t' := PutFile(t, p, nm, h, data);
    StepOk(t, hit, cs[0]);
    StepOk(t', hit, cs[0]);
    if hit.id == p && Name83(cs[0]).value == nm {
      FileWalkEnds(t', AtFile(p, nm), cs[1..]);
      if t.Has(p, nm) { FileWalkEnds(t, AtFile(p, nm), cs[1..]); }
    } else {
      StepAvoids(t, t', p, nm, hit, cs[0]);
      var next := Step(t, hit, cs[0]).value;
      assert next.AtDir?;
      WriteHits(t, p, nm, h, data, next, cs[1..]);
    }
  }

  /** No path sees a change except those that lead to the written file: they read the new data. */
  lemma WriteElsewhere(t: Tree, p: nat, nm: Name, h: nat, data: seq<Byte>, hit: Hit, cs: seq<Text>)
    requires TreeOk(t) && CanPut(t, p, nm, h, data) && HitOk(t, hit) && hit.AtDir?
    ensures var t' := PutFile(t, p, nm, h, data);
      && TreeOk(t') && HitOk(t', hit)
      && ReadAt(t', hit, cs) == (if Walk(t', hit, cs) == Some(AtFile(p, nm)) then Some(data) else ReadAt(t, hit, cs))
      && (Walk(t', hit, cs) != Some(AtFile(p, nm)) ==> Walk(t', hit, cs) == Walk(t, hit, cs))
  {
    hide TreeOk, AgreeOffEntry, ClosedOffEntry;
    PutAgrees(t, p, nm, h, data);
    var t' := PutFile(t, p, nm, h, data);
    if Avoids(t, hit, cs, p, nm) {
      WalkAvoids(t, t', p, nm, hit, cs);
    } else {
      WriteHits(t, p, nm, h, data, hit, cs);
    }
  }

  // ---- removing ----------------------------------------------------------------------

  lemma RemoveAgrees(t: Tree, p: nat, nm: Name)
    requires TreeOk(t) && CanRemove(t, p, nm)
    ensures TreeOk(Remove(t, p, nm))
    ensures AgreeOffEntry(t, Remove(t, p, nm), p, nm) && ClosedOffEntry(t, Remove(t, p, nm), p, nm)
  {
    hide TreeOk, Remove, SameEntry, CanRemove, ClosedOffEntry;
    RemoveOk(t, p, nm);
    RemoveClosed(t, p, nm);
    var t' := Remove(t, p, nm);
    RemoveDirs(t, p, nm);
    forall d: nat, n: Name | d in t'.dirs ensures (d != p || n != nm) ==> SameEntry(t, t', d, n) {
      RemoveSame(t, p, nm, d, n);
    }
    assert SameParents(t, t') by {
      forall d | d in t'.dirs ensures t.dirs[d].parent in t'.dirs {
        RemoveParent(t, p, nm, d);
      }
    }
  }

  lemma RemoveClosed(t: Tree, p: nat, nm: Name)
    requires TreeOk(t) && t.Has(p, nm)
    ensures ClosedOffEntry(t, Remove(t, p, nm), p, nm)
  {
    hide TreeOk, Remove;
    forall d: nat, n: Name | t.Has(d, n) && (d != p || n != nm) && t.At(d, n).Sub?
      ensures t.At(d, n).id in Remove(t, p, nm).dirs
    {
      RemoveSub(t, p, nm, d, n);
    }
  }

  lemma RemoveSub(t: Tree, p: nat, nm: Name, d: nat, n: Name)
    requires TreeOk(t) && t.Has(p, nm) && t.Has(d, n) && (d != p || n != nm) && t.At(d, n).Sub?
    ensures t.At(d, n).id in Remove(t, p, nm).dirs
  {
    NodeAt(t, d, n);
    NodeAt(t, p, nm);
    hide TreeOk;
    RemoveDirs(t, p, nm);
  }

  /** An empty directory is nobody's parent. */
  lemma RemoveParent(t: Tree, p: nat, nm: Name, d: nat)
    requires TreeOk(t) && CanRemove(t, p, nm) && d in Remove(t, p, nm).dirs
    ensures t.dirs[d].parent in Remove(t, p, nm).dirs
  {
    assert RootOk(t) by { RootIn(t); }
    NodeAt(t, p, nm);
    hide TreeOk;
    RemoveDirs(t, p, nm);
    if d != 0 {
      ParentOf(t, d);
    }
  }

  lemma RemoveSame(t: Tree, p: nat, nm: Name, d: nat, n: Name)
    requires t.Has(p, nm) && d in Remove(t, p, nm).dirs
    ensures (d != p || n != nm) ==> SameEntry(t, Remove(t, p, nm), d, n)
  {
  }

  lemma RemoveDirs(t: Tree, p: nat, nm: Name)
    requires t.Has(p, nm)
    ensures Remove(t, p, nm).dirs.Keys == t.dirs.Keys - (if t.At(p, nm).Sub? then {t.At(p, nm).id} else {})
    ensures forall d :: d in Remove(t, p, nm).dirs ==> Remove(t, p, nm).dirs[d].parent == t.dirs[d].parent
  {
  }

  lemma {:induction false} RemoveHits(t: Tree, p: nat, nm: Name, hit: Hit, cs: seq<Text>)
    requires TreeOk(t) && CanRemove(t, p, nm)
    requires SharedStart(t, Remove(t, p, nm), hit, p, nm) && !Avoids(t, hit, cs, p, nm)
    ensures TreeOk(Remove(t, p, nm)) && HitOk(Remove(t, p, nm), hit) && Walk(Remove(t, p, nm), hit, cs) == None
    decreases |cs|
  {
    hide TreeOk, AgreeOffEntry, ClosedOffEntry, CanRemove;
    RemoveAgrees(t, p, nm);
    NodeName(t, p, nm);
    var t' := Remove(t, p, nm);
    StepOk(t, hit, cs[0]);
    StepOk(t', hit, cs[0]);
    if hit.id != p || Name83(cs[0]).value != nm {
      hide Remove;
      StepAvoids(t, t', p, nm, hit, cs[0]);
      RemoveHits(t, p, nm, Step(t, hit, cs[0]).value, cs[1..]);
    }
  }

  lemma NodeName(t: Tree, p: nat, nm: Name)
    requires TreeOk(t) && t.Has(p, nm)
    ensures nm[0] != DOT
  {
    NodeAt(t, p, nm);
  }

  /**
   * After a removal exactly the paths that pass through the removed entry stop
   * resolving; all others lead to the same place with the same contents.
   */
  lemma RemoveEverywhere(t: Tree, p: nat, nm: Name, hit: Hit, cs: seq<Text>)
    requires TreeOk(t) && CanRemove(t, p, nm)
    requires SharedStart(t, Remove(t, p, nm), hit, p, nm)
    ensures var t' := Remove(t, p, nm);
      && TreeOk(t') && HitOk(t', hit)
      && Walk(t', hit, cs) == (if Avoids(t, hit, cs, p, nm) then Walk(t, hit, cs) else None)
      && (Avoids(t, hit, cs, p, nm) ==> ReadAt(t', hit, cs) == ReadAt(t, hit, cs))
  {
    hide TreeOk, AgreeOffEntry, ClosedOffEntry, CanRemove, Remove;
    RemoveAgrees(t, p, nm);
    if Avoids(t, hit, cs, p, nm) {
      WalkAvoids(t, Remove(t, p, nm), p, nm, hit, cs);
    } else {
      RemoveHits(t, p, nm, hit, cs);
    }
  }

  // ---- creating a directory --------------------------------------------------------------

  lemma MakeAgrees(t: Tree, p: nat, nm: Name, c: nat)
    requires TreeOk(t) && CanMake(t, p, nm, c)
    ensures TreeOk(MakeDir(t, p, nm, c))
    ensures AgreeOffEntry(t, MakeDir(t, p, nm, c), p, nm) && ClosedOffEntry(t, MakeDir(t, p, nm, c), p, nm)
  {
    hide TreeOk, MakeDir, SameEntry, SameParents, ClosedOffEntry;
    MakeDirOk(t, p, nm, c);
    MakeDirs(t, p, nm, c);
    GrownLinks(t, MakeDir(t, p, nm, c), p, nm);
    forall d: nat, n: Name | d in t.dirs ensures (d != p || n != nm) ==> SameEntry(t, MakeDir(t, p, nm, c), d, n) {
      MakeSame(t, p, nm, c, d, n);
    }
  }

  lemma MakeSame(t: Tree, p: nat, nm: Name, c: nat, d: nat, n: Name)
    requires p in t.dirs && c !in t.dirs && d in t.dirs
    ensures (d != p || n != nm) ==> SameEntry(t, MakeDir(t, p, nm, c), d, n)
  {
  }

  lemma MakeDirs(t: Tree, p: nat, nm: Name, c: nat)
    requires p in t.dirs && c !in t.dirs
    ensures MakeDir(t, p, nm, c).dirs.Keys == t.dirs.Keys + {c}
    ensures forall d :: d in t.dirs ==> MakeDir(t, p, nm, c).dirs[d].parent == t.dirs[d].parent
  {
  }

  /** The new directory is found under its path and is empty, with the directory it was made in as parent. */
  lemma MakeThenFind(t: Tree, hit: Hit, cs: seq<Text>, p: nat, nm: Name, c: nat)
    requires TreeOk(t) && CanMake(t, p, nm, c)
    requires HitOk(t, hit) && hit.AtDir? && WalkParent(t, hit, cs) == Some((AtDir(p), nm))
    ensures var t' := MakeDir(t, p, nm, c);
      && TreeOk(t') && HitOk(t', hit)
      && Walk(t', hit, cs) == Some(AtDir(c)) && t'.dirs[c].entries == map[] && t'.dirs[c].parent == p
  {
    hide TreeOk, AgreeOffEntry, ClosedOffEntry, Walk, Name83, Avoids;
    MakeAgrees(t, p, nm, c);
    var t' := MakeDir(t, p, nm, c);
    var cs', e := cs[..|cs| - 1], cs[|cs| - 1];
    DirWalkAvoids(t, hit, cs', p, nm);
    WalkAvoids(t, t', p, nm, hit, cs');
    WalkAppend(t', hit, cs', e);
    assert cs' + [e] == cs;
  }

  /** Every path that led somewhere before still leads there, with the same contents. */
  lemma {:induction false} MakeElsewhere(t: Tree, p: nat, nm: Name, c: nat, hit: Hit, cs: seq<Text>)
    requires TreeOk(t) && CanMake(t, p, nm, c) && HitOk(t, hit) && hit.AtDir?
    ensures var t' := MakeDir(t, p, nm, c);
      && TreeOk(t') && HitOk(t', hit)
      && (Avoids(t, hit, cs, p, nm) ==> Walk(t', hit, cs) == Walk(t, hit, cs))
      && (Avoids(t, hit, cs, p, nm) ==> ReadAt(t', hit, cs) == ReadAt(t, hit, cs))
      && (!Avoids(t, hit, cs, p, nm) ==> Walk(t, hit, cs) == None)
    decreases |cs|
  {
    hide TreeOk, AgreeOffEntry, ClosedOffEntry;
    MakeAgrees(t, p, nm, c);
    var t' := MakeDir(t, p, nm, c);
    if Avoids(t, hit, cs, p, nm) {
      WalkAvoids(t, t', p, nm, hit, cs);
    } else {
      StepOk(t, hit, cs[0]);
      if hit.id != p || Name83(cs[0]).value != nm {
        var next := Step(t, hit, cs[0]).value;
        assert !Avoids(t, next, cs[1..], p, nm);
        MakeElsewhere(t, p, nm, c, next, cs[1..]);
      }
    }
  }
}
