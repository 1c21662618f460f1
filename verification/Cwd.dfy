/** The current directory as a cluster, reached through on-disk entries, and as text, normalised lexically. */
module Cwd {
  import opened Options
  import opened Names
  import opened Tree
  import opened Paths

  /** Lexical effect of one component on a normalised path. */
  function Push(L: seq<Text>, c: Text): seq<Text> {
    if c == [DOT] then L
    else if c == [DOT, DOT] then if L == [] then [] else L[..|L| - 1]
    else L + [UpperAll(c)]
  }

  function Normalize(L: seq<Text>, cs: seq<Text>): seq<Text>
    decreases |cs|
  {
    if cs == [] then L else Normalize(Push(L, cs[0]), cs[1..])
  }

  /** The components cwd_apply sees: it takes off every leading slash. */
  function CwdComps(path: Text): seq<Text> { Comps(SkipSlashes(path)) }

  /** The normalised path after cd(path) from `L`. */
  function NextCwd(L: seq<Text>, path: Text): seq<Text> {
    Normalize(if Absolute(path) then [] else L, CwdComps(path))
  }

  predicate NoDots(L: seq<Text>) { forall i :: 0 <= i < |L| ==> !IsDots(L[i]) }

  lemma UpperDots(c: Text)
    ensures IsDots(UpperAll(c)) <==> IsDots(c)
  {
    NameOfUpper(c);
    DotNames(c);
    DotNames(UpperAll(c));
  }

  /** `L`, walked from the root, arrives at `d`. */
  ghost predicate LeadsTo(t: Tree, L: seq<Text>, d: nat)
    requires TreeOk(t)
  {
    NoDots(L) && 0 in t.dirs && Walk(t, AtDir(0), L) == Some(AtDir(d))
  }

  lemma LastStep(t: Tree, L: seq<Text>, d: nat)
    requires TreeOk(t) && L != [] && LeadsTo(t, L, d)
    ensures d in t.dirs && d != 0 && LeadsTo(t, L[..|L| - 1], t.dirs[d].parent)
  {
    hide TreeOk;
    var L', c := L[..|L| - 1], L[|L| - 1];
    WalkAppend(t, AtDir(0), L', c);
    assert L' + [c] == L;
    var p := Walk(t, AtDir(0), L').value;
    StepOk(t, p, c);
    DotNames(c);
    NodeAt(t, p.id, Name83(c).value);
  }

  /** One component moves the walk and the text alike. */
  lemma PushLeads(t: Tree, L: seq<Text>, d: nat, c: Text, d': nat)
    requires TreeOk(t) && LeadsTo(t, L, d) && Step(t, AtDir(d), c) == Some(AtDir(d'))
    ensures LeadsTo(t, Push(L, c), d')
  {
    hide TreeOk;
    DotNames(c);
    UpperDots(c);
    if IsDots(c) {
      if L != [] {
        LastStep(t, L, d);
      }
    } else {
      NameOfUpper(c);
      WalkAppend(t, AtDir(0), L, UpperAll(c));
    }
  }

  /**
   * The lexical normaliser agrees with the walk through on-disk ".." entries, for
   * every directory, every text leading to it and every list of components.
   */
  lemma {:induction false} NormalizeLeads(t: Tree, L: seq<Text>, d: nat, cs: seq<Text>, d': nat)
    requires TreeOk(t) && LeadsTo(t, L, d) && HitOk(t, AtDir(d)) && Walk(t, AtDir(d), cs) == Some(AtDir(d'))
    ensures LeadsTo(t, Normalize(L, cs), d')
    decreases |cs|
  {
    hide TreeOk, LeadsTo;
    if cs != [] {
      StepOk(t, AtDir(d), cs[0]);
      var h := Step(t, AtDir(d), cs[0]).value;
      assert h.AtDir?;
      PushLeads(t, L, d, cs[0], h.id);
      NormalizeLeads(t, Push(L, cs[0]), h.id, cs[1..], d');
    }
  }

  // ---- the exception: a path that starts with two slashes ------------------------------

  /** Some ".." of `cs`, with `n` components above it to drop first, drops what lies below. */
  predicate DropsBelow(cs: seq<Text>, n: nat)
    decreases |cs|
  {
    cs != [] &&
    (if cs[0] == [DOT] then DropsBelow(cs[1..], n)
     else if cs[0] == [DOT, DOT] then n == 0 || DropsBelow(cs[1..], n - 1)
     else DropsBelow(cs[1..], n + 1))
  }

  lemma {:induction false} NormalizeBelow(b: Text, L: seq<Text>, cs: seq<Text>)
    ensures Normalize([b] + L, cs) == if DropsBelow(cs, |L|) then Normalize(L, cs) else [b] + Normalize(L, cs)
    decreases |cs|
  {
    if cs != [] {
      var c := cs[0];
      if c == [DOT] {
        NormalizeBelow(b, L, cs[1..]);
      } else if c == [DOT, DOT] {
        if L == [] {
          assert Push([b] + L, c) == [] == Push(L, c);
        } else {
          assert Push([b] + L, c) == [b] + Push(L, c);
          NormalizeBelow(b, Push(L, c), cs[1..]);
        }
      } else {
        assert Push([b] + L, c) == [b] + Push(L, c);
        NormalizeBelow(b, Push(L, c), cs[1..]);
      }
    }
  }

  lemma {:induction false} WalkDepth(t: Tree, L: seq<Text>, d: nat)
    requires TreeOk(t) && LeadsTo(t, L, d)
    ensures d in t.dirs && t.dirs[d].depth == |L|
    decreases |L|
  {
    assert RootOk(t);
    hide TreeOk;
    if L != [] {
      LastStep(t, L, d);
      WalkDepth(t, L[..|L| - 1], t.dirs[d].parent);
      ParentOf(t, d);
    }
  }

  predicate DoubleSlash(path: Text) { |path| >= 2 && path[0] == SLASH && path[1] == SLASH }

  lemma PathCompsShape(path: Text)
    ensures DoubleSlash(path) ==> PathComps(path) == [[]] + CwdComps(path)
    ensures !DoubleSlash(path) ==> PathComps(path) == CwdComps(path)
  {
    if DoubleSlash(path) {
      var s := path[1..];
      assert s[0] == SLASH && s[0..] == s;
    } else if Absolute(path) {
      assert SkipSlashes(path) == SkipSlashes(path[1..]) == path[1..];
    }
  }

  /**
   * After a successful cd the text leads to the new current directory exactly
   * when the path does not start with two slashes, or a ".." of it cancels the
   * blank component that resolve looks up between them.
   */
  lemma CdAgrees(t: Tree, L: seq<Text>, cwd: nat, path: Text, d: nat)
    requires TreeOk(t) && LeadsTo(t, L, cwd) && Start(cwd, path) in t.dirs
    requires Resolve(t, cwd, path) == Some(AtDir(d))
    ensures LeadsTo(t, NextCwd(L, path), d) <==> !DoubleSlash(path) || DropsBelow(CwdComps(path), 0)
  {
    hide TreeOk, LeadsTo, Normalize, Walk;
    PathCompsShape(path);
    RootLeads(t);
    NormalizeLeads(t, if Absolute(path) then [] else L, Start(cwd, path), PathComps(path), d);
    if DoubleSlash(path) {
      BlankBelow(CwdComps(path));
      var M := Normalize([], PathComps(path));
      WalkDepth(t, M, d);
      if LeadsTo(t, NextCwd(L, path), d) {
        WalkDepth(t, NextCwd(L, path), d);
      }
    }
  }

  lemma RootLeads(t: Tree)
    requires TreeOk(t)
    ensures LeadsTo(t, [], 0)
  {
  }

  lemma BlankBelow(cs: seq<Text>)
    ensures Normalize([], [[]] + cs) == if DropsBelow(cs, 0) then Normalize([], cs) else [[]] + Normalize([], cs)
  {
    var all: seq<Text> := [[]] + cs;
    assert UpperAll([]) == [];
    assert all[0] == [] && all[1..] == cs && Push([], all[0]) == [[]] + [];
    NormalizeBelow([], [], cs);
  }
}
