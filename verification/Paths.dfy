/** Path resolution over the file tree, and what each change does to every path. */
module Paths {
  import opened Options
  import opened Bytes
  import opened Names
  import opened Tree

  // ---- splitting a path ----------------------------------------------------------

  function SkipSlashes(s: Text): (r: Text)
    ensures |r| <= |s| && (s != [] && s[0] == SLASH ==> |r| < |s|)
    ensures r != [] ==> r[0] != SLASH
  {
    if s != [] && s[0] == SLASH then SkipSlashes(s[1..]) else s
  }

  /** The components of a path whose leading slash has been taken off. */
  function Comps(s: Text): seq<Text>
    decreases |s|
  {
    if s == [] then []
    else
      var k := IndexOf(s, SLASH);
      [s[..k]] + Comps(SkipSlashes(s[k..]))
  }

  predicate Absolute(path: Text) { path != [] && path[0] == SLASH }

  /** Printable ASCII. */
  predicate PathOk(path: Text) { forall i :: 0 <= i < |path| ==> 32 <= path[i] < 127 }

  function Start(cwd: nat, path: Text): nat {
    if Absolute(path) then 0 else cwd
  }

  /** resolve takes off one leading slash only. */
  function PathComps(path: Text): seq<Text> {
    Comps(if Absolute(path) then path[1..] else path)
  }

  // ---- walking --------------------------------------------------------------------

  datatype Hit = AtDir(id: nat) | AtFile(dir: nat, name: Name)

  ghost predicate HitOk(t: Tree, hit: Hit) {
    match hit
    case AtDir(id) => id in t.dirs
    case AtFile(d, n) => t.Has(d, n) && t.At(d, n).File?
  }

  /** One lookup: "." and ".." in the root stay there, elsewhere they follow the directory's own links. */
  ghost function StepName(t: Tree, d: nat, n: Name): Option<Hit>
    requires d in t.dirs
  {
    if n[0] == DOT then
      Some(AtDir(if d == 0 then 0 else if n == DOT_NAME then d else t.dirs[d].parent))
    else if !t.Has(d, n) then None
    else match t.At(d, n)
      case Sub(id) => Some(AtDir(id))
      case File(_, _) => Some(AtFile(d, n))
  }

  ghost function Step(t: Tree, hit: Hit, c: Text): Option<Hit>
    requires HitOk(t, hit)
  {
    if Name83(c) == None || hit.AtFile? then None else StepName(t, hit.id, Name83(c).value)
  }

  lemma StepOk(t: Tree, hit: Hit, c: Text)
    requires TreeOk(t) && HitOk(t, hit)
    ensures Step(t, hit, c).Some? ==> HitOk(t, Step(t, hit, c).value)
  {
    if Step(t, hit, c).Some? {
      var n := Name83(c).value;
      if n[0] == DOT {
        if hit.id != 0 { ParentOf(t, hit.id); }
      } else {
        NodeAt(t, hit.id, n);
      }
    }
  }

  ghost function Walk(t: Tree, hit: Hit, cs: seq<Text>): (r: Option<Hit>)
    requires TreeOk(t) && HitOk(t, hit)
    ensures r.Some? ==> HitOk(t, r.value)
    decreases |cs|
  {
    if cs == [] then Some(hit)
    else
      StepOk(t, hit, cs[0]);
      match Step(t, hit, cs[0])
      case None => None
      case Some(h) => Walk(t, h, cs[1..])
  }

  /** The directory that holds the last component, and that component's name. */
  ghost function WalkParent(t: Tree, hit: Hit, cs: seq<Text>): Option<(Hit, Name)>
    requires TreeOk(t) && HitOk(t, hit)
  {
    if cs == [] || Name83(cs[|cs| - 1]) == None then None
    else match Walk(t, hit, cs[..|cs| - 1])
      case None => None
      case Some(h) => Some((h, Name83(cs[|cs| - 1]).value))
  }

  ghost function Resolve(t: Tree, cwd: nat, path: Text): Option<Hit>
    requires TreeOk(t) && Start(cwd, path) in t.dirs
  {
    Walk(t, AtDir(Start(cwd, path)), PathComps(path))
  }

  ghost function ResolveParent(t: Tree, cwd: nat, path: Text): Option<(Hit, Name)>
    requires TreeOk(t) && Start(cwd, path) in t.dirs
  {
    WalkParent(t, AtDir(Start(cwd, path)), PathComps(path))
  }

  /** The contents of the file a walk arrives at. */
  ghost function ReadAt(t: Tree, hit: Hit, cs: seq<Text>): Option<seq<Byte>>
    requires TreeOk(t) && HitOk(t, hit)
  {
    match Walk(t, hit, cs)
    case Some(AtFile(d, n)) => Some(t.At(d, n).content)
    case _ => None
  }

  lemma {:induction false} WalkAppend(t: Tree, hit: Hit, cs: seq<Text>, c: Text)
    requires TreeOk(t) && HitOk(t, hit)
    ensures Walk(t, hit, cs + [c]) == match Walk(t, hit, cs) { case None => None case Some(h) => Step(t, h, c) }
    decreases |cs|
  {
    if cs == [] {
      assert (cs + [c])[1..] == [];
      StepOk(t, hit, c);
    } else {
      StepOk(t, hit, cs[0]);
      assert (cs + [c])[1..] == cs[1..] + [c];
      if Step(t, hit, cs[0]).Some? {
        WalkAppend(t, Step(t, hit, cs[0]).value, cs[1..], c);
      }
    }
  }

  // ---- walks that stay clear of one entry ---------------------------------------------

  /** The walk never looks up the entry (p, nm). */
  ghost predicate Avoids(t: Tree, hit: Hit, cs: seq<Text>, p: nat, nm: Name)
    requires TreeOk(t) && HitOk(t, hit)
    decreases |cs|
  {
    cs != [] && hit.AtDir? && Name83(cs[0]).Some? ==>
      && (hit.id != p || Name83(cs[0]).value != nm)
      && (StepOk(t, hit, cs[0]);
          Step(t, hit, cs[0]).Some? ==> Avoids(t, Step(t, hit, cs[0]).value, cs[1..], p, nm))
  }

  ghost predicate SameEntry(t: Tree, t': Tree, d: nat, n: Name) {
    t.Has(d, n) == t'.Has(d, n) && (t.Has(d, n) ==> t.At(d, n) == t'.At(d, n))
  }

  /** The directories of both trees have the same parent, which is in both, too. */
  ghost predicate SameParents(t: Tree, t': Tree) {
    forall d :: d in t.dirs && d in t'.dirs ==> t.dirs[d].parent == t'.dirs[d].parent && t.dirs[d].parent in t'.dirs
  }

  /** The trees agree on every entry but (p, nm), for directories they share. */
  ghost predicate AgreeOffEntry(t: Tree, t': Tree, p: nat, nm: Name) {
    && SameParents(t, t')
    && forall d: nat, n: Name :: d in t.dirs && d in t'.dirs && (d != p || n != nm) ==> SameEntry(t, t', d, n)
  }

  /** Leaving a shared directory by another entry than (p, nm) leads to a shared directory. */
  ghost predicate ClosedOffEntry(t: Tree, t': Tree, p: nat, nm: Name) {
    forall d: nat, n: Name :: d in t'.dirs && t.Has(d, n) && (d != p || n != nm) && t.At(d, n).Sub? ==>
      t.At(d, n).id in t'.dirs
  }

  ghost predicate SharedStart(t: Tree, t': Tree, hit: Hit, p: nat, nm: Name) {
    HitOk(t, hit) &&
    (if hit.AtDir? then hit.id in t'.dirs
     else hit != AtFile(p, nm) && HitOk(t', hit) && t.At(hit.dir, hit.name) == t'.At(hit.dir, hit.name))
  }

  lemma StepAvoids(t: Tree, t': Tree, p: nat, nm: Name, hit: Hit, c: Text)
    requires TreeOk(t) && TreeOk(t') && AgreeOffEntry(t, t', p, nm) && ClosedOffEntry(t, t', p, nm)
    requires SharedStart(t, t', hit, p, nm)
    requires hit.AtDir? && Name83(c).Some? ==> hit.id != p || Name83(c).value != nm
    ensures HitOk(t', hit) && Step(t', hit, c) == Step(t, hit, c)
    ensures Step(t, hit, c).Some? ==> SharedStart(t, t', Step(t, hit, c).value, p, nm)
  {
    hide TreeOk;
    assert RootOk(t') by { RootIn(t'); }
    StepOk(t, hit, c);
    if hit.AtDir? && Name83(c).Some? {
      assert SameEntry(t, t', hit.id, Name83(c).value);
    }
  }

  lemma RootIn(t: Tree)
    requires TreeOk(t)
    ensures RootOk(t)
  {
  }

  /** A walk that avoids the changed entry ends at the same place, with the same contents. */
  lemma {:induction false} WalkAvoids(t: Tree, t': Tree, p: nat, nm: Name, hit: Hit, cs: seq<Text>)
    requires TreeOk(t) && TreeOk(t') && AgreeOffEntry(t, t', p, nm) && ClosedOffEntry(t, t', p, nm)
    requires SharedStart(t, t', hit, p, nm) && Avoids(t, hit, cs, p, nm)
    ensures HitOk(t', hit) && Walk(t', hit, cs) == Walk(t, hit, cs)
    ensures Walk(t, hit, cs).Some? ==> SharedStart(t, t', Walk(t, hit, cs).value, p, nm)
    decreases |cs|
  {
    hide TreeOk, AgreeOffEntry, ClosedOffEntry;
    assert HitOk(t', hit) && (hit.AtFile? ==> t.At(hit.dir, hit.name) == t'.At(hit.dir, hit.name));
    if cs != [] {
      StepAvoids(t, t', p, nm, hit, cs[0]);
      if Step(t, hit, cs[0]).Some? {
        WalkAvoids(t, t', p, nm, Step(t, hit, cs[0]).value, cs[1..]);
      }
    }
  }
}
