/** abs_path: a path made absolute with the current directory's text, when a file is opened. */
module AbsPath {
  import opened Options
  import opened Names
  import opened Tree
  import opened Paths
  import opened Cwd
  import opened CwdText

  const PATH_MAX: nat := 96

  /** What stands in front of `path`: nothing, or the current directory and a slash unless it is the root. */
  function Prefix(cwd: Text, path: Text): Text {
    if Absolute(path) then [] else if |cwd| > 1 then cwd + [SLASH] else cwd
  }

  const SLOT_SIZE: nat := 120         // bytes of a slot of the descriptor table
  const PATH_AT: nat := 12            // where its path buffer begins

  /**
   * The text of the current directory and a slash, which abs_path stores before
   * it looks at any length, end inside the slot.
   */
  predicate Contained(cwd: Text, path: Text) { Absolute(path) || |cwd| < SLOT_SIZE - PATH_AT }

  function AbsOf(cwd: Text, path: Text): Option<Text> {
    if |Prefix(cwd, path)| + |path| + 1 > PATH_MAX then None else Some(Prefix(cwd, path) + path)
  }

  /** What is accepted: 95 characters in all, with the text and a slash in front of a relative path. */
  lemma AbsLimit(cwd: Text, path: Text)
    requires |cwd| >= 1
    ensures Absolute(path) ==> (AbsOf(cwd, path).Some? <==> |path| <= 95)
    ensures !Absolute(path) && |cwd| == 1 ==> (AbsOf(cwd, path).Some? <==> |path| <= 94)
    ensures !Absolute(path) && |cwd| > 1 ==> (AbsOf(cwd, path).Some? <==> |cwd| + 1 + |path| <= 95)
  {
  }

  /** A relative path that is accepted has the whole path of the current directory in front. */
  lemma AbsWhole(L: seq<Text>, path: Text)
    requires AllPlain(L) && AbsOf(TextOf(L), path).Some? && !Absolute(path)
    ensures TextOf(L) == Render(L)
  {
    TextExact(L);
  }

  /** The absolute path has the components of the current directory, then those of the path. */
  lemma AbsComps(L: seq<Text>, path: Text)
    requires AllPlain(L) && AbsOf(TextOf(L), path).Some?
    ensures Absolute(AbsOf(TextOf(L), path).value)
    ensures PathComps(AbsOf(TextOf(L), path).value) == (if Absolute(path) then [] else L) + PathComps(path)
  {
    hide Comps, IndexOf, SkipSlashes, TextOf;
    var r := AbsOf(TextOf(L), path).value;
    if Absolute(path) {
      assert r == path;
    } else {
      AbsWhole(L, path);
      RelativeComps(L, path, r);
    }
  }

  lemma RelativeComps(L: seq<Text>, path: Text, r: Text)
    requires AllPlain(L) && !Absolute(path) && r == Prefix(Render(L), path) + path
    ensures Absolute(r) && PathComps(r) == L + PathComps(path)
  {
    hide Comps, IndexOf, SkipSlashes, Joined;
    if L == [] {
      assert r == [SLASH] + path && r[1..] == path;
    } else {
      CompsOfJoined(L);
      TailSplit(Joined(L), path);
      CompsJoin(Joined(L)[1..], path);
    }
  }

  lemma TailSplit(J: Text, path: Text)
    requires J != []
    ensures ((J + [SLASH]) + path)[1..] == J[1..] + ([SLASH] + path)
  {
  }

  lemma {:induction false} WalkJoin(t: Tree, hit: Hit, a: seq<Text>, b: seq<Text>)
    requires TreeOk(t) && HitOk(t, hit)
    ensures Walk(t, hit, a + b) == match Walk(t, hit, a) { case None => None case Some(h) => Walk(t, h, b) }
    decreases |a|
  {
    hide TreeOk;
    if a == [] {
      assert a + b == b;
    } else {
      StepOk(t, hit, a[0]);
      assert (a + b)[1..] == a[1..] + b;
      if Step(t, hit, a[0]).Some? {
        WalkJoin(t, Step(t, hit, a[0]).value, a[1..], b);
      }
    }
  }

  /**
   * While the text leads to the current directory, the absolute path means what
   * the path means there, and keeps that meaning from any later current directory.
   */
  lemma AbsMeans(t: Tree, L: seq<Text>, cwd: nat, path: Text, later: nat)
    requires TreeOk(t) && AllPlain(L) && LeadsTo(t, L, cwd) && cwd in t.dirs && AbsOf(TextOf(L), path).Some?
    ensures var r := AbsOf(TextOf(L), path).value;
      && Absolute(r) && 0 in t.dirs && Start(later, r) == 0
      && Resolve(t, later, r) == Resolve(t, cwd, path)
  {
    hide TreeOk, Comps, Walk, TextOf;
    RootIn(t);
    AbsComps(L, path);
    if !Absolute(path) {
      WalkJoin(t, AtDir(0), L, PathComps(path));
    } else {
      assert [] + PathComps(path) == PathComps(path);
    }
  }
}
