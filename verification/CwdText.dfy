/** The text of the current directory, and cwd_apply, which rebuilds it in a buffer. */
module CwdText {
  import opened Bytes
  import opened Names
  import opened Paths
  import opened Cwd

  /** A component as it occurs in the text: not empty and free of slashes. */
  predicate Plain(c: Text) { c != [] && SLASH !in c }

  predicate AllPlain(L: seq<Text>) { forall i :: 0 <= i < |L| ==> Plain(L[i]) }

  function Joined(L: seq<Text>): (r: Text)
    ensures L == [] <==> r == []
    ensures L != [] ==> r[0] == SLASH
  {
    if L == [] then [] else Joined(L[..|L| - 1]) + [SLASH] + L[|L| - 1]
  }

  /** "/" for the root, "/A/B" below it. */
  function Render(L: seq<Text>): (r: Text)
    ensures |r| >= 1 && r[0] == SLASH
  {
    if L == [] then [SLASH] else Joined(L)
  }

  lemma {:induction false} SkipAppend(s: Text, e: Text)
    requires s == [] || s[|s| - 1] != SLASH
    ensures s != [] ==> SkipSlashes(s) != [] && SkipSlashes(s)[|SkipSlashes(s)| - 1] != SLASH
    ensures s != [] ==> SkipSlashes(s + e) == SkipSlashes(s) + e
  {
    if s != [] && s[0] == SLASH {
      SkipAppend(s[1..], e);
      assert (s + e)[1..] == s[1..] + e;
    }
  }

  lemma IndexAppend(s: Text, e: Text)
    requires SLASH in s
    ensures IndexOf(s + e, SLASH) == IndexOf(s, SLASH) < |s|
  {
    var k := IndexOf(s, SLASH);
    assert k < |s| by {
      var i :| 0 <= i < |s| && s[i] == SLASH;
    }
    IndexIs(s + e, SLASH, k);
  }

  lemma CompsOne(c: Text)
    requires Plain(c)
    ensures Comps(c) == [c]
  {
    IndexIs(c, SLASH, |c|);
    assert c[..|c|] == c && SkipSlashes(c[|c|..]) == [];
  }

  lemma CompsJoinLast(s: Text, rest: Text)
    requires s != [] && SLASH !in s && (rest == [] || rest[0] != SLASH)
    ensures Comps(s + ([SLASH] + rest)) == [s] + Comps(rest)
  {
    hide Comps, IndexOf;
    var e := [SLASH] + rest;
    IndexIs(s + e, SLASH, |s|);
    CompsStep(s + e);
    assert (s + e)[..|s|] == s && (s + e)[|s|..] == e;
    assert e[1..] == rest && SkipSlashes(e) == SkipSlashes(rest) == rest;
  }

  /** Components of a path continued after a slash. */
  lemma {:induction false} CompsJoin(s: Text, rest: Text)
    requires s != [] && s[|s| - 1] != SLASH && (rest == [] || rest[0] != SLASH)
    ensures Comps(s + ([SLASH] + rest)) == Comps(s) + Comps(rest)
    decreases |s|
  {
    hide Comps, IndexOf, SkipSlashes;
    if SLASH in s {
      var e, k := [SLASH] + rest, IndexOf(s, SLASH);
      IndexAppend(s, e);
      assert (s + e)[..k] == s[..k] && (s + e)[k..] == s[k..] + e;
      SkipAppend(s[k..], e);
      CompsStep(s);
      CompsStep(s + e);
      CompsJoin(SkipSlashes(s[k..]), rest);
    } else {
      CompsJoinLast(s, rest);
      CompsOne(s);
    }
  }

  /** Parsing the text gives back its components. */
  lemma {:induction false} CompsOfJoined(L: seq<Text>)
    requires AllPlain(L) && L != []
    ensures |Joined(L)| > 1 && Joined(L)[|Joined(L)| - 1] != SLASH && Comps(Joined(L)[1..]) == L
    decreases |L|
  {
    hide Comps, IndexOf;
    var L', c, J := L[..|L| - 1], L[|L| - 1], Joined(L);
    assert c[|c| - 1] in c && J[|J| - 1] == c[|c| - 1];
    if L' == [] {
      assert J[1..] == c;
      CompsOne(c);
    } else {
      CompsOfJoined(L');
      var s := Joined(L')[1..];
      assert J[1..] == s + ([SLASH] + c);
      assert L == L' + [c];
      CompsOne(c);
      assert c[0] in c;
      CompsJoin(s, c);
    }
  }

  /** Resolving the text from anywhere walks the components it was rendered from. */
  lemma TextParses(L: seq<Text>)
    requires AllPlain(L)
    ensures Absolute(Render(L)) && PathComps(Render(L)) == L
  {
    if L != [] {
      CompsOfJoined(L);
    }
  }

  lemma {:induction false} CompsPlain(s: Text)
    requires s == [] || s[0] != SLASH
    ensures AllPlain(Comps(s))
    decreases |s|
  {
    if s != [] {
      var k := IndexOf(s, SLASH);
      CompsPlain(SkipSlashes(s[k..]));
    }
  }

  lemma PushPlain(L: seq<Text>, c: Text)
    requires AllPlain(L) && Plain(c)
    ensures AllPlain(Push(L, c))
  {
    var u := UpperAll(c);
    assert forall i :: 0 <= i < |c| ==> c[i] in c && u[i] != SLASH;
  }

  // ---- cwd_apply ------------------------------------------------------------------------

  /** Length of the component at `pos`. */
  method ScanComponent(path: Text, pos: nat) returns (len: nat)
    requires pos <= |path|
    ensures pos + len <= |path| && len == IndexOf(path[pos..], SLASH)
  {
    len := 0;
    while pos + len < |path| && path[pos + len] != SLASH
      invariant pos + len <= |path| && forall i :: pos <= i < pos + len ==> path[i] != SLASH
    {
      len := len + 1;
    }
    IndexIs(path[pos..], SLASH, len);
  }

  method ScanSlashes(path: Text, pos: nat) returns (q: nat)
    requires pos <= |path|
    ensures pos <= q <= |path| && path[q..] == SkipSlashes(path[pos..])
    ensures q < |path| ==> path[q] != SLASH
    ensures pos < |path| && path[pos] == SLASH ==> pos < q
  {
    q := pos;
    while q < |path| && path[q] == SLASH
      invariant pos <= q <= |path| && SkipSlashes(path[q..]) == SkipSlashes(path[pos..])
    {
      assert path[q..][1..] == path[q + 1..];
      q := q + 1;
    }
  }

  // ---- what the 128-byte buffer holds of a path ---------------------------------------------

  /** A component cut to the room left behind `front` characters: text stops at 126. */
  function Cut(u: Text, front: nat): Text {
    if front + |u| <= 126 then u else if front >= 126 then [] else u[..126 - front]
  }

  /** The components as cwd_apply stores them: each cut to what the buffer has room for. */
  function CutAll(L: seq<Text>): (r: seq<Text>)
    ensures |r| == |L|
  {
    if L == [] then []
    else
      var P := CutAll(L[..|L| - 1]);
      P + [Cut(L[|L| - 1], |Joined(P)| + 1)]
  }

  /** The text of the current directory `L`. */
  function TextOf(L: seq<Text>): (r: Text)
    ensures |r| >= 1 && r[0] == SLASH
  {
    Render(CutAll(L))
  }

  lemma JoinedPush(L: seq<Text>, u: Text)
    ensures Joined(L + [u]) == Joined(L) + [SLASH] + u
  {
    assert (L + [u])[..|L|] == L;
  }

  lemma CutPush(L: seq<Text>, u: Text)
    ensures CutAll(L + [u]) == CutAll(L) + [Cut(u, |Joined(CutAll(L))| + 1)]
  {
    assert (L + [u])[..|L|] == L;
  }

  /** Only the root has a text of one character. */
  lemma {:induction false} TextLength(L: seq<Text>)
    requires AllPlain(L)
    ensures L != [] ==> |Joined(CutAll(L))| > 1 && TextOf(L) == Joined(CutAll(L))
    decreases |L|
  {
    if L != [] {
      var I, c := L[..|L| - 1], L[|L| - 1];
      TextLength(I);
      JoinedPush(CutAll(I), Cut(c, |Joined(CutAll(I))| + 1));
    }
  }

  lemma {:induction false} CutLength(L: seq<Text>)
    requires AllPlain(L)
    ensures |Joined(L)| <= 126 ==> CutAll(L) == L
    ensures |Joined(L)| > 126 ==> 126 <= |Joined(CutAll(L))| < |Joined(L)|
    decreases |L|
  {
    if L != [] {
      var I, c := L[..|L| - 1], L[|L| - 1];
      CutLength(I);
      assert L == I + [c];
      JoinedPush(I, c);
      JoinedPush(CutAll(I), Cut(c, |Joined(CutAll(I))| + 1));
    }
  }

  /** The text is the whole path exactly when that has at most 126 characters; a cut text has no fewer. */
  lemma TextExact(L: seq<Text>)
    requires AllPlain(L)
    ensures TextOf(L) == Render(L) <==> |Render(L)| <= 126
    ensures |TextOf(L)| < 126 ==> TextOf(L) == Render(L)
  {
    CutLength(L);
    TextLength(L);
  }

  /** A text of a longer path is its first 126 characters, and a slash for each component behind them. */
  lemma {:induction false} CutPrefix(L: seq<Text>)
    requires AllPlain(L) && |Joined(L)| >= 126
    ensures |Joined(CutAll(L))| >= 126 && Joined(CutAll(L))[..126] == Joined(L)[..126]
    ensures forall k :: 126 <= k < |Joined(CutAll(L))| ==> Joined(CutAll(L))[k] == SLASH
    decreases |L|
  {
    hide CutAll, Joined;
    SplitLast(L);
    var I, c := L[..|L| - 1], L[|L| - 1];
    var J, K := Joined(I), Joined(CutAll(I));
    CutPush(I, c);
    JoinedPush(I, c);
    JoinedPush(CutAll(I), Cut(c, |K| + 1));
    CutLength(I);
    if |J| >= 126 {
      CutPrefix(I);
    }
    assert |J| < 126 ==> K == J;
  }

  lemma SplitLast(L: seq<Text>)
    requires |Joined(L)| >= 1
    ensures L != [] && L == L[..|L| - 1] + [L[|L| - 1]]
  {
  }

  lemma TextPrefix(L: seq<Text>)
    requires AllPlain(L) && |Render(L)| >= 126
    ensures |TextOf(L)| >= 126 && TextOf(L)[..126] == Render(L)[..126]
    ensures forall k :: 126 <= k < |TextOf(L)| ==> TextOf(L)[k] == SLASH
  {
    CutPrefix(L);
    TextLength(L);
  }

  /** A component behind the text: a slash unless at the root, then as many characters as fit. */
  lemma PushText(L: seq<Text>, u: Text)
    requires AllPlain(L)
    ensures var J := Joined(CutAll(L));
      && (J == [] <==> L == []) && TextOf(L + [u]) == J + [SLASH] + Cut(u, |J| + 1)
      && TextOf(L) == (if L == [] then [SLASH] else J) && (|TextOf(L)| > 1 <==> L != [])
  {
    TextLength(L);
    CutPush(L, u);
    JoinedPush(CutAll(L), Cut(u, |Joined(CutAll(L))| + 1));
  }

  lemma CutFree(c: Text, front: nat)
    requires SLASH !in c
    ensures SLASH !in Cut(c, front)
  {
  }

  /** The last component of the text is what follows its last slash. */
  lemma TextLast(L: seq<Text>) returns (J: Text, x: Text)
    requires AllPlain(L) && L != []
    ensures SLASH !in x && TextOf(L) == J + [SLASH] + x
    ensures TextOf(L[..|L| - 1]) == if J == [] then [SLASH] else J
  {
    hide TextOf, CutAll, Joined, Cut;
    var I, c := L[..|L| - 1], L[|L| - 1];
    assert L == I + [c];
    J, x := Joined(CutAll(I)), Cut(c, |Joined(CutAll(I))| + 1);
    PushText(I, c);
    CutFree(c, |J| + 1);
  }

  /** ".." on the buffer: back to the previous slash, which goes too unless it is the first. */
  method DropComponent(next: array<Byte>, n: nat, ghost L: seq<Text>) returns (m: nat)
    requires n <= next.Length && AllPlain(L) && next[..n] == TextOf(L)
    ensures m <= n && next[..m] == TextOf(Push(L, [DOT, DOT]))
  {
    hide TextOf;
    m := n;
    ghost var J, x := [], [];
    TextRoot();
    if L != [] { J, x := TextLast(L); }
    assert next[..n] == J + [SLASH] + x;
    while m > 1 && next[m - 1] != SLASH
      invariant |J| + 1 <= m <= n
    {
      assert next[m - 1] == next[..n][m - 1];
      m := m - 1;
    }
    if m > 1 {
      m := m - 1;
    }
    assert next[..|J|] == next[..n][..|J|] == J;
    assert next[0] == next[..n][0] == SLASH;
  }

  lemma TextRoot()
    ensures TextOf([]) == [SLASH]
  {
  }

  lemma CutIs(u: Text, front: nat, i: nat)
    requires i <= |u| && (i > 0 ==> front + i <= 126) && (i == |u| || front + i >= 126)
    ensures u[..i] == Cut(u, front)
  {
  }

  function Max(a: nat, b: nat): nat { if a < b then b else a }

  /** A component on the buffer; `top` is the highest index stored to. */
  method AppendComponent(next: array<Byte>, n: nat, ghost L: seq<Text>, path: Text, pos: nat, len: nat)
    returns (m: nat, ghost top: nat)
    requires 0 < len && pos + len <= |path| && AllPlain(L) && n + len + 1 <= next.Length && next[..n] == TextOf(L)
    modifies next
    ensures m <= n + len + 1 && next[..m] == TextOf(L + [UpperAll(path[pos..pos + len])]) && top == m - 1
  {
    hide TextOf, Joined, CutAll, Cut;
    m, top := n, 0;
    PushText(L, UpperAll(path[pos..pos + len]));
    if m > 1 {
      next[m], top := SLASH, m;
      m := m + 1;
    }
    assert next[..m] == Joined(CutAll(L)) + [SLASH];
    m, top := AppendChars(next, m, path, pos, len, top);
  }

  /** The characters of a component, upper-cased, as many as fit. */
  method AppendChars(next: array<Byte>, n: nat, path: Text, pos: nat, len: nat, ghost top0: nat)
    returns (m: nat, ghost top: nat)
    requires pos + len <= |path| && n + len <= next.Length
    modifies next
    ensures m <= n + len && next[..m] == old(next[..n]) + Cut(UpperAll(path[pos..pos + len]), n)
    ensures (m == n ==> (len == 0 || n >= 126) && top == top0) && (m > n ==> top == m - 1)
  {
    hide Cut;
    ghost var u := UpperAll(path[pos..pos + len]);
    ghost var front := next[..n];
    m, top := n, top0;
    var i := 0;
    while i < len && m < 126
      invariant 0 <= i <= len && m == n + i && (i > 0 ==> m <= 126) && top == if i > 0 then m - 1 else top0
      invariant next[..m] == front + u[..i]
    {
      next[m], top := Upper(path[pos + i]), m;
      m := m + 1;
      i := i + 1;
      assert next[..m] == front + u[..i];
    }
    CutIs(u, n, i);
  }

  /** The highest index that cwd_apply stores to, from the text of `L` on. */
  function Highest(L: seq<Text>, cs: seq<Text>): nat
    decreases |cs|
  {
    if cs == [] then |TextOf(L)|
    else if IsDots(cs[0]) then Highest(Push(L, cs[0]), cs[1..])
    else Max(|TextOf(Push(L, cs[0]))| - 1, Highest(Push(L, cs[0]), cs[1..]))
  }

  /** Where cwd_apply starts. */
  function CwdStart(L: seq<Text>, path: Text): seq<Text> { if Absolute(path) then [] else L }

  lemma HighestStep(L: seq<Text>, cs: seq<Text>)
    ensures cs == [] ==> Highest(L, cs) == |TextOf(L)|
    ensures cs != [] ==> var rest := Highest(Push(L, cs[0]), cs[1..]);
      Highest(L, cs) == if IsDots(cs[0]) then rest else Max(|TextOf(Push(L, cs[0]))| - 1, rest)
  {
  }

  /** The buffer before the first component: the old text, or "/" for an absolute path. */
  method CwdBegin(next: array<Byte>, cwd: Text, ghost L: seq<Text>, path: Text)
    returns (n: nat, pos: nat, ghost cur: seq<Text>, ghost top: nat)
    requires |cwd| <= next.Length && AllPlain(L) && cwd == TextOf(L)
    modifies next
    ensures pos <= |path| && cur == CwdStart(L, path)
    ensures 1 <= n <= |cwd| && next[..n] == TextOf(cur) && top == n - 1
    ensures path[pos..] == SkipSlashes(path) && (pos < |path| ==> path[pos] != SLASH)
  {
    hide TextOf;
    n, pos, top := 0, 0, 0;
    if path == [] || path[0] != SLASH {
      while n < |cwd|
        invariant 0 <= n <= |cwd| && next[..n] == cwd[..n] && (n > 0 ==> top == n - 1)
      {
        next[n], top := cwd[n], n;
        n := n + 1;
      }
      cur := L;
      assert next[..n] == cwd && path[0..] == path;
    } else {
      next[n] := SLASH;
      n := n + 1;
      assert path[0..] == path;
      pos := ScanSlashes(path, pos);
      cur := [];
      TextRoot();
      assert next[..n] == [SLASH];
    }
  }

  /** One component of cwd_apply. */
  method ApplyComponent(next: array<Byte>, n: nat, ghost L: seq<Text>, path: Text, pos: nat, len: nat, ghost top0: nat)
    returns (m: nat, ghost top: nat)
    requires pos + len <= |path| && AllPlain(L) && Plain(path[pos..pos + len])
    requires n + len + 1 <= next.Length && next[..n] == TextOf(L)
    modifies next
    ensures 1 <= m <= n + len + 1 && next[..m] == TextOf(Push(L, path[pos..pos + len]))
    ensures top == if IsDots(path[pos..pos + len]) then top0 else Max(top0, m - 1)
  {
    hide TextOf, Push;
    ghost var c := path[pos..pos + len];
    m, top := n, top0;
    if len == 1 && path[pos] == DOT {
      assert c == [DOT];
    } else if len == 2 && path[pos] == DOT && path[pos + 1] == DOT {
      assert c == [DOT, DOT];
      m := DropComponent(next, n, L);
    } else {
      NotDots(path, pos, len);
      m, top := AppendComponent(next, n, L, path, pos, len);
      top := Max(top0, top);
    }
    PushIs(L, c);
    assert |TextOf(Push(L, c))| >= 1;
  }

  /** One round of the loop: the component at `pos`, and the slashes behind it. */
  method NextRound(next: array<Byte>, n: nat, path: Text, pos: nat, ghost L: seq<Text>, ghost top0: nat)
    returns (m: nat, q: nat, ghost cur: seq<Text>, ghost top: nat)
    requires pos < |path| && path[pos] != SLASH && AllPlain(L)
    requires n + 2 * (|path| - pos) < next.Length && next[..n] == TextOf(L)
    modifies next
    ensures pos < q <= |path| && (q < |path| ==> path[q] != SLASH) && AllPlain(cur)
    ensures 1 <= m && m + 2 * (|path| - q) < next.Length && next[..m] == TextOf(cur)
    ensures Normalize(cur, Comps(path[q..])) == Normalize(L, Comps(path[pos..]))
    ensures Max(top, Highest(cur, Comps(path[q..]))) == Max(top0, Highest(L, Comps(path[pos..])))
  {
    hide Comps, Normalize, SkipSlashes, TextOf, IndexOf, Highest, Push;
    ghost var rest := path[pos..];
    CompsStep(rest);
    CompsPlain(rest);
    var len := ScanComponent(path, pos);
    ghost var c := path[pos..pos + len];
    assert rest[..len] == c && rest[len..] == path[pos + len..] && Comps(rest)[0] == c;
    NormalizeStep(L, Comps(rest));
    HighestStep(L, Comps(rest));
    PushPlain(L, c);
    m, top := ApplyComponent(next, n, L, path, pos, len, top0);
    cur := Push(L, c);
    q := ScanSlashes(path, pos + len);
    assert Comps(rest)[1..] == Comps(path[q..]);
  }

  /**
   * cwd_apply, on memory that goes on behind its 128-byte buffer: the text of the
   * normalised path (TextExact says when that is the whole path), and the highest
   * index stored to. No store passes the buffer exactly when that is below 128.
   */
  method CwdApply(cwd: Text, ghost L: seq<Text>, path: Text) returns (r: Text, ghost top: nat)
    requires AllPlain(L) && cwd == TextOf(L)
    ensures AllPlain(NextCwd(L, path)) && r == TextOf(NextCwd(L, path)) && |r| <= top
    ensures top == Max(|TextOf(CwdStart(L, path))| - 1, Highest(CwdStart(L, path), CwdComps(path)))
  {
    hide Comps, Normalize, SkipSlashes, TextOf, IndexOf, Highest, Push, AllPlain;
    var next := new Byte[|cwd| + 2 * |path| + 2];
    ghost var cur: seq<Text>;
    var n, pos;
    n, pos, cur, top := CwdBegin(next, cwd, L, path);
    RootPlain();
    ghost var all := Max(top, Highest(cur, Comps(path[pos..])));
    while pos < |path|
      invariant pos <= |path| && AllPlain(cur) && (pos < |path| ==> path[pos] != SLASH)
      invariant 1 <= n && n + 2 * (|path| - pos) < next.Length && next[..n] == TextOf(cur)
      invariant Max(top, Highest(cur, Comps(path[pos..]))) == all
      invariant Normalize(cur, Comps(path[pos..])) == NextCwd(L, path)
    {
      n, pos, cur, top := NextRound(next, n, path, pos, cur, top);
    }
    assert n > 0;  // the source's fallback for an empty buffer cannot be needed
    CompsEmpty();
    assert path[pos..] == [];
    NormalizeStep(cur, []);
    HighestStep(cur, []);
    next[n], top := 0, Max(top, n);
    r := next[..n];
  }

  lemma RootPlain()
    ensures AllPlain([])
  {
  }

  lemma PushIs(L: seq<Text>, c: Text)
    ensures c == [DOT] ==> Push(L, c) == L
    ensures !IsDots(c) ==> Push(L, c) == L + [UpperAll(c)]
  {
  }

  predicate AllPathOk(L: seq<Text>) { forall i :: 0 <= i < |L| ==> PathOk(L[i]) }

  lemma {:induction false} CompsPathOk(s: Text)
    requires PathOk(s)
    ensures AllPathOk(Comps(s))
    decreases |s|
  {
    if s != [] {
      var k := IndexOf(s, SLASH);
      SkipPathOk(s[k..]);
      CompsPathOk(SkipSlashes(s[k..]));
    }
  }

  lemma {:induction false} SkipPathOk(s: Text)
    requires PathOk(s)
    ensures PathOk(SkipSlashes(s))
  {
    if s != [] && s[0] == SLASH { SkipPathOk(s[1..]); }
  }

  lemma {:induction false} NormalizePathOk(L: seq<Text>, cs: seq<Text>)
    requires AllPathOk(L) && AllPathOk(cs)
    ensures AllPathOk(Normalize(L, cs))
    decreases |cs|
  {
    if cs != [] { NormalizePathOk(Push(L, cs[0]), cs[1..]); }
  }

  lemma NextPathOk(L: seq<Text>, path: Text)
    requires AllPathOk(L) && PathOk(path)
    ensures AllPathOk(NextCwd(L, path))
  {
    SkipPathOk(path);
    CompsPathOk(SkipSlashes(path));
    NormalizePathOk(CwdStart(L, path), CwdComps(path));
  }

  /** No component has a lower-case letter. */
  predicate AllCapital(L: seq<Text>) { forall i :: 0 <= i < |L| ==> NoLower(L[i]) }

  predicate NoLower(s: Text) { forall k :: 0 <= k < |s| ==> !(97 <= s[k] <= 122) }

  lemma {:induction false} NormalizeCapital(L: seq<Text>, cs: seq<Text>)
    requires AllCapital(L)
    ensures AllCapital(Normalize(L, cs))
    decreases |cs|
  {
    if cs != [] { NormalizeCapital(Push(L, cs[0]), cs[1..]); }
  }

  lemma NextCapital(L: seq<Text>, path: Text)
    requires AllCapital(L)
    ensures AllCapital(NextCwd(L, path))
  {
    NormalizeCapital(CwdStart(L, path), CwdComps(path));
  }

  /** Nor has the text. */
  lemma {:induction false} TextCapital(L: seq<Text>)
    requires AllCapital(L)
    ensures NoLower(Joined(CutAll(L))) && NoLower(TextOf(L))
    decreases |L|
  {
    if L != [] {
      var I, c := L[..|L| - 1], L[|L| - 1];
      TextCapital(I);
      JoinedPush(CutAll(I), Cut(c, |Joined(CutAll(I))| + 1));
    }
  }

  lemma {:induction false} JoinedPathOk(L: seq<Text>)
    requires AllPathOk(L)
    ensures PathOk(Joined(CutAll(L)))
  {
    if L != [] {
      var I, c := L[..|L| - 1], L[|L| - 1];
      JoinedPathOk(I);
      JoinedPush(CutAll(I), Cut(c, |Joined(CutAll(I))| + 1));
    }
  }

  /** The text is printable if the components are. */
  lemma TextPathOk(L: seq<Text>)
    requires AllPathOk(L)
    ensures PathOk(TextOf(L))
  {
    JoinedPathOk(L);
  }

  lemma NotDots(path: Text, pos: nat, len: nat)
    requires pos + len <= |path|
    requires !(len == 1 && path[pos] == DOT) && !(len == 2 && path[pos] == DOT && path[pos + 1] == DOT)
    ensures !IsDots(path[pos..pos + len])
  {
    var c := path[pos..pos + len];
    assert len == 1 ==> c[0] == path[pos];
    assert len == 2 ==> c[0] == path[pos] && c[1] == path[pos + 1];
  }

  lemma CompsEmpty()
    ensures Comps([]) == []
  {
  }

  lemma CompsStep(s: Text)
    requires s != []
    ensures Comps(s) == [s[..IndexOf(s, SLASH)]] + Comps(SkipSlashes(s[IndexOf(s, SLASH)..]))
  {
  }

  lemma NormalizeStep(L: seq<Text>, cs: seq<Text>)
    ensures Normalize(L, cs) == if cs == [] then L else Normalize(Push(L, cs[0]), cs[1..])
  {
  }

  lemma {:induction false} NormalizePlain(L: seq<Text>, cs: seq<Text>)
    requires AllPlain(L) && AllPlain(cs)
    ensures AllPlain(Normalize(L, cs))
    decreases |cs|
  {
    if cs != [] {
      PushPlain(L, cs[0]);
      NormalizePlain(Push(L, cs[0]), cs[1..]);
    }
  }

  lemma NextPlain(L: seq<Text>, path: Text)
    requires AllPlain(L)
    ensures AllPlain(NextCwd(L, path))
  {
    CompsPlain(SkipSlashes(path));
    NormalizePlain(CwdStart(L, path), CwdComps(path));
  }

  // ---- deep directories -----------------------------------------------------------------------

  /** "ABCDEFGH.IJK", a name of full length. */
  const LONG_NAME: Text := [65, 66, 67, 68, 69, 70, 71, 72, 46, 73, 74, 75]

  /** The path of `n` nested directories of that name. */
  function Deep(n: nat): (r: seq<Text>)
    ensures |r| == n && AllPlain(r) && AllPathOk(r)
  {
    seq(n, _ => LONG_NAME)
  }

  lemma DeepPush(n: nat)
    ensures Deep(n + 1) == Deep(n) + [LONG_NAME] == Push(Deep(n), LONG_NAME)
  {
    assert UpperAll(LONG_NAME) == LONG_NAME;
  }

  lemma {:induction false} DeepLength(n: nat)
    ensures |Joined(Deep(n))| == 13 * n
  {
    if n > 0 {
      DeepLength(n - 1);
      DeepPush(n - 1);
      JoinedPush(Deep(n - 1), LONG_NAME);
    }
  }

  /** Up to nine of them the text is whole, and each is reached from the one above by a cd. */
  lemma DeepText(n: nat)
    requires n <= 9
    ensures TextOf(Deep(n)) == Render(Deep(n)) && |TextOf(Deep(n))| == if n == 0 then 1 else 13 * n
    ensures n < 9 ==> NextCwd(Deep(n), LONG_NAME) == Deep(n + 1) && Highest(Deep(n), CwdComps(LONG_NAME)) < 128
  {
    DeepLength(n);
    TextExact(Deep(n));
    if n < 9 {
      DeepPush(n);
      DeepLength(n + 1);
      TextExact(Deep(n + 1));
      CompsOne(LONG_NAME);
      var cs: seq<Text> := [LONG_NAME];
      assert cs[1..] == [];
      assert Highest(Deep(n + 1), []) == |TextOf(Deep(n + 1))|;
    }
  }

  /** The next text, `len` being the length of this one: a slash, and what is left of the name. */
  lemma DeepNext(n: nat, len: nat)
    requires |Joined(CutAll(Deep(n)))| == len
    ensures |TextOf(Deep(n + 1))| == |Joined(CutAll(Deep(n + 1)))|
    ensures |TextOf(Deep(n + 1))| == if len <= 113 then len + 13 else if len <= 125 then 126 else len + 1
  {
    hide CutAll, Joined, TextOf, Render;
    DeepPush(n);
    PushText(Deep(n), LONG_NAME);
    TextLength(Deep(n + 1));
  }

  /** The tenth is cut; a cd into the twelfth stores its terminator behind the buffer. */
  lemma DeepCut()
    ensures TextOf(Deep(10)) != Render(Deep(10))
    ensures |TextOf(Deep(11))| == 127 && Highest(Deep(11), CwdComps(LONG_NAME)) == 128
  {
    hide CutAll, Joined, Highest, TextOf, Render, Push, Cut, Deep, Comps, SkipSlashes;
    DeepNine();
    DeepNext(9, 117);
    DeepNext(10, 126);
    DeepNext(11, 127);
    TenCut();
    DeepComps();
    HighestOne(Deep(11), LONG_NAME);
    DeepPush(11);
  }

  lemma DeepNine()
    ensures |Joined(CutAll(Deep(9)))| == 117
  {
    hide CutAll, Joined;
    DeepLength(9);
    CutLength(Deep(9));
  }

  lemma DeepComps()
    ensures CwdComps(LONG_NAME) == [LONG_NAME] && !IsDots(LONG_NAME)
  {
    hide Comps, IndexOf;
    assert LONG_NAME[0] != SLASH;
    CompsOne(LONG_NAME);
  }

  lemma TenCut()
    ensures TextOf(Deep(10)) != Render(Deep(10))
  {
    DeepLength(10);
    TextExact(Deep(10));
  }

  lemma HighestOne(L: seq<Text>, c: Text)
    requires !IsDots(c)
    ensures Highest(L, [c]) == |TextOf(Push(L, c))|
  {
    assert [c][1..] == [];
    assert Highest(Push(L, c), []) == |TextOf(Push(L, c))|;
  }
}
