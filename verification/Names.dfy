/** 8.3 names: parsing one path component and formatting a raw directory name. */
module Names {
  import opened Options
  import opened Bytes

  type Text = seq<Byte>
  type Name = s: seq<Byte> | |s| == 11 witness seq(11, _ => 32)

  const DOT: Byte := 46
  const SLASH: Byte := 47
  const SPACE: Byte := 32

  function Upper(c: Byte): Byte {
    if 97 <= c <= 122 then c - 32 else c
  }

  function UpperAll(s: Text): (r: Text)
    ensures |r| == |s| && forall i :: 0 <= i < |s| ==> r[i] == Upper(s[i])
  {
    seq(|s|, i requires 0 <= i < |s| => Upper(s[i]))
  }

  function Pad(s: Text, n: nat): (r: Text)
    requires |s| <= n
    ensures |r| == n && r[..|s|] == s && forall i :: |s| <= i < n ==> r[i] == SPACE
  {
    s + seq(n - |s|, _ => SPACE)
  }

  const BLANK: Name := Pad([], 11)
  const DOT_NAME: Name := Pad([DOT], 11)
  const DOTDOT_NAME: Name := Pad([DOT, DOT], 11)

  /** Position of the first `c` in `s`, or |s|. */
  function IndexOf(s: Text, c: Byte): (k: nat)
    ensures k <= |s| && (k < |s| ==> s[k] == c) && forall i :: 0 <= i < k ==> s[i] != c
  {
    if s == [] || s[0] == c then 0 else 1 + IndexOf(s[1..], c)
  }

  predicate IsDots(s: Text) { s == [DOT] || s == [DOT, DOT] }

  /** The raw name with the given base and extension, upper-cased and padded. */
  function Raw(base: Text, ext: Text): (r: Name)
    requires |base| <= 8 && |ext| <= 3
    ensures forall i :: 0 <= i < 8 ==> r[i] == if i < |base| then Upper(base[i]) else SPACE
    ensures forall i :: 8 <= i < 11 ==> r[i] == if i - 8 < |ext| then Upper(ext[i - 8]) else SPACE
  {
    Pad(UpperAll(base), 8) + Pad(UpperAll(ext), 3)
  }

  /**
   * The padded, upper-cased name of a component: at most eight characters, then
   * optionally a dot and at most three more; "." and ".." stand for themselves.
   */
  function Name83(s: Text): (r: Option<Name>) {
    if s == [DOT] then Some(DOT_NAME)
    else if s == [DOT, DOT] then Some(DOTDOT_NAME)
    else
      var k := IndexOf(s, DOT);
      if k > 8 then None
      else if k == |s| then Some(Raw(s, []))
      else
        var ext := s[k + 1..];
        if |ext| > 3 || DOT in ext then None else Some(Raw(s[..k], ext))
  }

  /** Display form of a raw name: the base, then a dot and the extension if there is one. */
  function Formatted(raw: Name): (r: Text) {
    var base := raw[..8][..IndexOf(raw[..8], SPACE)];
    if raw[8] == SPACE then base else base + [DOT] + raw[8..][..IndexOf(raw[8..], SPACE)]
  }

  /** A raw name as this driver writes it: no lower case, no dots, padding only at the ends. */
  predicate Canonical(raw: Name) {
    && (forall i :: 0 <= i < 11 ==> raw[i] != DOT && Upper(raw[i]) == raw[i])
    && (forall i :: IndexOf(raw[..8], SPACE) <= i < 8 ==> raw[i] == SPACE)
    && (forall i :: 8 + IndexOf(raw[8..], SPACE) <= i < 11 ==> raw[i] == SPACE)
  }

  lemma IndexIs(s: Text, c: Byte, k: nat)
    requires k <= |s| && (k < |s| ==> s[k] == c) && forall i :: 0 <= i < k ==> s[i] != c
    ensures IndexOf(s, c) == k
  {
    var j := IndexOf(s, c);
    assert j < |s| ==> s[j] == c;
  }

  lemma UpperFixed(s: Text)
    requires forall i :: 0 <= i < |s| ==> Upper(s[i]) == s[i]
    ensures UpperAll(s) == s
  {
  }

  /** `v` is the byte of a name for character `c`: a letter as a capital, anything else as it is. */
  predicate Capital(c: Byte, v: Byte) { if 97 <= c <= 122 then v == c - 32 else v == c }

  /** The raw name of `base` and `ext`: eight bytes and three, padded with blanks. */
  predicate Spells(r: Name, base: Text, ext: Text) {
    && |base| <= 8 && |ext| <= 3
    && (forall i :: 0 <= i < 8 ==> if i < |base| then Capital(base[i], r[i]) else r[i] == 32)
    && (forall i :: 0 <= i < 3 ==> if i < |ext| then Capital(ext[i], r[8 + i]) else r[8 + i] == 32)
  }

  /** A component without a dot is the base: accepted up to eight characters. */
  lemma NameWithout(base: Text)
    requires 46 !in base
    ensures Name83(base).Some? <==> |base| <= 8
    ensures |base| <= 8 ==> Spells(Name83(base).value, base, [])
  {
    assert [46] != base && [46, 46] != base;
    IndexIs(base, DOT, |base|);
  }

  /** One with a dot is split there: at most eight characters, then at most three without a further dot. */
  lemma NameWith(base: Text, ext: Text)
    requires 46 !in base && base + [46] + ext != [46] && base + [46] + ext != [46, 46]
    ensures Name83(base + [46] + ext).Some? <==> |base| <= 8 && |ext| <= 3 && 46 !in ext
    ensures Name83(base + [46] + ext).Some? ==> Spells(Name83(base + [46] + ext).value, base, ext)
  {
    hide IndexOf, Raw, Spells;
    var s := base + [46] + ext;
    IndexIs(s, DOT, |base|);
    assert s[..|base|] == base && s[|base| + 1..] == ext;
    if |base| <= 8 && |ext| <= 3 { RawSpells(base, ext); }
  }

  lemma RawSpells(base: Text, ext: Text)
    requires |base| <= 8 && |ext| <= 3
    ensures Spells(Raw(base, ext), base, ext)
  {
  }

  /** Only the two dot components produce a name that starts with a dot. */
  lemma DotNames(s: Text)
    ensures Name83(s).Some? ==> (Name83(s).value[0] == DOT <==> IsDots(s))
    ensures Name83(s) == Some(DOT_NAME) <==> s == [DOT]
    ensures Name83(s) == Some(DOTDOT_NAME) <==> s == [DOT, DOT]
  {
    assert DOT_NAME[0] == DOT && DOTDOT_NAME[0] == DOT;
    assert DOT_NAME[1] == SPACE && DOTDOT_NAME[1] == DOT;
    if !IsDots(s) && Name83(s).Some? {
      var k := IndexOf(s, DOT);
      var n := Name83(s).value;
      if k == 0 {
        assert n[0] == SPACE;
      } else {
        assert n[0] == Upper(s[0]);
      }
    }
  }

  /** Case does not matter to a name. */
  lemma NameOfUpper(s: Text)
    ensures Name83(UpperAll(s)) == Name83(s)
  {
    var u := UpperAll(s);
    assert forall i :: 0 <= i < |s| ==> (u[i] == DOT <==> s[i] == DOT);
    if IsDots(s) {
      assert u == s;
    } else {
      assert !IsDots(u) by {
        if |u| == 1 { assert u[0] != DOT; }
        if |u| == 2 { assert u[0] != DOT || u[1] != DOT; }
      }
      var k := IndexOf(s, DOT);
      IndexIs(u, DOT, k);
      UpperFixed(u);
      if k < |s| {
        var e, f := s[k + 1..], u[k + 1..];
        assert f == UpperAll(e);
        assert forall i :: 0 <= i < |e| ==> (f[i] == DOT <==> e[i] == DOT);
        assert DOT in e <==> DOT in f;
        assert UpperAll(u[..k]) == UpperAll(s[..k]);
        assert UpperAll(f) == UpperAll(e);
      }
    }
  }

  lemma FormattedRaw(base: Text, ext: Text)
    requires |base| <= 8 && |ext| <= 3 && SPACE !in base && SPACE !in ext
    ensures Formatted(Raw(base, ext)) == if ext == [] then UpperAll(base) else UpperAll(base) + [DOT] + UpperAll(ext)
  {
    hide Raw, Pad, UpperAll, IndexOf;
    var raw := Raw(base, ext);
    assert forall i :: 0 <= i < |base| ==> base[i] in base;
    assert forall i :: 0 <= i < |ext| ==> ext[i] in ext;
    IndexIs(raw[..8], SPACE, |base|);
    IndexIs(raw[8..], SPACE, |ext|);
    assert raw[..8][..|base|] == UpperAll(base);
    assert raw[8..][..|ext|] == UpperAll(ext);
  }

  lemma CanonicalParts(raw: Name) returns (base: Text, ext: Text)
    requires Canonical(raw)
    ensures |base| <= 8 && |ext| <= 3 && raw == Raw(base, ext)
    ensures SPACE !in base && SPACE !in ext && DOT !in base && DOT !in ext
    ensures UpperAll(base) == base && UpperAll(ext) == ext
  {
    hide Pad, UpperAll, Raw;
    base := raw[..8][..IndexOf(raw[..8], SPACE)];
    ext := raw[8..][..IndexOf(raw[8..], SPACE)];
    UpperFixed(base);
    UpperFixed(ext);
    assert forall i :: 0 <= i < 11 ==> raw[i] == Raw(base, ext)[i];
  }

  lemma ParseOfDots()
    ensures Name83(Formatted(DOT_NAME)) == Some(DOT_NAME) && Name83(Formatted(DOTDOT_NAME)) == Some(DOTDOT_NAME)
  {
    IndexIs(DOT_NAME[..8], SPACE, 1);
    IndexIs(DOTDOT_NAME[..8], SPACE, 2);
    assert Formatted(DOT_NAME) == [DOT];
    assert Formatted(DOTDOT_NAME) == [DOT, DOT];
  }

  lemma NameOfParts(base: Text, ext: Text)
    requires |base| <= 8 && |ext| <= 3 && DOT !in base && DOT !in ext
    ensures Name83(if ext == [] then base else base + [DOT] + ext) == Some(Raw(base, ext))
  {
    hide Raw;
    if ext == [] {
      IndexIs(base, DOT, |base|);
    } else {
      var s := base + [DOT] + ext;
      IndexIs(s, DOT, |base|);
      assert s[|base| + 1..] == ext && s[..|base|] == base && ext[0] in ext;
    }
  }

  /** A canonical raw name, "." and ".." survive formatting and parsing. */
  lemma ParseOfFormatted(raw: Name)
    requires Canonical(raw) || raw == DOT_NAME || raw == DOTDOT_NAME
    ensures Name83(Formatted(raw)) == Some(raw)
  {
    hide Raw, UpperAll, Canonical, Name83, Formatted;
    if raw == DOT_NAME || raw == DOTDOT_NAME {
      ParseOfDots();
    } else {
      var base, ext := CanonicalParts(raw);
      FormattedRaw(base, ext);
      NameOfParts(base, ext);
    }
  }

  lemma FormattedSpaceFree(raw: Name)
    ensures SPACE !in Formatted(raw)
    ensures raw[8] == SPACE && (forall i :: 0 <= i < 8 ==> raw[i] != DOT) ==> DOT !in Formatted(raw)
  {
  }

  lemma NameParts(s: Text) returns (base: Text, ext: Text)
    requires !IsDots(s) && Name83(s).Some?
    ensures |base| <= 8 && |ext| <= 3 && Name83(s) == Some(Raw(base, ext))
    ensures DOT !in base && DOT !in ext
    ensures (s == base && ext == []) || s == base + [DOT] + ext
  {
    hide Raw;
    var k := IndexOf(s, DOT);
    base, ext := s[..k], if k < |s| then s[k + 1..] else [];
    assert k == |s| ==> base == s;
  }

  lemma UpperJoin(base: Text, ext: Text)
    ensures UpperAll(base + [DOT] + ext) == UpperAll(base) + [DOT] + UpperAll(ext)
  {
  }

  lemma RawIs(out: Name, base: Text, ext: Text)
    requires |base| <= 8 && |ext| <= 3
    requires forall j :: 0 <= j < 8 ==> out[j] == if j < |base| then Upper(base[j]) else SPACE
    requires forall j :: 8 <= j < 11 ==> out[j] == if j - 8 < |ext| then Upper(ext[j - 8]) else SPACE
    ensures out == Raw(base, ext)
  {
    hide Raw;
    assert forall j :: 0 <= j < 11 ==> out[j] == Raw(base, ext)[j];
  }

  lemma FormattedParts(s: Text, base: Text, ext: Text)
    requires |base| <= 8 && |ext| <= 3 && DOT !in base
    requires (s == base && ext == []) || s == base + [DOT] + ext
    ensures SPACE !in s ==> Formatted(Raw(base, ext)) == UpperAll(if ext == [] then base else s)
    ensures SPACE !in Formatted(Raw(base, ext))
    ensures ext == [] ==> DOT !in Formatted(Raw(base, ext))
  {
    hide Raw, UpperAll, Formatted;
    assert forall i :: 0 <= i < |base| ==> base[i] in base;
    FormattedSpaceFree(Raw(base, ext));
    if SPACE !in s {
      assert SPACE !in base && SPACE !in ext;
      FormattedRaw(base, ext);
      if ext != [] {
        UpperJoin(base, ext);
      }
    }
  }

  /**
   * A valid name survives parsing and formatting, up to upper case, exactly when
   * it has no space and does not end in a dot ("." and ".." excepted).
   */
  lemma FormatOfParsed(s: Text)
    requires Name83(s).Some?
    ensures Formatted(Name83(s).value) == UpperAll(s)
       <==> IsDots(s) || (SPACE !in s && (s == [] || s[|s| - 1] != DOT))
  {
    if IsDots(s) {
      ParseOfFormatted(Name83(s).value);
      DotNames(Formatted(Name83(s).value));
      DotNames(s);
      assert UpperAll(s) == s;
    } else {
      hide Name83, Formatted, Raw, UpperAll;
      var base, ext := NameParts(s);
      FormattedParts(s, base, ext);
      var u := UpperAll(s);
      if SPACE in s {
        var i :| 0 <= i < |s| && s[i] == SPACE;
        assert u[i] == SPACE && u[i] in u;
      } else if ext != [] {
        assert s[|s| - 1] == ext[|ext| - 1] && s[|s| - 1] in ext;
      } else if s != base {
        assert u[|base|] == DOT && u[|base|] in u;
      } else if s != [] {
        assert s[|s| - 1] in base;
      }
    }
  }

  lemma NameIs(s: Text, k: nat, base: Text, ext: Text, out: Name)
    requires !IsDots(s) && k == IndexOf(s, DOT) <= 8 && base == s[..k]
    requires if k == |s| then ext == [] else ext == s[k + 1..] && |ext| <= 3 && DOT !in ext
    requires forall j :: 0 <= j < 8 ==> out[j] == if j < |base| then Upper(base[j]) else SPACE
    requires forall j :: 8 <= j < 11 ==> out[j] == if j - 8 < |ext| then Upper(ext[j - 8]) else SPACE
    ensures Name83(s) == Some(out)
  {
    hide Raw, Upper;
    RawIs(out, base, ext);
    assert k == |s| ==> base == s;
  }

  lemma NameFails(s: Text, k: nat, i: nat)
    requires !IsDots(s) && k == IndexOf(s, DOT) < i < |s| && (s[i] == DOT || i - k - 1 >= 3)
    ensures Name83(s) == None
  {
    assert s[k + 1..][i - k - 1] == s[i];
  }

  /** to_83: fills the padded buffer character by character. */
  method To83(s: Text) returns (r: Option<Name>)
    ensures r == Name83(s)
  {
    var out: Name := Pad([], 11);
    if |s| == 1 && s[0] == DOT {
      out := out[0 := DOT];
      assert out == DOT_NAME;
      return Some(out);
    }
    if |s| == 2 && s[0] == DOT && s[1] == DOT {
      out := out[0 := DOT][1 := DOT];
      assert out == DOTDOT_NAME;
      return Some(out);
    }
    r := To83Plain(s, out);
  }

  /** The part of to_83 behind the two dot names. */
  method To83Plain(s: Text, blank: Name) returns (r: Option<Name>)
    requires !IsDots(s) && forall j :: 0 <= j < 11 ==> blank[j] == SPACE
    ensures r == Name83(s)
  {
    hide IsDots, Upper;
    ghost var k := IndexOf(s, DOT);
    ghost var base, ext := s[..k], if k < |s| then s[k + 1..] else [];
    var i, n, out := 0, 0, blank;
    while i < |s| && s[i] != DOT
      invariant 0 <= i <= k && n == i <= 8
      invariant forall j :: 0 <= j < 11 ==> out[j] == if j < i then Upper(s[j]) else SPACE
    {
      if n >= 8 {
        return None;
      }
      out := out[n := Upper(s[i])];
      n := n + 1;
      i := i + 1;
    }
    hide Name83, IndexOf;
    assert i == k;
    if i < |s| && s[i] == DOT {
      r := To83Ext(s, out, i + 1);
    } else {
      NameIs(s, k, base, ext, out);
      r := Some(out);
    }
  }

  /** The extension, behind the first dot. */
  method To83Ext(s: Text, front: Name, start: nat) returns (r: Option<Name>)
    requires !IsDots(s) && 1 <= start == IndexOf(s, DOT) + 1 <= |s| && start <= 9
    requires forall j :: 0 <= j < 11 ==> front[j] == if j < start - 1 then Upper(s[j]) else SPACE
    ensures r == Name83(s)
  {
    hide IsDots, Upper, Name83, IndexOf;
    ghost var k, base, ext := start - 1, s[..start - 1], s[start..];
    var i, n, out := start, 8, front;
    while i < |s|
      invariant k < i <= |s| && n == 8 + (i - k - 1) && n <= 11
      invariant forall j :: 0 <= j < i - k - 1 ==> ext[j] != DOT
      invariant forall j :: 0 <= j < 8 ==> out[j] == if j < k then Upper(base[j]) else SPACE
      invariant forall j :: 8 <= j < 11 ==> out[j] == if j < n then Upper(ext[j - 8]) else SPACE
    {
      if n >= 11 || s[i] == DOT {
        NameFails(s, k, i);
        return None;
      }
      out := out[n := Upper(s[i])];
      n := n + 1;
      i := i + 1;
    }
    NameIs(s, k, base, ext, out);
    return Some(out);
  }

  /** format_name: copies up to the padding of each part. */
  method FormatName(raw: Name) returns (out: Text)
    ensures out == Formatted(raw)
  {
    out := [];
    ghost var base, ext := raw[..8], raw[8..];
    var i := 0;
    while i < 8 && raw[i] != SPACE
      invariant 0 <= i <= 8 && out == raw[..i]
      invariant forall j :: 0 <= j < i ==> raw[j] != SPACE
    {
      out := out + [raw[i]];
      i := i + 1;
    }
    IndexIs(base, SPACE, i);
    assert out == base[..i];
    if raw[8] != SPACE {
      out := out + [DOT];
      i := 8;
      ghost var front := out;
      while i < 11 && raw[i] != SPACE
        invariant 8 <= i <= 11 && out == front + raw[8..i]
        invariant forall j :: 8 <= j < i ==> raw[j] != SPACE
      {
        out := out + [raw[i]];
        i := i + 1;
      }
      IndexIs(ext, SPACE, i - 8);
      assert raw[8..i] == ext[..i - 8];
    }
  }
}
