/** The allocation table as 16-bit links, and the cluster chains in it, which partition the clusters in use. */
module Chains {

  const FREE: nat := 0x0000
  const EOC: nat := 0xFFFF
  predicate IsEoc(c: nat) { c >= 0xFFF8 }

  /** A cluster number that indexes the table. */
  predicate InTable(fat: seq<nat>, c: nat) { 2 <= c < |fat| }

  /** The loop guard of chain_free and file_stream. */
  predicate Continues(c: nat) { c >= 2 && !IsEoc(c) }

  predicate TableOk(fat: seq<nat>) {
    2 <= |fat| <= 0xFFF7 && forall c :: 0 <= c < |fat| ==> fat[c] < 0x10000
  }

  /** Every link that a walk could follow stays inside the table. */
  predicate LinksInRange(fat: seq<nat>) {
    forall c :: 2 <= c < |fat| && Continues(fat[c]) ==> fat[c] < |fat|
  }

  /** How many entries of `fat` from index `from` on are free. */
  function CountFree(fat: seq<nat>, from: nat): (n: nat)
    requires from <= |fat|
    ensures n <= |fat| - from
    decreases |fat| - from
  {
    if from == |fat| then 0 else (if fat[from] == FREE then 1 else 0) + CountFree(fat, from + 1)
  }

  function UsedCount(fat: seq<nat>): nat
    requires 2 <= |fat|
  {
    |fat| - 2 - CountFree(fat, 2)
  }

  lemma {:induction false} CountUpdate(fat: seq<nat>, from: nat, c: nat, v: nat)
    requires from <= |fat| && c < |fat|
    ensures c < from ==> CountFree(fat[c := v], from) == CountFree(fat, from)
    ensures from <= c && fat[c] == FREE && v != FREE ==> CountFree(fat[c := v], from) == CountFree(fat, from) - 1
    ensures from <= c && fat[c] != FREE && v == FREE ==> CountFree(fat[c := v], from) == CountFree(fat, from) + 1
    ensures (fat[c] == FREE) == (v == FREE) ==> CountFree(fat[c := v], from) == CountFree(fat, from)
    decreases |fat| - from
  {
    if from < |fat| {
      CountUpdate(fat, from + 1, c, v);
    }
  }

  lemma {:induction false} CountZero(fat: seq<nat>, from: nat)
    requires from <= |fat|
    ensures CountFree(fat, from) == 0 <==> forall c :: from <= c < |fat| ==> fat[c] != FREE
    decreases |fat| - from
  {
    if from < |fat| {
      CountZero(fat, from + 1);
    }
  }

  // ---- release --------------------------------------------------------------

  /** What chain_free(c) leaves in the table: each visited entry is cleared before moving on. */
  function Released(fat: seq<nat>, c: nat): (r: seq<nat>)
    requires 2 <= |fat| && LinksInRange(fat) && (Continues(c) ==> c < |fat|)
    ensures |r| == |fat|
    ensures forall x :: 0 <= x < |fat| ==> r[x] == fat[x] || r[x] == FREE
    decreases UsedCount(fat), Continues(c)
  {
    if !Continues(c) then fat
    else
      CountUpdate(fat, 2, c, FREE);
      Released(fat[c := FREE], fat[c])
  }

  /** `p` follows links of `fat`; every cluster on it is in the table. */
  predicate IsPath(fat: seq<nat>, p: seq<nat>) {
    && |p| > 0
    && (forall i :: 0 <= i < |p| ==> InTable(fat, p[i]))
    && (forall i :: 0 <= i < |p| - 1 ==> fat[p[i]] == p[i + 1])
  }

  ghost predicate Reaches(fat: seq<nat>, c: nat, x: nat) {
    exists p: seq<nat> :: IsPath(fat, p) && p[0] == c && p[|p| - 1] == x
  }

  /** A walk can be cut so that it never returns to its first cluster. */
  lemma {:induction false} PathAvoiding(fat: seq<nat>, p: seq<nat>) returns (q: seq<nat>)
    requires IsPath(fat, p) && p[|p| - 1] != p[0]
    ensures IsPath(fat, q) && q[0] == fat[p[0]] && q[|q| - 1] == p[|p| - 1]
    ensures p[0] !in q
    decreases |p|
  {
    if j :| 0 < j < |p| && p[j] == p[0] {
      q := PathAvoiding(fat, p[j..]);
    } else {
      q := p[1..];
      assert q[0] == p[1] == fat[p[0]];
    }
  }

  lemma ReachStep(fat: seq<nat>, c: nat, x: nat)
    requires 2 <= |fat| && InTable(fat, c) && x != c
    ensures Reaches(fat, c, x) <==> Reaches(fat[c := FREE], fat[c], x)
  {
    var fat' := fat[c := FREE];
    if Reaches(fat, c, x) {
      var p :| IsPath(fat, p) && p[0] == c && p[|p| - 1] == x;
      var q := PathAvoiding(fat, p);
      assert forall i :: 0 <= i < |q| ==> q[i] in q;
      assert IsPath(fat', q);
    }
    if Reaches(fat', fat[c], x) {
      var q :| IsPath(fat', q) && q[0] == fat[c] && q[|q| - 1] == x;
      forall i | 0 <= i < |q| - 1 ensures q[i] != c {
        assert InTable(fat', q[i + 1]);
      }
      var p := [c] + q;
      assert forall i :: 0 <= i < |p| - 1 ==> fat[p[i]] == p[i + 1];
      assert IsPath(fat, p) && p[0] == c && p[|p| - 1] == x;
    }
  }

  /**
   * On every table with in-range links, cyclic or crossing ones included,
   * chain_free clears exactly the clusters reachable from its start.
   */
  lemma {:induction false} ReleasedIsReachable(fat: seq<nat>, c: nat, x: nat)
    requires 2 <= |fat| <= 0xFFF7 && LinksInRange(fat) && (Continues(c) ==> c < |fat|)
    requires InTable(fat, x)
    ensures Released(fat, c)[x] == if Reaches(fat, c, x) then FREE else fat[x]
    decreases UsedCount(fat), Continues(c)
  {
    if !Continues(c) {
    } else {
      CountUpdate(fat, 2, c, FREE);
      ReleasedIsReachable(fat[c := FREE], fat[c], x);
      if x == c {
        assert IsPath(fat, [c]);
      } else {
        ReachStep(fat, c, x);
      }
    }
  }

  // ---- chains ---------------------------------------------------------------

  /** An acyclic, in-range, end-marked chain of clusters. */
  predicate IsChain(fat: seq<nat>, s: seq<nat>): (r: bool)
    ensures r ==> |s| > 0
  {
    && IsPath(fat, s)
    && IsEoc(fat[s[|s| - 1]])
    && forall i, j :: 0 <= i < j < |s| ==> s[i] != s[j]
  }

  /** The numbers from 2 up to `n`. */
  function Numbers(n: nat): set<nat> { if n <= 2 then {} else Numbers(n - 1) + {n - 1} }

  lemma {:induction false} NumbersAre(n: nat)
    requires 2 <= n
    ensures |Numbers(n)| == n - 2 && forall c: nat :: c in Numbers(n) <==> 2 <= c < n
  {
    if n > 2 {
      NumbersAre(n - 1);
    }
  }

  function Members(s: seq<nat>): set<nat> { set c | c in s }

  lemma {:induction false} DistinctMembers(s: seq<nat>)
    requires forall i, j :: 0 <= i < j < |s| ==> s[i] != s[j]
    ensures |Members(s)| == |s|
  {
    if s != [] {
      var n := |s| - 1;
      DistinctMembers(s[..n]);
      assert s == s[..n] + [s[n]];
      assert Members(s) == Members(s[..n]) + {s[n]};
    }
  }

  /** A chain is no longer than the table has clusters. */
  lemma ChainShort(fat: seq<nat>, s: seq<nat>)
    requires IsChain(fat, s)
    ensures |s| <= |fat| - 2
  {
    DistinctMembers(s);
    assert InTable(fat, s[0]);
    var all := Numbers(|fat|);
    NumbersAre(|fat|);
    assert Members(s) <= all;
    assert all == Members(s) + (all - Members(s));
  }

  lemma ChainSingle(fat: seq<nat>, s: seq<nat>)
    requires |fat| <= 0xFFF7 && IsChain(fat, s)
    ensures |s| == 1 <==> IsEoc(fat[s[0]])
  {
    if |s| > 1 {
      assert InTable(fat, s[1]);
    }
  }

  /** A table determines the chain that starts at a cluster. */
  lemma {:induction false} ChainUnique(fat: seq<nat>, s: seq<nat>, t: seq<nat>)
    requires |fat| <= 0xFFF7 && IsChain(fat, s) && IsChain(fat, t) && s[0] == t[0]
    ensures s == t
    decreases |s|
  {
    ChainSingle(fat, s);
    ChainSingle(fat, t);
    if |s| > 1 {
      assert s[1] == t[1];
      ChainUnique(fat, s[1..], t[1..]);
      assert s == [s[0]] + s[1..] && t == [t[0]] + t[1..];
    }
  }

  /** Releasing a proper chain clears its clusters and nothing else. */
  lemma {:induction false} ReleasedChain(fat: seq<nat>, s: seq<nat>)
    requires 2 <= |fat| <= 0xFFF7 && LinksInRange(fat) && IsChain(fat, s)
    ensures forall x :: 0 <= x < |fat| ==> Released(fat, s[0])[x] == if x in s then FREE else fat[x]
    decreases |s|
  {
    var fat' := fat[s[0] := FREE];
    if |s| > 1 {
      var t := s[1..];
      ChainCut(fat, s);
      ReleasedChain(fat', t);
      hide IsChain, LinksInRange;
      assert s == [s[0]] + t;
    }
  }

  /** Without its first cluster a chain still is one, also after that cluster has been freed. */
  lemma ChainCut(fat: seq<nat>, s: seq<nat>)
    requires 2 <= |fat| <= 0xFFF7 && IsChain(fat, s) && |s| > 1
    ensures InTable(fat, s[0]) && fat[s[0]] == s[1] && Continues(s[0]) && Continues(s[1])
    ensures IsChain(fat[s[0] := FREE], s[1..])
  {
    var t := s[1..];
    assert forall i :: 0 <= i < |t| ==> t[i] == s[i + 1];
  }

  /** Releasing a chain frees as many clusters as it had. */
  lemma {:induction false} CountReleased(fat: seq<nat>, s: seq<nat>)
    requires 2 <= |fat| <= 0xFFF7 && LinksInRange(fat) && IsChain(fat, s)
    ensures CountFree(Released(fat, s[0]), 2) == CountFree(fat, 2) + |s|
    decreases |s|
  {
    var fat' := fat[s[0] := FREE];
    LinkOfMember(fat, s, s[0]);
    CountUpdate(fat, 2, s[0], FREE);
    if |s| > 1 {
      ChainCut(fat, s);
      CountReleased(fat', s[1..]);
    } else {
      assert !Continues(fat[s[0]]);
    }
  }

  /** The table after `c` has been allocated and hung behind the chain `s`. */
  function Extended(fat: seq<nat>, s: seq<nat>, c: nat): (r: seq<nat>)
    requires c < |fat| && (forall x :: x in s ==> x < |fat|)
    ensures |r| == |fat|
  {
    var a := fat[c := EOC];
    if s == [] then a else assert s[|s| - 1] in s; a[s[|s| - 1] := c]
  }

  lemma ExtendChain(fat: seq<nat>, s: seq<nat>, c: nat)
    requires 2 <= |fat| <= 0xFFF7 && (s == [] || IsChain(fat, s)) && InTable(fat, c) && fat[c] == FREE
    ensures c !in s && IsChain(Extended(fat, s, c), s + [c])
    ensures CountFree(Extended(fat, s, c), 2) == CountFree(fat, 2) - 1
    ensures forall x :: 0 <= x < |fat| && x !in s + [c] ==> Extended(fat, s, c)[x] == fat[x]
  {
    forall i | 0 <= i < |s| ensures fat[s[i]] != FREE {
      if i < |s| - 1 {
        assert fat[s[i]] == s[i + 1];
      }
    }
    CountUpdate(fat, 2, c, EOC);
    var a := fat[c := EOC];
    if s != [] {
      CountUpdate(a, 2, s[|s| - 1], c);
      var t, r := s + [c], Extended(fat, s, c);
      forall i | 0 <= i < |t| - 1 ensures r[t[i]] == t[i + 1] {
      }
    }
  }

  ghost function FreeClusters(fat: seq<nat>): set<nat> {
    set c | 2 <= c < |fat| && fat[c] == FREE
  }

  /** `fat` is `base` plus one new chain `s` built from its free clusters. */
  predicate Built(base: seq<nat>, fat: seq<nat>, s: seq<nat>) {
    && TableOk(base) && TableOk(fat) && |fat| == |base| && LinksInRange(fat)
    && (s == [] || IsChain(fat, s))
    && (forall c :: c in s ==> InTable(base, c) && base[c] == FREE)
    && (forall c :: 0 <= c < |base| && c !in s ==> fat[c] == base[c])
    && CountFree(fat, 2) + |s| == CountFree(base, 2)
  }

  lemma BuiltFacts(base: seq<nat>, fat: seq<nat>, s: seq<nat>)
    requires Built(base, fat, s)
    ensures LinksInRange(fat) && CountFree(fat, 2) + |s| == CountFree(base, 2)
    ensures forall c :: c in s ==> c in FreeClusters(base)
    ensures s == [] ==> fat == base
    ensures s != [] ==> s[0] != 0
  {
    hide CountFree;
    if s != [] { assert s[0] in s; }
  }

  lemma BuiltExtend(base: seq<nat>, fat: seq<nat>, s: seq<nat>, c: nat)
    requires Built(base, fat, s) && InTable(fat, c) && fat[c] == FREE
    ensures c !in s && forall x :: x in s ==> x < |fat|
    ensures Built(base, Extended(fat, s, c), s + [c])
  {
    hide CountFree, IsChain;
    ExtendChain(fat, s, c);
    var r := Extended(fat, s, c);
    assert forall x :: x in s + [c] <==> x in s || x == c;
    assert s != [] ==> s[|s| - 1] in s;
  }

  /** Releasing a half-built chain restores the table it was built on. */
  lemma BuiltUndo(base: seq<nat>, fat: seq<nat>, s: seq<nat>)
    requires Built(base, fat, s) && s != []
    ensures Continues(s[0]) && s[0] < |fat| && Released(fat, s[0]) == base
  {
    hide CountFree, Released;
    ReleasedChain(fat, s);
    assert s[0] in s;
  }

  // ---- the chains of a volume -----------------------------------------------

  predicate Owns(chains: map<nat, seq<nat>>, h: nat, c: nat) {
    h in chains && c in chains[h]
  }

  /** Every chain is in range, acyclic, end-marked and keyed by its first cluster. */
  ghost predicate AllChains(fat: seq<nat>, chains: map<nat, seq<nat>>) {
    forall h :: h in chains ==> IsChain(fat, chains[h]) && chains[h][0] == h
  }

  ghost predicate Disjoint(chains: map<nat, seq<nat>>) {
    forall h, k, c :: Owns(chains, h, c) && Owns(chains, k, c) ==> h == k
  }

  ghost predicate Covered(fat: seq<nat>, chains: map<nat, seq<nat>>) {
    forall c :: 2 <= c < |fat| && fat[c] != FREE ==> exists h :: Owns(chains, h, c)
  }

  /** The chains of a volume partition its non-free clusters. */
  ghost predicate ChainsOk(fat: seq<nat>, chains: map<nat, seq<nat>>) {
    TableOk(fat) && AllChains(fat, chains) && Disjoint(chains) && Covered(fat, chains)
  }

  lemma LinkOfMember(fat: seq<nat>, s: seq<nat>, c: nat)
    requires |fat| <= 0xFFF7 && IsChain(fat, s) && c in s
    ensures InTable(fat, c) && fat[c] != FREE && (InTable(fat, fat[c]) || IsEoc(fat[c]))
  {
    var i :| 0 <= i < |s| && s[i] == c;
    if i < |s| - 1 {
      assert fat[s[i]] == s[i + 1];
    }
  }

  lemma ChainsLinksInRange(fat: seq<nat>, chains: map<nat, seq<nat>>)
    requires ChainsOk(fat, chains)
    ensures LinksInRange(fat)
  {
    forall c | 2 <= c < |fat| && Continues(fat[c]) ensures fat[c] < |fat| {
      var h :| Owns(chains, h, c);
      LinkOfMember(fat, chains[h], c);
    }
  }

  lemma ChainTransfer(fat: seq<nat>, fat': seq<nat>, s: seq<nat>)
    requires |fat'| == |fat| <= 0xFFF7 && IsChain(fat, s)
    requires forall c :: c in s && c < |fat| ==> fat'[c] == fat[c]
    ensures IsChain(fat', s)
  {
    forall i | 0 <= i < |s| ensures fat'[s[i]] == fat[s[i]] {
      assert s[i] in s;
    }
  }

  lemma FreeNotOwned(fat: seq<nat>, chains: map<nat, seq<nat>>, s: seq<nat>, h: nat)
    requires |fat| <= 0xFFF7 && AllChains(fat, chains) && h in chains
    requires forall c :: c in s ==> InTable(fat, c) && fat[c] == FREE
    ensures forall c :: c in s ==> c !in chains[h]
    ensures h !in s
  {
    forall c | c in chains[h] ensures c !in s {
      LinkOfMember(fat, chains[h], c);
    }
    assert chains[h][0] in chains[h];
  }

  /** A chain built from free clusters joins the volume. */
  lemma AddChain(fat: seq<nat>, chains: map<nat, seq<nat>>, fat': seq<nat>, s: seq<nat>)
    requires ChainsOk(fat, chains) && TableOk(fat') && |fat'| == |fat| && IsChain(fat', s)
    requires forall c :: c in s ==> InTable(fat, c) && fat[c] == FREE
    requires forall c :: 0 <= c < |fat| && c !in s ==> fat'[c] == fat[c]
    ensures s[0] !in chains && ChainsOk(fat', chains[s[0] := s])
  {
    hide IsChain;
    var chains' := chains[s[0] := s];
    assert s[0] in s;
    assert s[0] !in chains by {
      if s[0] in chains { FreeNotOwned(fat, chains, s, s[0]); }
    }
    assert AllChains(fat', chains') by {
      forall h | h in chains ensures IsChain(fat', chains[h]) {
        FreeNotOwned(fat, chains, s, h);
        ChainTransfer(fat, fat', chains[h]);
      }
    }
    forall h, k, c | Owns(chains', h, c) && Owns(chains', k, c) ensures h == k {
      if h != s[0] && k != s[0] {
        assert Owns(chains, h, c) && Owns(chains, k, c);
      } else if h != s[0] {
        FreeNotOwned(fat, chains, s, h);
      } else if k != s[0] {
        FreeNotOwned(fat, chains, s, k);
      }
    }
    forall c | 2 <= c < |fat'| && fat'[c] != FREE ensures exists h :: Owns(chains', h, c) {
      if c in s {
        assert Owns(chains', s[0], c);
      } else {
        var h :| Owns(chains, h, c);
        assert Owns(chains', h, c);
      }
    }
  }

  /** Releasing the chain of `h` removes exactly that chain from the volume. */
  lemma DropChain(fat: seq<nat>, chains: map<nat, seq<nat>>, h: nat)
    requires ChainsOk(fat, chains) && h in chains
    ensures LinksInRange(fat) && Continues(h) && h < |fat|
    ensures ChainsOk(Released(fat, h), chains - {h})
    ensures forall c :: 0 <= c < |fat| ==> Released(fat, h)[c] == if c in chains[h] then FREE else fat[c]
  {
    hide IsChain, Released;
    ChainsLinksInRange(fat, chains);
    var s := chains[h];
    LinkOfMember(fat, s, s[0]);
    ReleasedChain(fat, s);
    var fat', chains' := Released(fat, h), chains - {h};
    assert AllChains(fat', chains') by {
      forall k | k in chains' ensures IsChain(fat', chains[k]) {
        forall c | c in chains[k] ensures c !in s {
          assert Owns(chains, k, c) && (c in s ==> Owns(chains, h, c));
        }
        ChainTransfer(fat, fat', chains[k]);
      }
    }
    forall k, l, c | Owns(chains', k, c) && Owns(chains', l, c) ensures k == l {
      assert Owns(chains, k, c) && Owns(chains, l, c);
    }
    forall c | 2 <= c < |fat'| && fat'[c] != FREE ensures exists k :: Owns(chains', k, c) {
      var k :| Owns(chains, k, c);
      assert Owns(chains', k, c);
    }
  }
}
