/** User address spaces: one page directory and one page table, over frames of the pool. */
module Paging {
  import opened Options
  import opened Bytes
  import opened Frames

  const USER_BASE: nat := 0x4000_0000
  const USER_PDE: nat := 256
  const WINDOW: nat := 0x40_0000
  const STACK_PAGES: nat := 4
  const IMAGE_PAGES: nat := 1020
  const USER_IMAGE_MAX: nat := WINDOW - STACK_PAGES * 4096

  // ---- words of a frame -------------------------------------------------------------------

  function Word(f: Frame, k: nat): (v: nat)
    requires k < 1024
    ensures v < 0x1_0000_0000
  {
    Rd32(f, 4 * k)
  }

  function SetWord(f: Frame, k: nat, v: nat): Frame
    requires k < 1024 && v < 0x1_0000_0000
  {
    Splice(f, 4 * k, Le32(v))
  }

  lemma WordAfterSet(f: Frame, k: nat, v: nat, j: nat)
    requires k < 1024 && j < 1024 && v < 0x1_0000_0000
    ensures Word(SetWord(f, k, v), j) == if j == k then v else Word(f, j)
  {
    hide Le32, Splice;
    var r, e := SetWord(f, k, v), Le32(v);
    if j == k {
      assert r[4 * j] == e[0] && r[4 * j + 1] == e[1] && r[4 * j + 2] == e[2] && r[4 * j + 3] == e[3];
    } else {
      assert r[4 * j] == f[4 * j] && r[4 * j + 1] == f[4 * j + 1];
      assert r[4 * j + 2] == f[4 * j + 2] && r[4 * j + 3] == f[4 * j + 3];
    }
  }

  lemma ZeroWord(k: nat)
    requires k < 1024
    ensures Word(ZERO_FRAME, k) == 0
  {
  }

  /** Page table and directory entry for frame `i`: address, user, writable, present. */
  function PteOf(base: nat, i: nat): nat { base + 4096 * i + 7 }

  predicate Present(v: nat) { v % 2 == 1 }
  predicate WriteBit(v: nat) { v / 2 % 2 == 1 }
  predicate UserBit(v: nat) { v / 4 % 2 == 1 }
  predicate LargeBit(v: nat) { v / 128 % 2 == 1 }
  function PageAddr(v: nat): nat { v / 4096 * 4096 }

  lemma PteParts(base: nat, i: nat)
    requires base % 4096 == 0
    ensures Present(PteOf(base, i)) && UserBit(PteOf(base, i)) && !LargeBit(PteOf(base, i)) && WriteBit(PteOf(base, i))
    ensures PageAddr(PteOf(base, i)) == base + 4096 * i
  {
    PteBits(base / 4096 + i);
  }

  lemma PteBits(q: nat)
    ensures Present(4096 * q + 7) && UserBit(4096 * q + 7) && !LargeBit(4096 * q + 7) && WriteBit(4096 * q + 7)
    ensures PageAddr(4096 * q + 7) == 4096 * q
  {
    PteShifts(q, 4096 * q + 7);
    PteParity(q);
  }

  lemma PteParity(q: nat)
    ensures (4096 * q + 7) % 2 == 1 && (2048 * q + 3) % 2 == 1 && (1024 * q + 1) % 2 == 1 && 32 * q % 2 == 0
  {
    TwoParts(2048 * q + 3);
    TwoParts(1024 * q + 1);
    TwoParts(512 * q);
    TwoParts(16 * q);
  }

  lemma TwoParts(k: nat)
    ensures (2 * k + 1) % 2 == 1 && 2 * k % 2 == 0
  {
  }

  lemma PteShifts(q: nat, v: nat)
    requires v == 4096 * q + 7
    ensures v / 2 == 2048 * q + 3 && v / 4 == 1024 * q + 1 && v / 128 == 32 * q && v / 4096 == q
  {
  }

  /** Entry `k` of the kernel directory: 64 supervisor-only 4 MiB pages, then nothing. */
  function KernelPde(k: nat): nat {
    if k < 64 then k * 0x40_0000 + 0x83 else 0
  }

  predicate KernelDir(f: Frame) { forall k :: 0 <= k < 1024 ==> Word(f, k) == KernelPde(k) }

  // ---- address spaces ------------------------------------------------------------------------

  /** Directory frame, table frame, and the frame behind each mapped page of the window. */
  datatype Space = Space(pd: nat, pt: nat, leaves: map<nat, nat>)

  ghost function FramesOf(sp: Space): set<nat> { {sp.pd, sp.pt} + sp.leaves.Values }

  ghost predicate Shape(sp: Space, count: nat) {
    && sp.pd < count && sp.pt < count && sp.pd != sp.pt
    && (forall p :: p in sp.leaves ==>
          p < 1024 && sp.leaves[p] < count && sp.leaves[p] != sp.pd && sp.leaves[p] != sp.pt)
    && (forall p, q :: p in sp.leaves && q in sp.leaves && p != q ==> sp.leaves[p] != sp.leaves[q])
  }

  ghost predicate DirRep(mem: seq<Frame>, base: nat, kdir: nat, sp: Space)
    requires sp.pd < |mem| && kdir < |mem|
  {
    forall k :: 0 <= k < 1024 ==>
      Word(mem[sp.pd], k) == if k == USER_PDE then PteOf(base, sp.pt) else Word(mem[kdir], k)
  }

  ghost predicate TableRep(f: Frame, base: nat, leaves: map<nat, nat>) {
    forall k :: 0 <= k < 1024 ==> Word(f, k) == if k in leaves then PteOf(base, leaves[k]) else 0
  }

  /** The frames hold the directory and table that describe `sp`. */
  ghost predicate SpaceRep(mem: seq<Frame>, base: nat, kdir: nat, sp: Space) {
    && Shape(sp, |mem|) && kdir < |mem| && kdir !in FramesOf(sp)
    && DirRep(mem, base, kdir, sp) && TableRep(mem[sp.pt], base, sp.leaves)
  }

  /** The frames of `s` hold the same bytes. */
  ghost predicate Kept(mem: seq<Frame>, mem': seq<Frame>, s: set<nat>) {
    |mem'| == |mem| && forall i :: i in s && i < |mem| ==> mem'[i] == mem[i]
  }

  /** A space is untouched when its frames and the kernel directory are. */
  lemma SpaceFrame(mem: seq<Frame>, mem': seq<Frame>, base: nat, kdir: nat, sp: Space, s: set<nat>)
    requires SpaceRep(mem, base, kdir, sp) && Kept(mem, mem', s) && sp.pd in s && sp.pt in s && kdir in s
    ensures SpaceRep(mem', base, kdir, sp)
  {
  }

  // ---- what a user program can reach -----------------------------------------------------------

  /** What an address is mapped to, and who may use the mapping how: both levels must agree. */
  datatype Mapping = Mapping(phys: nat, user: bool, writable: bool)

  /** The x86 two-level walk over directory frame `pd`, with 4 MiB pages. */
  function Translate(mem: seq<Frame>, base: nat, pd: nat, va: nat): Option<Mapping>
    requires pd < |mem| && va < 0x1_0000_0000 && 0 < base
  {
    var e := Word(mem[pd], va / 0x40_0000);
    if !Present(e) then None
    else if LargeBit(e) then Some(Mapping(e / 0x40_0000 * 0x40_0000 + va % 0x40_0000, UserBit(e), WriteBit(e)))
    else if PageAddr(e) < base || (PageAddr(e) - base) / 4096 >= |mem| then None
    else
      var q := Word(mem[(PageAddr(e) - base) / 4096], va / 4096 % 1024);
      if !Present(q) then None
      else Some(Mapping(PageAddr(q) + va % 4096, UserBit(e) && UserBit(q), WriteBit(e) && WriteBit(q)))
  }

  /** The address a user program reads at `va`. */
  function UserWalk(mem: seq<Frame>, base: nat, pd: nat, va: nat): Option<nat>
    requires pd < |mem| && va < 0x1_0000_0000 && 0 < base
  {
    match Translate(mem, base, pd, va)
    case Some(m) => if m.user then Some(m.phys) else None
    case None => None
  }

  /** The identity map of the kernel: 256 MiB, for the supervisor only, writable. */
  function Identity(va: nat): Option<Mapping> {
    if va < 0x1000_0000 then Some(Mapping(va, false, true)) else None
  }

  lemma LargeEntry(k: nat)
    requires k < 64
    ensures var v := k * 0x40_0000 + 0x83;
      Present(v) && WriteBit(v) && !UserBit(v) && LargeBit(v) && v / 0x40_0000 == k
  {
    var v := k * 0x40_0000 + 0x83;
    assert v / 2 == k * 0x20_0000 + 0x41 && v / 4 == k * 0x10_0000 + 0x20;
    assert v / 128 == k * 0x8000 + 1;
  }

  /** A directory entry of the kernel maps its 4 MiB to themselves, or nothing. */
  lemma KernelEntry(mem: seq<Frame>, base: nat, pd: nat, va: nat)
    requires pd < |mem| && va < 0x1_0000_0000 && 0 < base
    requires Word(mem[pd], va / 0x40_0000) == KernelPde(va / 0x40_0000)
    ensures Translate(mem, base, pd, va) == Identity(va)
  {
    hide Word;
    var k := va / 0x40_0000;
    if k < 64 {
      LargeEntry(k);
      assert va == k * 0x40_0000 + va % 0x40_0000;
    }
  }

  /** The kernel directory is the identity map, and nothing else. */
  lemma KernelTranslate(mem: seq<Frame>, base: nat, kdir: nat, va: nat)
    requires kdir < |mem| && KernelDir(mem[kdir]) && va < 0x1_0000_0000 && 0 < base
    ensures Translate(mem, base, kdir, va) == Identity(va)
  {
    hide Translate, Word;
    assert va / 0x40_0000 < 1024;
    KernelEntry(mem, base, kdir, va);
  }

  /**
   * Every address through a user directory: the identity map for the supervisor,
   * the mapped pages of the window for the program, both writable, and nothing else.
   */
  lemma SpaceTranslate(mem: seq<Frame>, base: nat, kdir: nat, sp: Space, va: nat)
    requires SpaceRep(mem, base, kdir, sp) && KernelDir(mem[kdir]) && 0 < base && base % 4096 == 0 && va < 0x1_0000_0000
    ensures Translate(mem, base, sp.pd, va) ==
      if USER_BASE <= va < USER_BASE + WINDOW then
        var p := (va - USER_BASE) / 4096;
        if p in sp.leaves then Some(Mapping(base + 4096 * sp.leaves[p] + va % 4096, true, true)) else None
      else Identity(va)
  {
    hide Word, Translate, KernelPde, Identity, TableRep;
    var k := va / 0x40_0000;
    if k != USER_PDE {
      assert Word(mem[sp.pd], k) == Word(mem[kdir], k) == KernelPde(k);
      KernelEntry(mem, base, sp.pd, va);
    } else {
      WindowTranslate(mem, base, kdir, sp, va);
    }
  }

  lemma WindowTranslate(mem: seq<Frame>, base: nat, kdir: nat, sp: Space, va: nat)
    requires SpaceRep(mem, base, kdir, sp) && 0 < base && base % 4096 == 0 && USER_BASE <= va < USER_BASE + WINDOW
    ensures var p := (va - USER_BASE) / 4096;
      Translate(mem, base, sp.pd, va) ==
      if p in sp.leaves then Some(Mapping(base + 4096 * sp.leaves[p] + va % 4096, true, true)) else None
  {
    hide Word, PteOf, Present, UserBit, WriteBit, LargeBit, PageAddr;
    var p := (va - USER_BASE) / 4096;
    assert va / 0x40_0000 == USER_PDE && va / 4096 % 1024 == p;
    PteParts(base, sp.pt);
    assert (base + 4096 * sp.pt - base) / 4096 == sp.pt;
    NotPresent();
    if p in sp.leaves { PteParts(base, sp.leaves[p]); }
  }

  lemma NotPresent()
    ensures !Present(0)
  {
  }

  /**
   * With user rights a directory reaches exactly the mapped pages of its own
   * 4 MiB window, each through its own leaf frame.
   */
  lemma UserReach(mem: seq<Frame>, base: nat, kdir: nat, sp: Space, va: nat)
    requires SpaceRep(mem, base, kdir, sp) && KernelDir(mem[kdir]) && 0 < base && base % 4096 == 0 && va < 0x1_0000_0000
    ensures UserWalk(mem, base, sp.pd, va) ==
      if USER_BASE <= va < USER_BASE + WINDOW && (va - USER_BASE) / 4096 in sp.leaves
      then Some(base + 4096 * sp.leaves[(va - USER_BASE) / 4096] + va % 4096) else None
    ensures UserWalk(mem, base, sp.pd, va).Some? ==> Translate(mem, base, sp.pd, va).value.writable
  {
    hide Translate, DirRep, TableRep, KernelDir;
    SpaceTranslate(mem, base, kdir, sp, va);
  }

  /** Two addresses reach the same byte only within one space and at one address. */
  lemma ReachInjective(mem: seq<Frame>, base: nat, kdir: nat, sp: Space, va: nat, va': nat)
    requires SpaceRep(mem, base, kdir, sp) && KernelDir(mem[kdir]) && 0 < base && base % 4096 == 0
    requires va < 0x1_0000_0000 && va' < 0x1_0000_0000 && va != va'
    requires UserWalk(mem, base, sp.pd, va).Some? && UserWalk(mem, base, sp.pd, va').Some?
    ensures UserWalk(mem, base, sp.pd, va) != UserWalk(mem, base, sp.pd, va')
  {
    hide UserWalk, DirRep, TableRep, KernelDir;
    UserReach(mem, base, kdir, sp, va);
    UserReach(mem, base, kdir, sp, va');
    var p, p' := (va - USER_BASE) / 4096, (va' - USER_BASE) / 4096;
    PageSplit(va);
    PageSplit(va');
    assert p != p' ==> sp.leaves[p] != sp.leaves[p'];
    OffsetsApart(sp.leaves[p], va % 4096, sp.leaves[p'], va' % 4096);
  }

  lemma PageSplit(va: nat)
    requires USER_BASE <= va
    ensures va == USER_BASE + 4096 * ((va - USER_BASE) / 4096) + va % 4096
  {
  }

  lemma OffsetsApart(a: nat, r: nat, a': nat, r': nat)
    requires r < 4096 && r' < 4096 && (a != a' || r != r')
    ensures 4096 * a + r != 4096 * a' + r'
  {
  }

  /** Only a page of the space itself is within reach: no page table, no kernel frame. */
  lemma Isolation(mem: seq<Frame>, base: nat, kdir: nat, sp: Space, va: nat)
    requires SpaceRep(mem, base, kdir, sp) && KernelDir(mem[kdir]) && 0 < base && base % 4096 == 0 && va < 0x1_0000_0000
    requires UserWalk(mem, base, sp.pd, va).Some?
    ensures var phys := UserWalk(mem, base, sp.pd, va).value;
      && base <= phys && var i := FrameAt(base, phys);
         i in FramesOf(sp) && i < |mem| && i != sp.pd && i != sp.pt && i != kdir
  {
    hide UserWalk, DirRep, TableRep, KernelDir;
    UserReach(mem, base, kdir, sp, va);
    var p := (va - USER_BASE) / 4096;
    var phys := base + 4096 * sp.leaves[p] + va % 4096;
    assert (phys - base) / 4096 == sp.leaves[p];
    assert sp.leaves[p] in sp.leaves.Values;
  }

  // ---- building and tearing down spaces ------------------------------------------------------------

  /** Index of the frame at a physical address of the pool. */
  function FrameAt(base: nat, phys: nat): nat
    requires base <= phys
  {
    (phys - base) / 4096
  }

  /** paging_init: the kernel directory, in the first frame allocated. */
  method PagingInit(pool: FramePool) returns (kdir: nat, ghost k: nat)
    requires pool.Valid() && |pool.Used()| < pool.count
    modifies pool`freeFrames, pool`mem, pool.bitmap
    ensures pool.Valid() && k < pool.count && k !in old(pool.Used()) && kdir == pool.Addr(k)
    ensures pool.Used() == old(pool.Used()) + {k} && KernelDir(pool.mem[k])
    ensures forall va: nat :: va < 0x1_0000_0000 ==> Translate(pool.mem, pool.base, k, va) == Identity(va)
    ensures Kept(old(pool.mem), pool.mem, old(pool.Used()))
  {
    kdir, k := pool.Alloc();
    var i := 0;
    ghost var start := pool.mem;
    forall j | 0 <= j < 1024 ensures Word(pool.mem[k], j) == 0 { ZeroWord(j); }
    while i < 64
      invariant 0 <= i <= 64 && pool.Valid() && pool.Used() == old(pool.Used()) + {k}
      invariant |pool.mem| == |start| && forall j :: 0 <= j < |start| && j != k ==> pool.mem[j] == start[j]
      invariant forall j :: 0 <= j < 1024 ==> Word(pool.mem[k], j) == if j < i then KernelPde(j) else 0
    {
      StoreWord(pool, kdir, i, i * 0x40_0000 + 0x83, k);
      i := i + 1;
    }
    assert KernelDir(pool.mem[k]);
    forall va: nat | va < 0x1_0000_0000 ensures Translate(pool.mem, pool.base, k, va) == Identity(va) {
      KernelTranslate(pool.mem, pool.base, k, va);
    }
  }

  /** A word store through the identity mapping. */
  method StoreWord(pool: FramePool, phys: nat, k: nat, v: nat, ghost f: nat)
    requires pool.Valid() && f < pool.count && phys == pool.Addr(f) && k < 1024 && v < 0x1_0000_0000
    modifies pool`mem
    ensures pool.Valid() && pool.Used() == old(pool.Used())
    ensures pool.mem == old(pool.mem)[f := SetWord(old(pool.mem)[f], k, v)]
    ensures forall j :: 0 <= j < 1024 ==> Word(pool.mem[f], j) == if j == k then v else Word(old(pool.mem)[f], j)
  {
    hide SetWord, Word;
    var i := FrameAt(pool.base, phys);
    assert i == f;
    forall j | 0 <= j < 1024 ensures Word(SetWord(pool.mem[f], k, v), j) == if j == k then v else Word(pool.mem[f], j) {
      WordAfterSet(pool.mem[f], k, v, j);
    }
    pool.mem := pool.mem[i := SetWord(pool.mem[i], k, v)];
  }

  method LoadWord(pool: FramePool, phys: nat, k: nat, ghost f: nat) returns (v: nat)
    requires pool.Valid() && f < pool.count && phys == pool.Addr(f) && k < 1024
    ensures v == Word(pool.mem[f], k)
  {
    v := Word(pool.mem[FrameAt(pool.base, phys)], k);
  }

  /** Frames of the leaves at pages below `i`. */
  ghost function LeavesBelow(leaves: map<nat, nat>, i: nat): set<nat> {
    set p | p in leaves && p < i :: leaves[p]
  }

  lemma TableWord(mem: seq<Frame>, base: nat, kdir: nat, sp: Space, i: nat)
    requires SpaceRep(mem, base, kdir, sp) && base % 4096 == 0 && i < 1024
    ensures sp.pt < |mem| && sp.pd < |mem| && (Present(Word(mem[sp.pt], i)) <==> i in sp.leaves)
    ensures i in sp.leaves ==> PageAddr(Word(mem[sp.pt], i)) == base + 4096 * sp.leaves[i] && sp.leaves[i] < |mem|
    ensures i in sp.leaves ==> FrameAt(base, PageAddr(Word(mem[sp.pt], i))) == sp.leaves[i]
  {
    if i in sp.leaves { PteParts(base, sp.leaves[i]); }
  }

  lemma DirWord(mem: seq<Frame>, base: nat, kdir: nat, sp: Space)
    requires SpaceRep(mem, base, kdir, sp) && base % 4096 == 0
    ensures sp.pt < |mem| && sp.pd < |mem| && Present(Word(mem[sp.pd], USER_PDE))
    ensures PageAddr(Word(mem[sp.pd], USER_PDE)) == base + 4096 * sp.pt
  {
    PteParts(base, sp.pt);
  }

  /** The loop of free_user_pages over the page table. */
  method FreeLeaves(pool: FramePool, pt: nat, ghost kdir: nat, ghost sp: Space)
    requires pool.Valid() && SpaceRep(pool.mem, pool.base, kdir, sp) && pt == pool.Addr(sp.pt)
    modifies pool`freeFrames, pool.bitmap
    ensures pool.Valid() && pool.Used() == old(pool.Used()) - sp.leaves.Values
  {
    hide Word, UsedIn, SpaceRep, Present, PageAddr, LeavesBelow, FrameAt, FramePool.Used;
    ghost var used := pool.Used();
    var i := 0;
    LeavesStep(sp.leaves, 0);
    while i < 1024
      invariant 0 <= i <= 1024 && pool.Valid() && pool.Used() == used - LeavesBelow(sp.leaves, i)
    {
      LeavesStep(sp.leaves, i);
      LessTwice(used, LeavesBelow(sp.leaves, i), if i in sp.leaves then {sp.leaves[i]} else {});
      FreeLeaf(pool, pt, i, kdir, sp);
      i := i + 1;
    }
    LeavesAll(pool.mem, pool.base, kdir, sp);
  }

  lemma LessTwice(s: set<nat>, a: set<nat>, b: set<nat>)
    ensures (s - a) - b == s - (a + b)
  {
  }

  /** One entry of the page table. */
  method FreeLeaf(pool: FramePool, pt: nat, i: nat, ghost kdir: nat, ghost sp: Space)
    requires pool.Valid() && SpaceRep(pool.mem, pool.base, kdir, sp) && pt == pool.Addr(sp.pt) && i < 1024
    modifies pool`freeFrames, pool.bitmap
    ensures pool.Valid() && pool.Used() == old(pool.Used()) - (if i in sp.leaves then {sp.leaves[i]} else {})
  {
    hide Word, UsedIn, SpaceRep, Present, PageAddr, FrameAt;
    TableWord(pool.mem, pool.base, kdir, sp, i);
    var v := LoadWord(pool, pt, i, sp.pt);
    if Present(v) {
      FreeFrame(pool, PageAddr(v), sp.leaves[i]);
    }
  }

  method FreeFrame(pool: FramePool, phys: nat, ghost f: nat)
    requires pool.Valid() && phys == pool.Addr(f)
    modifies pool`freeFrames, pool.bitmap
    ensures pool.Valid() && pool.Used() == old(pool.Used()) - {f}
  {
    hide UsedIn;
    assert (phys - pool.base) / 4096 == f;
    pool.Free(phys);
  }

  /** free_user_pages: gives back every frame of the space and no other. */
  method FreeUserPages(pool: FramePool, pgdir: nat, ghost kdir: nat, ghost sp: Space)
    requires pool.Valid() && SpaceRep(pool.mem, pool.base, kdir, sp) && pgdir == pool.Addr(sp.pd)
    modifies pool`freeFrames, pool.bitmap
    ensures pool.Valid() && pool.Used() == old(pool.Used()) - FramesOf(sp)
  {
    hide Word, UsedIn, SpaceRep, Present, PageAddr, FramesOf, FramePool.Used;
    DirWord(pool.mem, pool.base, kdir, sp);
    LessFrames(pool.Used(), sp);
    var e := LoadWord(pool, pgdir, USER_PDE, sp.pd);
    if Present(e) {
      FreeLeaves(pool, PageAddr(e), kdir, sp);
      FreeFrame(pool, PageAddr(e), sp.pt);
    }
    FreeFrame(pool, pgdir, sp.pd);
  }

  lemma LessFrames(s: set<nat>, sp: Space)
    ensures ((s - sp.leaves.Values) - {sp.pt}) - {sp.pd} == s - FramesOf(sp)
  {
  }

  lemma LeavesStep(leaves: map<nat, nat>, i: nat)
    ensures LeavesBelow(leaves, 0) == {}
    ensures LeavesBelow(leaves, i + 1) == LeavesBelow(leaves, i) + (if i in leaves then {leaves[i]} else {})
  {
  }

  lemma LeavesAll(mem: seq<Frame>, base: nat, kdir: nat, sp: Space)
    requires SpaceRep(mem, base, kdir, sp)
    ensures LeavesBelow(sp.leaves, 1024) == sp.leaves.Values
  {
  }

  // ---- mapping pages ------------------------------------------------------------------------------------

  /** The space with page `p` mapped to frame `f`. */
  function Mapped(sp: Space, p: nat, f: nat): Space { sp.(leaves := sp.leaves[p := f]) }

  /** A zeroed frame `i` has been added to the space; besides it only the table `pt` was written. */
  ghost predicate PageAdded(mem: seq<Frame>, used: set<nat>, mem': seq<Frame>, used': set<nat>, pt: nat, i: nat) {
    && i < |mem| && i !in used && used' == used + {i} && |mem'| == |mem| && mem'[i] == ZERO_FRAME
    && Kept(mem, mem', used - {pt})
  }

  /** Allocates a frame for page `p` of a space that does not have it yet, and enters it in the table. */
  method MapPage(pool: FramePool, pt: nat, p: nat, ghost kdir: nat, ghost sp: Space)
    returns (f: nat, ghost sp': Space, ghost i: nat)
    requires pool.Valid() && SpaceRep(pool.mem, pool.base, kdir, sp) && FramesOf(sp) <= pool.Used()
    requires kdir in pool.Used()
    requires pt == pool.Addr(sp.pt) && p < 1024 && p !in sp.leaves
    modifies pool`freeFrames, pool`mem, pool.bitmap
    ensures pool.Valid() && SpaceRep(pool.mem, pool.base, kdir, sp')
    ensures f == 0 ==> sp' == sp && pool.Used() == old(pool.Used()) && pool.mem == old(pool.mem)
    ensures f == 0 ==> pool.freeFrames == 0
    ensures f != 0 ==> f == pool.Addr(i) && sp' == Mapped(sp, p, i)
    ensures f != 0 ==> PageAdded(old(pool.mem), old(pool.Used()), pool.mem, pool.Used(), sp.pt, i)
    ensures f != 0 ==> pool.freeFrames == old(pool.freeFrames) - 1
  {
    hide Word, UsedIn, SpaceRep, SetWord, PageAdded, FramesOf, Mapped;
    sp' := sp;
    ShapeOf(pool.mem, pool.base, kdir, sp);
    TablesIn(sp, pool.Used());
    f, i := pool.Alloc();
    if f != 0 {
      ghost var mem0 := old(pool.mem);
      StoreWord(pool, pt, p, f + 7, sp.pt);
      sp' := Mapped(sp, p, i);
      MapAll(mem0, pool.mem, pool.base, kdir, sp, p, i, old(pool.Used()));
    }
  }

  lemma ShapeOf(mem: seq<Frame>, base: nat, kdir: nat, sp: Space)
    requires SpaceRep(mem, base, kdir, sp)
    ensures Shape(sp, |mem|) && sp.pd < |mem| && sp.pt < |mem| && sp.pd != sp.pt
  {
  }

  lemma TablesIn(sp: Space, used: set<nat>)
    requires FramesOf(sp) <= used
    ensures sp.pd in used && sp.pt in used
  {
  }

  lemma MapAll(mem: seq<Frame>, mem': seq<Frame>, base: nat, kdir: nat, sp: Space, p: nat, i: nat, used: set<nat>)
    requires SpaceRep(mem, base, kdir, sp) && p < 1024 && p !in sp.leaves && i < |mem| && i !in used
    requires FramesOf(sp) <= used && kdir in used && PteOf(base, i) < 0x1_0000_0000
    requires sp.pt < |mem| && mem' == mem[i := ZERO_FRAME][sp.pt := SetWord(mem[sp.pt], p, PteOf(base, i))]
    ensures SpaceRep(mem', base, kdir, Mapped(sp, p, i)) && PageAdded(mem, used, mem', used + {i}, sp.pt, i)
  {
    hide Word, SetWord, DirRep, TableRep;
    TableAfterMap(base, sp, mem, p, i);
    MapRep(mem, mem', base, kdir, sp, p, i);
  }

  lemma TableAfterMap(base: nat, sp: Space, mem: seq<Frame>, p: nat, i: nat)
    requires sp.pt < |mem| && TableRep(mem[sp.pt], base, sp.leaves) && p < 1024 && PteOf(base, i) < 0x1_0000_0000
    ensures TableRep(SetWord(mem[sp.pt], p, PteOf(base, i)), base, sp.leaves[p := i])
  {
    hide Word, SetWord;
    forall k | 0 <= k < 1024
      ensures Word(SetWord(mem[sp.pt], p, PteOf(base, i)), k) == if k == p then PteOf(base, i) else Word(mem[sp.pt], k)
    {
      WordAfterSet(mem[sp.pt], p, PteOf(base, i), k);
    }
  }

  lemma MapRep(mem: seq<Frame>, mem': seq<Frame>, base: nat, kdir: nat, sp: Space, p: nat, i: nat)
    requires SpaceRep(mem, base, kdir, sp) && p < 1024 && p !in sp.leaves && i < |mem| && i !in FramesOf(sp)
    requires i != kdir
    requires |mem'| == |mem| && mem'[sp.pd] == mem[sp.pd] && mem'[kdir] == mem[kdir]
    requires TableRep(mem'[sp.pt], base, sp.leaves[p := i])
    ensures SpaceRep(mem', base, kdir, Mapped(sp, p, i))
    ensures FramesOf(Mapped(sp, p, i)) == FramesOf(sp) + {i}
  {
    hide TableRep;
    var sp' := Mapped(sp, p, i);
    forall q | q in sp.leaves ensures sp.leaves[q] in sp.leaves.Values {}
    assert sp'.leaves.Values == sp.leaves.Values + {i} by {
      forall v | v in sp.leaves.Values ensures v in sp'.leaves.Values {
        var q :| q in sp.leaves && sp.leaves[q] == v;
        assert sp'.leaves[q] == v;
      }
      assert sp'.leaves[p] == i;
    }
  }

  /** A directory copied from the kernel's, with the window's entry filled in. */
  lemma FreshSpace(mem: seq<Frame>, base: nat, kdir: nat, pd: nat, pt: nat)
    requires pd < |mem| && pt < |mem| && kdir < |mem| && pd != pt && kdir != pd && kdir != pt && mem[pt] == ZERO_FRAME
    requires forall k :: 0 <= k < 1024 ==>
      Word(mem[pd], k) == if k == USER_PDE then PteOf(base, pt) else Word(mem[kdir], k)
    ensures SpaceRep(mem, base, kdir, Space(pd, pt, map[]))
  {
    hide Word;
    forall k | 0 <= k < 1024 ensures Word(mem[pt], k) == 0 { ZeroWord(k); }
  }

  /** The mapped pages of a space are all zero. */
  ghost predicate ZeroLeaves(mem: seq<Frame>, sp: Space) {
    forall p :: p in sp.leaves ==> sp.leaves[p] < |mem| && mem[sp.leaves[p]] == ZERO_FRAME
  }

  /** `sp` was built from frames that were free: the rest of the pool is as before. */
  ghost predicate Grown(mem: seq<Frame>, used: set<nat>, mem': seq<Frame>, used': set<nat>, sp: Space) {
    FramesOf(sp) !! used && used' == used + FramesOf(sp) && Kept(mem, mem', used)
  }

  /** A space owns two frames for its tables and one for each page. */
  lemma SpaceSize(sp: Space, count: nat)
    requires Shape(sp, count)
    ensures |FramesOf(sp)| == 2 + |sp.leaves|
  {
    ValuesSize(sp.leaves);
    forall v | v in sp.leaves.Values ensures v != sp.pd && v != sp.pt {
      var p :| p in sp.leaves && sp.leaves[p] == v;
    }
    assert FramesOf(sp) == sp.leaves.Values + {sp.pd} + {sp.pt};
  }

  lemma {:induction false} ValuesSize(m: map<nat, nat>)
    requires forall p, q :: p in m && q in m && p != q ==> m[p] != m[q]
    ensures |m.Values| == |m|
    decreases |m|
  {
    if |m| > 0 {
      var p :| p in m;
      var r := m - {p};
      assert r.Keys == m.Keys - {p};
      ValuesSize(r);
      forall v | v in m.Values ensures v in r.Values + {m[p]} {
        var q :| q in m && m[q] == v;
        assert q != p ==> q in r && r[q] == v;
      }
      assert m.Values == r.Values + {m[p]};
    }
  }

  /** With no frame left, the space has taken all that were free. */
  lemma TookAll(mem: seq<Frame>, used: set<nat>, mem': seq<Frame>, used': set<nat>, sp: Space, count: nat)
    requires Grown(mem, used, mem', used', sp) && Shape(sp, count)
    ensures |used'| == |used| + 2 + |sp.leaves|
  {
    SpaceSize(sp, count);
  }

  /** memcpy of one whole frame. */
  method CopyFrame(pool: FramePool, dst: nat, src: nat, ghost i: nat, ghost k: nat)
    requires pool.Valid() && i < pool.count && k < pool.count && dst == pool.Addr(i) && src == pool.Addr(k)
    modifies pool`mem
    ensures pool.Valid() && pool.Used() == old(pool.Used()) && pool.mem == old(pool.mem)[i := old(pool.mem)[k]]
  {
    assert FrameAt(pool.base, dst) == i && FrameAt(pool.base, src) == k;
    pool.mem := pool.mem[FrameAt(pool.base, dst) := pool.mem[FrameAt(pool.base, src)]];
  }

  /** The directory and table of paging_new_user, before any stack page. */
  method NewTables(pool: FramePool, kdir: nat, ghost kd: nat) returns (pgdir: nat, pt: nat, ghost sp: Space)
    requires pool.Valid() && kd in pool.Used() && kdir == pool.Addr(kd) && kd < pool.count
    modifies pool`freeFrames, pool`mem, pool.bitmap
    ensures pool.Valid()
    ensures pgdir == 0 ==> pool.Used() == old(pool.Used()) && Kept(old(pool.mem), pool.mem, old(pool.Used()))
    ensures if pgdir == 0 then old(pool.freeFrames) < 2 else pool.freeFrames == old(pool.freeFrames) - 2
    ensures pgdir != 0 ==> SpaceRep(pool.mem, pool.base, kd, sp) && sp.leaves == map[]
    ensures pgdir != 0 ==> pgdir == pool.Addr(sp.pd) && pt == pool.Addr(sp.pt)
    ensures pgdir != 0 ==> Grown(old(pool.mem), old(pool.Used()), pool.mem, pool.Used(), sp)
  {
    hide Word, UsedIn, SetWord, SpaceRep, FrameAt, Kept, Grown;
    ghost var used, mem0 := pool.Used(), pool.mem;
    ghost var i, j;
    sp := Space(0, 0, map[]);
    pt := 0;
    pgdir, i := pool.Alloc();
    if pgdir == 0 {
      KeptRefl(mem0, used);
      return;
    }
    CopyFrame(pool, pgdir, kdir, i, kd);
    KeptBut(mem0, pool.mem, used, i);
    pt, j := pool.Alloc();
    if pt == 0 {
      FreeFrame(pool, pgdir, i);
      return 0, 0, sp;
    }
    StoreWord(pool, pgdir, USER_PDE, pt + 7, i);
    sp := Space(i, j, map[]);
    FreshSpace(pool.mem, pool.base, kd, i, j);
    GrownTables(mem0, used, pool.mem, pool.Used(), sp);
  }

  lemma KeptRefl(mem: seq<Frame>, s: set<nat>)
    ensures Kept(mem, mem, s)
  {
  }

  lemma KeptBut(mem: seq<Frame>, mem': seq<Frame>, s: set<nat>, i: nat)
    requires |mem'| == |mem| && i !in s && forall k :: 0 <= k < |mem| && k != i ==> mem'[k] == mem[k]
    ensures Kept(mem, mem', s)
  {
  }

  lemma GrownTables(mem: seq<Frame>, used: set<nat>, mem': seq<Frame>, used': set<nat>, sp: Space)
    requires sp.leaves == map[] && sp.pd !in used && sp.pt !in used && used' == used + {sp.pd} + {sp.pt}
    requires |mem'| == |mem| && forall k :: 0 <= k < |mem| && k != sp.pd && k != sp.pt ==> mem'[k] == mem[k]
    ensures Grown(mem, used, mem', used', sp)
  {
    assert FramesOf(sp) == {sp.pd, sp.pt};
  }

  lemma GrownUndo(mem: seq<Frame>, used: set<nat>, mem': seq<Frame>, used': set<nat>, sp: Space)
    requires Grown(mem, used, mem', used', sp)
    ensures used' - FramesOf(sp) == used && Kept(mem, mem', used) && FramesOf(sp) <= used' && used <= used'
  {
  }

  /** paging_new_user: a space with its four stack pages, or nothing and every frame given back. */
  method NewUser(pool: FramePool, kdir: nat, ghost kd: nat) returns (pgdir: nat, ghost sp: Space)
    requires pool.Valid() && kd in pool.Used() && kdir == pool.Addr(kd) && kd < pool.count
    modifies pool`freeFrames, pool`mem, pool.bitmap
    ensures pool.Valid()
    ensures pgdir == 0 <==> old(pool.freeFrames) < 2 + STACK_PAGES
    ensures pgdir == 0 ==> pool.Used() == old(pool.Used()) && Kept(old(pool.mem), pool.mem, old(pool.Used()))
    ensures pgdir != 0 ==> pgdir == pool.Addr(sp.pd) && SpaceRep(pool.mem, pool.base, kd, sp)
    ensures pgdir != 0 ==> Grown(old(pool.mem), old(pool.Used()), pool.mem, pool.Used(), sp)
    ensures pgdir != 0 ==> ZeroLeaves(pool.mem, sp) && forall p :: p in sp.leaves <==> IMAGE_PAGES <= p < 1024
  {
    hide Word, UsedIn, SpaceRep, Kept, Grown, ZeroLeaves, PageAdded, FramesOf;
    ghost var used, mem0 := pool.Used(), pool.mem;
    var pt;
    pgdir, pt, sp := NewTables(pool, kdir, kd);
    if pgdir == 0 {
      return;
    }
    ZeroNone(pool.mem, pool.base, kd, sp);
    var i := 1024 - STACK_PAGES;
    while i < 1024
      invariant IMAGE_PAGES <= i <= 1024 && pool.Valid() && SpaceRep(pool.mem, pool.base, kd, sp)
      invariant pgdir == pool.Addr(sp.pd) && pt == pool.Addr(sp.pt)
      invariant Grown(mem0, used, pool.mem, pool.Used(), sp) && ZeroLeaves(pool.mem, sp)
      invariant forall p :: p in sp.leaves <==> IMAGE_PAGES <= p < i
      invariant 0 <= pool.freeFrames == old(pool.freeFrames) - 2 - (i - IMAGE_PAGES)
    {
      ghost var before, m1, u1 := sp, pool.mem, pool.Used();
      GrownUndo(mem0, used, m1, u1, sp);
      var f;
      ghost var k;
      f, sp, k := MapPage(pool, pt, i, kd, sp);
      if f == 0 {
        FreeUserPages(pool, pgdir, kd, sp);
        return 0, sp;
      }
      GrownStep(mem0, used, m1, u1, pool.mem, pool.Used(), pool.base, kd, before, i, k);
      i := i + 1;
    }
  }

  lemma ZeroNone(mem: seq<Frame>, base: nat, kdir: nat, sp: Space)
    requires SpaceRep(mem, base, kdir, sp) && sp.leaves == map[]
    ensures ZeroLeaves(mem, sp)
  {
  }

  lemma GrownStep(mem0: seq<Frame>, used0: set<nat>, mem: seq<Frame>, used: set<nat>, mem': seq<Frame>, used': set<nat>,
                  base: nat, kdir: nat, sp: Space, p: nat, i: nat)
    requires SpaceRep(mem, base, kdir, sp) && SpaceRep(mem', base, kdir, Mapped(sp, p, i)) && p !in sp.leaves
    requires Grown(mem0, used0, mem, used, sp) && PageAdded(mem, used, mem', used', sp.pt, i)
    ensures Grown(mem0, used0, mem', used', Mapped(sp, p, i))
    ensures ZeroLeaves(mem, sp) ==> ZeroLeaves(mem', Mapped(sp, p, i))
  {
    hide DirRep, TableRep;
    MappedFrames(sp, p, i);
    assert sp.pt in FramesOf(sp);
    forall q | q in sp.leaves ensures sp.leaves[q] in FramesOf(sp) {}
  }

  lemma MappedFrames(sp: Space, p: nat, i: nat)
    requires p !in sp.leaves
    ensures FramesOf(Mapped(sp, p, i)) == FramesOf(sp) + {i}
  {
    var sp' := Mapped(sp, p, i);
    forall v | v in sp.leaves.Values ensures v in sp'.leaves.Values {
      var q :| q in sp.leaves && sp.leaves[q] == v;
      assert sp'.leaves[q] == v;
    }
    assert sp'.leaves[p] == i;
  }

  /** The page of the window that holds `va`. */
  function PageOf(va: nat): nat
    requires USER_BASE <= va
  {
    (va - USER_BASE) / 4096
  }

  predicate InImage(va: nat) { USER_BASE <= va < USER_BASE + USER_IMAGE_MAX }

  /** paging_user_page: the frame behind `va`, mapped zeroed if need be; 0 outside the image area or without a frame. */
  method UserPage(pool: FramePool, pgdir: nat, va: nat, ghost kdir: nat, ghost sp: Space)
    returns (phys: nat, ghost sp': Space)
    requires pool.Valid() && SpaceRep(pool.mem, pool.base, kdir, sp) && FramesOf(sp) <= pool.Used()
    requires kdir in pool.Used()
    requires pgdir == pool.Addr(sp.pd)
    modifies pool`freeFrames, pool`mem, pool.bitmap
    ensures pool.Valid() && SpaceRep(pool.mem, pool.base, kdir, sp')
    ensures phys == 0 ==> sp' == sp && pool.Used() == old(pool.Used()) && pool.mem == old(pool.mem)
    ensures phys == 0 ==> !InImage(va) || (pool.freeFrames == 0 && PageOf(va) !in sp.leaves)
    ensures phys != 0 ==> InImage(va) && PageOf(va) in sp'.leaves && phys == pool.Addr(sp'.leaves[PageOf(va)])
    ensures phys != 0 && PageOf(va) in sp.leaves ==>
      sp' == sp && pool.Used() == old(pool.Used()) && pool.mem == old(pool.mem)
    ensures phys != 0 && PageOf(va) !in sp.leaves ==>
      var i := sp'.leaves[PageOf(va)];
      sp' == Mapped(sp, PageOf(va), i) && PageAdded(old(pool.mem), old(pool.Used()), pool.mem, pool.Used(), sp.pt, i)
  {
    hide Word, UsedIn, SpaceRep, Present, PageAddr, PageAdded;
    sp' := sp;
    if va < USER_BASE || va >= USER_BASE + USER_IMAGE_MAX {
      return 0, sp;
    }
    DirWord(pool.mem, pool.base, kdir, sp);
    var e := LoadWord(pool, pgdir, USER_PDE, sp.pd);
    var pt := PageAddr(e);
    var p := (va - USER_BASE) / 4096;
    TableWord(pool.mem, pool.base, kdir, sp, p);
    var v := LoadWord(pool, pt, p, sp.pt);
    if !Present(v) {
      ghost var i;
      phys, sp', i := MapPage(pool, pt, p, kdir, sp);
      if phys == 0 {
        return;
      }
      TableWord(pool.mem, pool.base, kdir, sp', p);
    }
    v := LoadWord(pool, pt, p, sp.pt);
    phys := PageAddr(v);
  }
}
