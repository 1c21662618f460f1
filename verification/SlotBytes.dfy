/** The descriptor table as bytes: abs_path stores into a slot before it compares lengths, and where that ends. */
module SlotBytes {
  import opened Options
  import opened Bytes
  import opened Names
  import opened Paths
  import opened CwdText
  import opened AbsPath
  import opened Files

  const TABLE_SIZE: nat := MAX_FILES * SLOT_SIZE
  const BEHIND: nat := 20             // how far a store that begins in the last slot can pass the table

  function Word(x: int): nat { x % DWORD }

  /** A path in its zeroed buffer. */
  function PathField(p: Text): (r: seq<Byte>)
    ensures |r| == PATH_MAX
  {
    if |p| < PATH_MAX then p + Zeros(PATH_MAX - |p|) else p[..PATH_MAX]
  }

  /** The 120 bytes of a slot: used, pid, mode, path, buf, size, pos. */
  function Encode(s: Slot): (r: seq<Byte>)
    ensures |r| == SLOT_SIZE
  {
    Le32(if s.used then 1 else 0) + Le32(Word(s.pid)) + Le32(Word(s.mode)) + PathField(s.path)
    + Le32(Word(s.ptr)) + Le32(Word(s.size)) + Le32(Word(s.pos))
  }

  predicate Memory(m: seq<Byte>) { |m| >= TABLE_SIZE + BEHIND }

  function UsedWord(m: seq<Byte>, i: nat): nat
    requires Memory(m) && i < MAX_FILES
  {
    Rd32(m, SLOT_SIZE * i)
  }

  function PidWord(m: seq<Byte>, i: nat): nat
    requires Memory(m) && i < MAX_FILES
  {
    Rd32(m, SLOT_SIZE * i + 4)
  }

  predicate SlotIs(m: seq<Byte>, i: nat, s: seq<Byte>)
    requires Memory(m) && i < MAX_FILES && |s| == SLOT_SIZE
  {
    forall k :: 0 <= k < SLOT_SIZE ==> m[SLOT_SIZE * i + k] == s[k]
  }

  /** Slot `i` of the memory is `s`; of an unused slot only that matters. */
  predicate SlotTabled(m: seq<Byte>, i: nat, s: Slot)
    requires Memory(m) && i < MAX_FILES
  {
    UsedWord(m, i) == (if s.used then 1 else 0) && (s.used ==> SlotIs(m, i, Encode(s)))
  }

  predicate Tabled(m: seq<Byte>, slots: seq<Slot>)
    requires Memory(m)
  {
    |slots| == MAX_FILES && forall i :: 0 <= i < MAX_FILES ==> SlotTabled(m, i, slots[i])
  }

  // ---- the stores of file_open before the file is looked up -------------------------------------

  /** What abs_path stores into the path buffer: the prefix in any case, the path if it fits. */
  function PathStore(cwd: Text, path: Text): Text {
    Prefix(cwd, path) + if AbsOf(cwd, path).Some? then path + [0] else []
  }

  function Prepared(m: seq<Byte>, slot: nat, cwd: Text, path: Text): (r: seq<Byte>)
    requires Memory(m) && slot < MAX_FILES && |cwd| <= 127
    ensures |r| == |m|
  {
    Splice(Splice(m, SLOT_SIZE * slot, Zeros(SLOT_SIZE)), SLOT_SIZE * slot + PATH_AT, PathStore(cwd, path))
  }

  /** The memset of file_open. */
  method ClearBytes(m: array<Byte>, slot: nat)
    requires Memory(m[..]) && slot < MAX_FILES
    modifies m
    ensures m[..] == Splice(old(m[..]), SLOT_SIZE * slot, Zeros(SLOT_SIZE))
  {
    var i := 0;
    while i < SLOT_SIZE
      invariant 0 <= i <= SLOT_SIZE
      invariant forall k :: 0 <= k < m.Length ==>
        m[k] == if SLOT_SIZE * slot <= k < SLOT_SIZE * slot + i then 0 else old(m[k])
    {
      m[SLOT_SIZE * slot + i] := 0;
      i := i + 1;
    }
  }

  /** memcpy of `src` to `m[at..]`. */
  method CopyBytes(m: array<Byte>, at: nat, src: seq<Byte>)
    requires at + |src| <= m.Length
    modifies m
    ensures m[..] == Splice(old(m[..]), at, src)
  {
    var i := 0;
    while i < |src|
      invariant 0 <= i <= |src|
      invariant forall k :: 0 <= k < m.Length ==> m[k] == if at <= k < at + i then src[k - at] else old(m[k])
    {
      m[at + i] := src[i];
      i := i + 1;
    }
  }

  lemma SpliceJoin(m: seq<Byte>, at: nat, a: seq<Byte>, b: seq<Byte>)
    requires at + |a| + |b| <= |m|
    ensures Splice(Splice(m, at, a), at + |a|, b) == Splice(m, at, a + b)
  {
    hide Splice;
  }

  /** The first stores of abs_path: the text of the current directory and a slash, in front of a relative path. */
  method StorePrefix(m: array<Byte>, out: nat, cwd: Text, path: Text) returns (n: nat)
    requires out + 128 <= m.Length && |cwd| <= 127
    modifies m
    ensures n == |Prefix(cwd, path)| && m[..] == Splice(old(m[..]), out, Prefix(cwd, path))
  {
    hide Splice;
    ghost var m0 := m[..];
    n := 0;
    if path != [] && path[0] == SLASH {
      SpliceNone(m0, out);
      return;
    }
    n := |cwd|;
    CopyBytes(m, out, cwd);
    if n > 1 {
      CopyBytes(m, out + n, [SLASH]);
      SpliceJoin(m0, out, cwd, [SLASH]);
      n := n + 1;
    }
  }

  lemma SpliceNone(m: seq<Byte>, at: nat)
    requires at <= |m|
    ensures Splice(m, at, []) == m
  {
  }

  /** abs_path into the buffer at `out`. */
  method StorePath(m: array<Byte>, out: nat, cwd: Text, path: Text) returns (rc: int)
    requires out + 128 <= m.Length && |cwd| <= 127
    modifies m
    ensures (rc == 0 || rc == -1) && (rc == 0 <==> AbsOf(cwd, path).Some?)
    ensures m[..] == Splice(old(m[..]), out, PathStore(cwd, path))
  {
    hide Splice, Prefix;
    ghost var m0, p := m[..], Prefix(cwd, path);
    var n := StorePrefix(m, out, cwd, path);
    assert p + [] == p;
    if n + |path| + 1 > PATH_MAX {
      return -1;
    }
    CopyBytes(m, out + n, path + [0]);
    SpliceJoin(m0, out, p, path + [0]);
    return 0;
  }

  /** file_open up to and including abs_path, on the bytes of the table. */
  method Prepare(m: array<Byte>, slot: nat, cwd: Text, path: Text) returns (rc: int)
    requires Memory(m[..]) && slot < MAX_FILES && |cwd| <= 127
    modifies m
    ensures (rc == 0 || rc == -1) && (rc == 0 <==> AbsOf(cwd, path).Some?)
    ensures m[..] == Prepared(old(m[..]), slot, cwd, path)
  {
    hide Splice, PathStore, AbsOf;
    ClearBytes(m, slot);
    rc := StorePath(m, SLOT_SIZE * slot + PATH_AT, cwd, path);
  }

  // ---- where they end -------------------------------------------------------------------------------

  /** A byte after the stores. */
  lemma PreparedAt(m: seq<Byte>, slot: nat, cwd: Text, path: Text, k: nat)
    requires Memory(m) && slot < MAX_FILES && |cwd| <= 127 && k < |m|
    ensures var at, s := SLOT_SIZE * slot, PathStore(cwd, path);
      Prepared(m, slot, cwd, path)[k] ==
      if at + PATH_AT <= k < at + PATH_AT + |s| then s[k - at - PATH_AT]
      else if at <= k < at + SLOT_SIZE then 0 else m[k]
  {
    hide PathStore;
  }

  /** The stores end inside the slot exactly when they are Contained; otherwise text reaches the next one. */
  lemma StoreLength(cwd: Text, path: Text)
    requires 1 <= |cwd| <= 127 && PathOk(cwd)
    ensures |PathStore(cwd, path)| <= 128
    ensures |PathStore(cwd, path)| <= SLOT_SIZE - PATH_AT <==> Contained(cwd, path)
    ensures !Contained(cwd, path) ==> |PathStore(cwd, path)| == |cwd| + 1
    ensures !Contained(cwd, path) ==> forall k :: 0 <= k <= |cwd| ==> PathStore(cwd, path)[k] >= 32
  {
  }

  ghost predicate SameOutside(m: seq<Byte>, m': seq<Byte>, slot: nat)
    requires |m| == |m'|
  {
    forall k :: 0 <= k < |m| && !(SLOT_SIZE * slot <= k < SLOT_SIZE * (slot + 1)) ==> m'[k] == m[k]
  }

  /** No byte outside the slot changes if and only if the path is absolute or the text has fewer than 108 bytes. */
  lemma StoresContained(m: seq<Byte>, slot: nat, cwd: Text, path: Text)
    requires Memory(m) && slot < MAX_FILES && 1 <= |cwd| <= 127 && PathOk(cwd) && m[SLOT_SIZE * (slot + 1)] < 32
    ensures SameOutside(m, Prepared(m, slot, cwd, path), slot) <==> Contained(cwd, path)
  {
    hide PathStore, Prepared, Contained;
    StoreLength(cwd, path);
    if Contained(cwd, path) {
      forall k | 0 <= k < |m| && !(SLOT_SIZE * slot <= k < SLOT_SIZE * (slot + 1))
        ensures Prepared(m, slot, cwd, path)[k] == m[k]
      {
        PreparedAt(m, slot, cwd, path, k);
      }
    } else {
      NextByte(m, slot, cwd, path, 0);
    }
  }

  /** Byte `k` behind the slot, when the stores get that far. */
  lemma NextByte(m: seq<Byte>, slot: nat, cwd: Text, path: Text, k: nat)
    requires Memory(m) && slot < MAX_FILES && 1 <= |cwd| <= 127 && PathOk(cwd)
    requires !Contained(cwd, path) && SLOT_SIZE - PATH_AT + k <= |cwd|
    ensures SLOT_SIZE * (slot + 1) + k < |m| && Prepared(m, slot, cwd, path)[SLOT_SIZE * (slot + 1) + k] >= 32
  {
    hide PathStore, Prepared;
    StoreLength(cwd, path);
    PreparedAt(m, slot, cwd, path, SLOT_SIZE * (slot + 1) + k);
  }

  lemma OtherSlot(m: seq<Byte>, slot: nat, cwd: Text, path: Text, i: nat, s: Slot)
    requires Memory(m) && slot < MAX_FILES && 1 <= |cwd| <= 127 && PathOk(cwd) && i < MAX_FILES && SlotTabled(m, i, s)
    requires if i == slot then !s.used else i < slot || Contained(cwd, path)
    ensures SlotTabled(Prepared(m, slot, cwd, path), i, s)
  {
    hide PathStore, Prepared, Contained, Encode;
    StoreLength(cwd, path);
    var m', at := Prepared(m, slot, cwd, path), SLOT_SIZE * i;
    forall k | at <= k < at + (if i == slot then 4 else SLOT_SIZE) ensures m'[k] == if i == slot then 0 else m[k] {
      PreparedAt(m, slot, cwd, path, k);
    }
    assert m'[at + 1] == (if i == slot then 0 else m[at + 1]) && m'[at + 2] == if i == slot then 0 else m[at + 2];
    if s.used {
      var e := Encode(s);
      forall k | 0 <= k < SLOT_SIZE ensures m'[at + k] == e[k] {}
    }
  }

  /**
   * The descriptor table is as it was after the stores of an open, in particular
   * of one that is then refused, if and only if they are Contained (or the slot is
   * the last, where they pass the end of the table).
   */
  lemma OpenSpares(m: seq<Byte>, slots: seq<Slot>, slot: nat, cwd: Text, path: Text)
    requires Memory(m) && Tabled(m, slots) && slot < MAX_FILES && !slots[slot].used
    requires 1 <= |cwd| <= 127 && PathOk(cwd)
    ensures Tabled(Prepared(m, slot, cwd, path), slots) <==> Contained(cwd, path) || slot == MAX_FILES - 1
  {
    hide PathStore, Prepared, Contained, SlotTabled;
    if Contained(cwd, path) || slot == MAX_FILES - 1 {
      forall i | 0 <= i < MAX_FILES ensures SlotTabled(Prepared(m, slot, cwd, path), i, slots[i]) {
        OtherSlot(m, slot, cwd, path, i, slots[i]);
      }
    } else {
      NextTaken(m, slots, slot, cwd, path);
    }
  }

  /** Otherwise the next slot counts as used, whoever had it, and from 115 bytes on it is nobody's. */
  lemma NextTaken(m: seq<Byte>, slots: seq<Slot>, slot: nat, cwd: Text, path: Text)
    requires Memory(m) && slot < MAX_FILES - 1 && 1 <= |cwd| <= 127 && PathOk(cwd) && !Contained(cwd, path)
    ensures UsedWord(Prepared(m, slot, cwd, path), slot + 1) > 1
    ensures |slots| == MAX_FILES ==> !SlotTabled(Prepared(m, slot, cwd, path), slot + 1, slots[slot + 1])
    ensures |cwd| >= 115 ==> PidWord(Prepared(m, slot, cwd, path), slot + 1) >= 0x2020_2020
  {
    hide Prepared;
    NextByte(m, slot, cwd, path, 0);
    if |cwd| >= 115 {
      var m', at := Prepared(m, slot, cwd, path), SLOT_SIZE * (slot + 1);
      forall k | at + 4 <= k < at + 8 ensures m'[k] >= 32 {
        NextByte(m, slot, cwd, path, k - at);
      }
      WordAbove(m', at + 4);
    }
  }

  lemma WordAbove(m: seq<Byte>, at: nat)
    requires at + 4 <= |m| && forall k :: at <= k < at + 4 ==> m[k] >= 32
    ensures Rd32(m, at) >= 0x2020_2020
  {
    assert m[at] >= 32 && m[at + 1] >= 32 && m[at + 2] >= 32 && m[at + 3] >= 32;
  }

  /** An accepted path is in its buffer, in a slot that is otherwise zero. */
  lemma PathStored(m: seq<Byte>, slot: nat, cwd: Text, path: Text)
    requires Memory(m) && slot < MAX_FILES && |cwd| <= 127 && AbsOf(cwd, path).Some?
    ensures SlotIs(Prepared(m, slot, cwd, path), slot, Encode(UNUSED.(path := AbsOf(cwd, path).value)))
  {
    hide Prepared, Encode, PathStore, AbsOf;
    var full := AbsOf(cwd, path).value;
    var e := Encode(UNUSED.(path := full));
    PathStoreIs(cwd, path);
    forall k | 0 <= k < SLOT_SIZE ensures Prepared(m, slot, cwd, path)[SLOT_SIZE * slot + k] == e[k] {
      PreparedAt(m, slot, cwd, path, SLOT_SIZE * slot + k);
      EncodeUnused(full, k);
    }
  }

  lemma PathStoreIs(cwd: Text, path: Text)
    requires AbsOf(cwd, path).Some?
    ensures |AbsOf(cwd, path).value| < PATH_MAX && PathStore(cwd, path) == AbsOf(cwd, path).value + [0]
  {
  }

  lemma EncodeUnused(full: Text, k: nat)
    requires |full| < PATH_MAX && k < SLOT_SIZE
    ensures Encode(UNUSED.(path := full))[k] == if PATH_AT <= k < PATH_AT + |full| then full[k - PATH_AT] else 0
  {
    hide Le32;
    ZeroWord();
  }

  lemma ZeroWord()
    ensures Le32(0) == [0, 0, 0, 0]
  {
  }

  /**
   * Nine nested directories give a text of 117 bytes. A relative open there is
   * refused, and the reader in the next slot is no longer its owner's.
   */
  lemma ReaderLost(m: seq<Byte>, slots: seq<Slot>, slot: nat, path: Text)
    requires Memory(m) && Tabled(m, slots) && slot < MAX_FILES - 1 && !slots[slot].used && !Absolute(path)
    requires slots[slot + 1].used && 0 <= slots[slot + 1].pid < 0x2020_2020
    ensures var cwd := TextOf(Deep(9));
      && |cwd| == 117 && AbsOf(cwd, path) == None && PidWord(m, slot + 1) == slots[slot + 1].pid
      && PidWord(Prepared(m, slot, cwd, path), slot + 1) != slots[slot + 1].pid
  {
    hide Prepared, TextOf;
    DeepText(9);
    TextPathOk(Deep(9));
    NextTaken(m, slots, slot, TextOf(Deep(9)), path);
    PidOf(m, slot + 1, slots[slot + 1]);
  }

  lemma PidOf(m: seq<Byte>, i: nat, s: Slot)
    requires Memory(m) && i < MAX_FILES && SlotTabled(m, i, s) && s.used && 0 <= s.pid < DWORD
    ensures PidWord(m, i) == s.pid
  {
    hide Le32;
    var e, w := Encode(s), Le32(Word(s.pid));
    assert e[4] == w[0] && e[5] == w[1] && e[6] == w[2] && e[7] == w[3];
    assert m[SLOT_SIZE * i + 4] == e[4] && m[SLOT_SIZE * i + 5] == e[5];
    assert m[SLOT_SIZE * i + 6] == e[6] && m[SLOT_SIZE * i + 7] == e[7];
  }
}
