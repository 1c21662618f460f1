/** The ELF loader: placing PT_LOAD segments page by page into a user space. */
module Elf {
  import opened Arith
  import opened Bytes
  import opened ElfFormat
  import opened Frames
  import opened Paging

  const EHDR: nat := 52
  const PHDR: nat := 32
  const PT_LOAD: nat := 1

  // ---- headers ------------------------------------------------------------------------------

  function PhOff(img: seq<Byte>): nat requires |img| >= EHDR { Rd32(img, 28) }
  function PhEntSize(img: seq<Byte>): nat requires |img| >= EHDR { Rd16(img, 42) }
  function PhNum(img: seq<Byte>): nat requires |img| >= EHDR { Rd16(img, 44) }
  function EntryPoint(img: seq<Byte>): nat requires |img| >= EHDR { Rd32(img, 24) }

  /** Magic, 32-bit, little-endian, executable, i386. */
  predicate IdentOk(img: seq<Byte>) {
    && |img| >= EHDR && img[0] == 0x7F && img[1] == 69 && img[2] == 76 && img[3] == 70
    && img[4] == 1 && img[5] == 1 && Rd16(img, 16) == 2 && Rd16(img, 18) == 3
  }

  /** The program header table lies inside the image. */
  predicate TableOk(img: seq<Byte>)
    requires |img| >= EHDR
  {
    PhEntSize(img) >= PHDR && PhNum(img) != 0 && PhOff(img) + Times(PhNum(img), PhEntSize(img)) <= |img|
  }

  datatype Phdr = Phdr(ptype: nat, offset: nat, vaddr: nat, filesz: nat, memsz: nat)

  function HeaderAt(img: seq<Byte>, i: nat): Phdr
    requires |img| >= EHDR && TableOk(img) && i < PhNum(img)
  {
    TimesOrder(i, PhNum(img), PhEntSize(img));
    var o := PhOff(img) + Times(i, PhEntSize(img));
    Phdr(Rd32(img, o), Rd32(img, o + 4), Rd32(img, o + 8), Rd32(img, o + 16), Rd32(img, o + 20))
  }

  /** The checks elf_load makes on a PT_LOAD header, with its 32-bit sums. */
  predicate Accepts(ph: Phdr, size: nat) {
    && ph.filesz <= ph.memsz && (ph.offset + ph.filesz) % DWORD <= size && ph.vaddr >= USER_BASE
    && (ph.vaddr + ph.memsz) % DWORD >= ph.vaddr && (ph.vaddr + ph.memsz) % DWORD <= USER_BASE + USER_IMAGE_MAX
  }

  /** The segment's file data is inside the image, and the segment inside the image area. */
  predicate SegOk(ph: Phdr, size: nat) {
    && ph.filesz <= ph.memsz && ph.offset + ph.filesz <= size
    && USER_BASE <= ph.vaddr && ph.vaddr + ph.memsz <= USER_BASE + USER_IMAGE_MAX
  }

  predicate Fields(ph: Phdr) { ph.offset < DWORD && ph.vaddr < DWORD && ph.filesz < DWORD && ph.memsz < DWORD }

  /** The checks admit every well-placed segment, and only those unless offset + filesz wraps around. */
  lemma AcceptsIs(ph: Phdr, size: nat)
    requires Fields(ph) && size < DWORD
    ensures SegOk(ph, size) ==> Accepts(ph, size)
    ensures Accepts(ph, size) ==> (SegOk(ph, size) <==> ph.offset + ph.filesz < DWORD)
  {
    var s := ph.vaddr + ph.memsz;
    assert s >= DWORD ==> s % DWORD == s - DWORD;
  }

  /** A header whose data would start at the end of memory passes the checks. */
  lemma AcceptsTooMuch()
    ensures var ph := Phdr(PT_LOAD, 0xFFFF_FFFF, USER_BASE, 2, 2); Fields(ph) && Accepts(ph, EHDR) && !SegOk(ph, EHDR)
  {
  }

  predicate IsLoad(img: seq<Byte>, i: nat)
    requires |img| >= EHDR && TableOk(img) && i < PhNum(img)
  {
    HeaderAt(img, i).ptype == PT_LOAD
  }

  /** The 32-bit sums of the table and of the headers that are loaded do not wrap around. */
  predicate NoWrap(img: seq<Byte>) {
    |img| < DWORD && (|img| >= EHDR ==>
      && PhOff(img) + Times(PhNum(img), PhEntSize(img)) < DWORD
      && (TableOk(img) ==> forall i :: 0 <= i < PhNum(img) && IsLoad(img, i) ==>
            HeaderAt(img, i).offset + HeaderAt(img, i).filesz < DWORD))
  }

  predicate Loadable(img: seq<Byte>) {
    && IdentOk(img) && TableOk(img)
    && (forall i :: 0 <= i < PhNum(img) && IsLoad(img, i) ==> SegOk(HeaderAt(img, i), |img|))
    && USER_BASE <= EntryPoint(img) < USER_BASE + USER_IMAGE_MAX
  }

  // ---- a file given by its records ----------------------------------------------------------------

  /** The file begins with the header `h`, and its program header table holds `ps`. */
  ghost predicate Encodes(img: seq<Byte>, h: FileHeader, ps: seq<ProgramHeader>) {
    && |img| >= 52 && FileHeaderOk(h) && img[..52] == FileHeaderBytes(h)
    && |ps| == h.phnum && h.phentsize >= 32 && h.phoff + h.phnum * h.phentsize <= |img|
    && forall i :: 0 <= i < |ps| ==> RecordAt(img, h.phoff + i * h.phentsize, ps[i])
  }

  predicate RecordAt(img: seq<Byte>, at: int, p: ProgramHeader) {
    ProgramHeaderOk(p) && 0 <= at && at + 32 <= |img| && img[at..at + 32] == ProgramHeaderBytes(p)
  }

  /** Class, byte order, type and machine the loader asks for. */
  predicate RightKind(h: FileHeader) {
    && |h.ident| == 16 && h.ident[..4] == [0x7F, 0x45, 0x4C, 0x46] && h.ident[4] == 1 && h.ident[5] == 1
    && h.ftype == 2 && h.machine == 3
  }

  /** A segment that is loaded: its data in the file, its memory between USER_BASE and the stack. */
  predicate WellPlaced(p: ProgramHeader, size: nat) {
    && p.filesz <= p.memsz && p.offset + p.filesz <= size
    && 0x4000_0000 <= p.vaddr && p.vaddr + p.memsz <= 0x403F_C000
  }

  ghost predicate Sensible(h: FileHeader, ps: seq<ProgramHeader>, size: nat) {
    && RightKind(h) && ps != [] && 0x4000_0000 <= h.entry < 0x403F_C000
    && forall i :: 0 <= i < |ps| && ps[i].ptype == 1 ==> WellPlaced(ps[i], size)
  }

  lemma FileHeaderRead(img: seq<Byte>, h: FileHeader)
    requires |img| >= 52 && FileHeaderOk(h) && img[..52] == FileHeaderBytes(h)
    ensures PhOff(img) == h.phoff && PhEntSize(img) == h.phentsize && PhNum(img) == h.phnum
    ensures EntryPoint(img) == h.entry
    ensures IdentOk(img) <==> RightKind(h)
  {
    hide FileHeaderBytes;
    var s := FileHeaderBytes(h);
    FileHeaderFields(h);
    assert forall k :: 0 <= k < 52 ==> img[k] == s[k];
    assert forall k :: 0 <= k < 16 ==> img[k] == h.ident[k];
    assert h.ident[..4] == [0x7F, 0x45, 0x4C, 0x46] <==>
      h.ident[0] == 0x7F && h.ident[1] == 0x45 && h.ident[2] == 0x4C && h.ident[3] == 0x46;
  }

  lemma RecordRead(img: seq<Byte>, at: nat, p: ProgramHeader)
    requires RecordAt(img, at, p)
    ensures Rd32(img, at) == p.ptype && Rd32(img, at + 4) == p.offset && Rd32(img, at + 8) == p.vaddr
    ensures Rd32(img, at + 16) == p.filesz && Rd32(img, at + 20) == p.memsz
  {
    hide ProgramHeaderBytes;
    var s := ProgramHeaderBytes(p);
    ProgramHeaderFields(p);
    assert forall k :: 0 <= k < 32 ==> img[at..at + 32][k] == s[k];
    assert forall k :: at <= k < at + 32 ==> img[k] == s[k - at];
  }

  /** The fields of a record that the loader uses. */
  function FieldsOf(p: ProgramHeader): Phdr { Phdr(p.ptype, p.offset, p.vaddr, p.filesz, p.memsz) }

  /** The loader reads the records. */
  lemma HeaderRead(img: seq<Byte>, h: FileHeader, ps: seq<ProgramHeader>, i: nat)
    requires Encodes(img, h, ps) && i < |ps|
    ensures TableOk(img) && PhNum(img) == |ps|
    ensures HeaderAt(img, i) == FieldsOf(ps[i])
  {
    hide FileHeaderBytes, IdentOk, RecordAt, Rd32;
    FileHeaderRead(img, h);
    TimesIsProduct(h.phnum, h.phentsize);
    TimesIsProduct(i, h.phentsize);
    RecordRead(img, h.phoff + i * h.phentsize, ps[i]);
  }

  /** What the loader takes, in terms of the records. */
  lemma LoadableGiven(img: seq<Byte>, h: FileHeader, ps: seq<ProgramHeader>)
    requires Encodes(img, h, ps)
    ensures Loadable(img) <==> Sensible(h, ps, |img|)
    ensures EntryPoint(img) == h.entry && PhNum(img) == |ps|
  {
    hide FileHeaderBytes, IdentOk, RecordAt, HeaderAt, RightKind;
    FileHeaderRead(img, h);
    TimesIsProduct(h.phnum, h.phentsize);
    if ps != [] {
      forall i | 0 <= i < |ps| ensures TableOk(img) && HeaderAt(img, i) == FieldsOf(ps[i]) {
        HeaderRead(img, h, ps, i);
      }
      if Sensible(h, ps, |img|) {
        forall i | 0 <= i < PhNum(img) && IsLoad(img, i) ensures SegOk(HeaderAt(img, i), |img|) {
          assert WellPlaced(ps[i], |img|);
        }
      }
      if Loadable(img) {
        forall i | 0 <= i < |ps| && ps[i].ptype == 1 ensures WellPlaced(ps[i], |img|) {
          assert IsLoad(img, i) && SegOk(HeaderAt(img, i), |img|);
        }
      }
    }
  }

  lemma LoadableAll(img: seq<Byte>)
    ensures forall h, ps :: Encodes(img, h, ps) ==>
      |img| >= EHDR && (Loadable(img) <==> Sensible(h, ps, |img|)) && EntryPoint(img) == h.entry
  {
    hide Sensible, Loadable, FileHeaderBytes, RecordAt;
    forall h, ps | Encodes(img, h, ps)
      ensures |img| >= EHDR && (Loadable(img) <==> Sensible(h, ps, |img|)) && EntryPoint(img) == h.entry
    {
      LoadableGiven(img, h, ps);
    }
  }

  /** Every file whose table lies inside it is given by records. */
  lemma SomeRecords(img: seq<Byte>) returns (h: FileHeader, ps: seq<ProgramHeader>)
    requires |img| >= EHDR && TableOk(img)
    ensures Encodes(img, h, ps)
  {
    hide FileHeaderBytes, ProgramHeaderBytes, Rd16, Rd32, RecordAt;
    h := SomeFileHeader(img[..52]);
    FileHeaderRead(img, h);
    TimesIsProduct(h.phnum, h.phentsize);
    ps := [];
    while |ps| < h.phnum
      invariant |ps| <= h.phnum && forall i :: 0 <= i < |ps| ==> RecordAt(img, h.phoff + i * h.phentsize, ps[i])
    {
      ProductOrder(|ps|, h.phnum, h.phentsize);
      var p := SomeRecord(img, h.phoff + |ps| * h.phentsize);
      ps := ps + [p];
    }
  }

  lemma SomeRecord(img: seq<Byte>, at: nat) returns (p: ProgramHeader)
    requires at + 32 <= |img|
    ensures RecordAt(img, at, p)
  {
    p := SomeProgramHeader(img[at..at + 32]);
  }

  // ---- the memory image the headers describe ------------------------------------------------------

  predicate InFile(ph: Phdr, va: nat) { ph.vaddr <= va < ph.vaddr + ph.filesz }

  /** Segments so far are well placed. */
  predicate SegsOk(img: seq<Byte>, n: nat) {
    |img| >= EHDR && TableOk(img) && n <= PhNum(img)
    && forall i :: 0 <= i < n && IsLoad(img, i) ==> SegOk(HeaderAt(img, i), |img|)
  }

  /** The byte at `va` after the first `n` headers: file data of the last segment covering it, or zero. */
  function ImageByte(img: seq<Byte>, n: nat, va: nat): Byte
    requires SegsOk(img, n)
  {
    if n == 0 then 0
    else if IsLoad(img, n - 1) && InFile(HeaderAt(img, n - 1), va)
    then img[HeaderAt(img, n - 1).offset + (va - HeaderAt(img, n - 1).vaddr)]
    else ImageByte(img, n - 1, va)
  }

  /** The record has data for address `va`. */
  predicate HasData(p: ProgramHeader, va: nat) { p.ptype == 1 && p.vaddr <= va < p.vaddr + p.filesz }

  /** `b` is the byte of the file it has there. */
  predicate Supplies(img: seq<Byte>, p: ProgramHeader, va: nat, b: Byte) {
    var k := p.offset + (va - p.vaddr);
    0 <= k < |img| && img[k] == b
  }

  /** Of the first `n` records, `i` is the last that has. */
  ghost predicate LastData(ps: seq<ProgramHeader>, n: nat, i: nat, va: nat)
    requires i < n <= |ps|
  {
    HasData(ps[i], va) && forall j :: i < j < n ==> !HasData(ps[j], va)
  }

  /** The image in terms of the records: the data of the last one that has any for the address, else zero. */
  lemma {:induction false} ImageGiven(img: seq<Byte>, h: FileHeader, ps: seq<ProgramHeader>, n: nat, va: nat)
    requires Encodes(img, h, ps) && SegsOk(img, n)
    ensures n <= |ps|
    ensures forall i :: 0 <= i < n && LastData(ps, n, i, va) ==> Supplies(img, ps[i], va, ImageByte(img, n, va))
    ensures (forall i :: 0 <= i < n ==> !HasData(ps[i], va)) ==> ImageByte(img, n, va) == 0
  {
    hide Encodes, ImageByte, HasData, SegsOk, LastData;
    SegsCount(img, h, ps, n);
    if n > 0 {
      ImageGiven(img, h, ps, n - 1, va);
      ImageStep(img, h, ps, n - 1, va);
      forall i | 0 <= i < n && LastData(ps, n, i, va)
        ensures Supplies(img, ps[i], va, ImageByte(img, n, va))
      {
        LastOf(ps, n - 1, i, va);
      }
    } else {
      ImageNone(img, va);
    }
  }

  /** The last record with data, one record further on. */
  lemma LastOf(ps: seq<ProgramHeader>, n: nat, i: nat, va: nat)
    requires i <= n < |ps| && LastData(ps, n + 1, i, va)
    ensures HasData(ps[n], va) ==> i == n
    ensures !HasData(ps[n], va) ==> i < n && LastData(ps, n, i, va)
  {
    hide HasData;
  }

  lemma SegsCount(img: seq<Byte>, h: FileHeader, ps: seq<ProgramHeader>, n: nat)
    requires Encodes(img, h, ps) && SegsOk(img, n)
    ensures n <= |ps| && (n > 0 ==> SegsOk(img, n - 1))
  {
    hide FileHeaderBytes, RecordAt, HeaderAt, TableOk;
    FileHeaderRead(img, h);
  }

  lemma ImageNone(img: seq<Byte>, va: nat)
    requires SegsOk(img, 0)
    ensures ImageByte(img, 0, va) == 0
  {
  }

  /** One more record. */
  lemma ImageStep(img: seq<Byte>, h: FileHeader, ps: seq<ProgramHeader>, n: nat, va: nat)
    requires Encodes(img, h, ps) && n < |ps| && SegsOk(img, n + 1) && SegsOk(img, n)
    ensures HasData(ps[n], va) ==> Supplies(img, ps[n], va, ImageByte(img, n + 1, va))
    ensures !HasData(ps[n], va) ==> ImageByte(img, n + 1, va) == ImageByte(img, n, va)
  {
    hide FileHeaderBytes, RecordAt, HeaderAt, TableOk;
    HeaderRead(img, h, ps, n);
    assert IsLoad(img, n) ==> SegOk(HeaderAt(img, n), |img|);
  }

  /** The loop of load_segment visits page `p` for this header. */
  predicate Touches(ph: Phdr, p: nat) {
    ph.vaddr / 4096 * 4096 <= USER_BASE + 4096 * p < ph.vaddr + ph.memsz
  }

  /**
   * That is every page with a byte of the segment's memory in it; a segment without
   * memory has one page if it does not begin at a page boundary, else none.
   */
  lemma TouchesIs(ph: Phdr, p: nat)
    requires USER_BASE <= ph.vaddr
    ensures ph.memsz > 0 ==>
      (Touches(ph, p) <==> exists va :: ph.vaddr <= va < ph.vaddr + ph.memsz && InPage(va, p))
    ensures ph.memsz == 0 ==> (Touches(ph, p) <==> InPage(ph.vaddr, p) && ph.vaddr % 4096 != 0)
  {
    var lo := USER_BASE + 4096 * p;
    if Touches(ph, p) && ph.memsz > 0 {
      assert InPage(if lo < ph.vaddr then ph.vaddr else lo, p);
    }
  }

  predicate InPage(va: nat, p: nat) { USER_BASE + 4096 * p <= va < USER_BASE + 4096 * (p + 1) }

  /** Page `p` is visited by one of the first `n` headers. */
  ghost predicate TouchedBy(img: seq<Byte>, n: nat, p: nat)
    requires SegsOk(img, n)
  {
    exists i :: 0 <= i < n && IsLoad(img, i) && Touches(HeaderAt(img, i), p)
  }

  /** Where no segment has file data, the image is zero. */
  lemma {:induction false} ImageZero(img: seq<Byte>, n: nat, va: nat)
    requires SegsOk(img, n) && USER_BASE <= va
    requires !TouchedBy(img, n, (va - USER_BASE) / 4096)
    ensures ImageByte(img, n, va) == 0
  {
    if n > 0 {
      assert SegsOk(img, n - 1);
      ImageZero(img, n - 1, va);
      if IsLoad(img, n - 1) && InFile(HeaderAt(img, n - 1), va) {
        TouchPage(HeaderAt(img, n - 1), va);
      }
    }
  }

  lemma TouchPage(ph: Phdr, va: nat)
    requires USER_BASE <= ph.vaddr && ph.filesz <= ph.memsz && InFile(ph, va)
    ensures Touches(ph, (va - USER_BASE) / 4096)
  {
    assert USER_BASE % 4096 == 0;
  }

  /** When segments do not overlap, each byte of each segment's file data is in the image. */
  lemma {:induction false} DisjointImage(img: seq<Byte>, n: nat, i: nat, va: nat)
    requires SegsOk(img, n) && i < n && IsLoad(img, i) && InFile(HeaderAt(img, i), va)
    requires forall j :: 0 <= j < n && j != i && IsLoad(img, j) ==> !InFile(HeaderAt(img, j), va)
    ensures ImageByte(img, n, va) == img[HeaderAt(img, i).offset + (va - HeaderAt(img, i).vaddr)]
  {
    if i < n - 1 {
      assert SegsOk(img, n - 1);
      DisjointImage(img, n - 1, i, va);
    }
  }

  // ---- loading ----------------------------------------------------------------------------------

  function PageByte(img: seq<Byte>, n: nat, p: nat, o: nat): Byte
    requires SegsOk(img, n)
  {
    ImageByte(img, n, USER_BASE + 4096 * p + o)
  }

  /** Frame contents `f` show page `p` of the image of the first `n` headers. */
  ghost predicate PageIs(f: Frame, img: seq<Byte>, n: nat, p: nat)
    requires SegsOk(img, n)
  {
    forall o :: 0 <= o < 4096 ==> f[o] == PageByte(img, n, p, o)
  }

  predicate StackPage(p: nat) { IMAGE_PAGES <= p < 1024 }

  /** Exactly the stack pages and the pages the first `n` headers touch are mapped. */
  ghost predicate Pages(sp: Space, img: seq<Byte>, n: nat)
    requires SegsOk(img, n)
  {
    forall p: nat :: p in sp.leaves <==> StackPage(p) || TouchedBy(img, n, p)
  }

  /** Every mapped page shows the image of the first `n` headers. */
  ghost predicate Shows(mem: seq<Frame>, sp: Space, img: seq<Byte>, n: nat)
    requires SegsOk(img, n)
  {
    forall p :: p in sp.leaves ==> sp.leaves[p] < |mem| && PageIs(mem[sp.leaves[p]], img, n, p)
  }

  /** The pages of header `n` below `va` are mapped too. */
  ghost predicate PagesTo(sp: Space, img: seq<Byte>, n: nat, va: nat)
    requires SegsOk(img, n + 1) && SegsOk(img, n)
  {
    forall p: nat :: p in sp.leaves <==>
      StackPage(p) || TouchedBy(img, n, p) || (USER_BASE + 4096 * p < va && Touches(HeaderAt(img, n), p))
  }

  /** Pages below `va` show the image after header `n`, the others the image before it. */
  ghost predicate ShowsTo(mem: seq<Frame>, sp: Space, img: seq<Byte>, n: nat, va: nat)
    requires SegsOk(img, n + 1) && SegsOk(img, n)
  {
    forall p :: p in sp.leaves ==>
      sp.leaves[p] < |mem| && PageIs(mem[sp.leaves[p]], img, if USER_BASE + 4096 * p < va then n + 1 else n, p)
  }

  /** The part of the frame at `va` that header `ph` fills from the file. */
  function PageStart(ph: Phdr, va: nat): nat { if va > ph.vaddr then va else ph.vaddr }
  function PageEnd(ph: Phdr, va: nat): nat {
    if va + 4096 < ph.vaddr + ph.filesz then va + 4096 else ph.vaddr + ph.filesz
  }

  function Patched(f: Frame, img: seq<Byte>, ph: Phdr, va: nat): Frame
    requires SegOk(ph, |img|) && ph.vaddr < va + 4096
  {
    var s, e := PageStart(ph, va), PageEnd(ph, va);
    if s < e then Splice(f, s - va, img[ph.offset + (s - ph.vaddr)..ph.offset + (e - ph.vaddr)]) else f
  }

  lemma PagePatched(f: Frame, img: seq<Byte>, n: nat, p: nat)
    requires SegsOk(img, n + 1) && SegsOk(img, n) && IsLoad(img, n) && PageIs(f, img, n, p)
    requires HeaderAt(img, n).vaddr < USER_BASE + 4096 * p + 4096
    ensures PageIs(Patched(f, img, HeaderAt(img, n), USER_BASE + 4096 * p), img, n + 1, p)
  {
    hide HeaderAt, TableOk, Rd32, Rd16;
    var ph, va := HeaderAt(img, n), USER_BASE + 4096 * p;
    var f' := Patched(f, img, ph, va);
    forall o | 0 <= o < 4096 ensures f'[o] == PageByte(img, n + 1, p, o) {
      assert f[o] == PageByte(img, n, p, o);
      assert InFile(ph, va + o) ==> PageStart(ph, va) <= va + o < PageEnd(ph, va);
    }
  }

  /** Header `n` has file data in page `p`. */
  predicate Overlaps(img: seq<Byte>, n: nat, p: nat)
    requires SegsOk(img, n + 1)
  {
    && IsLoad(img, n) && HeaderAt(img, n).vaddr < USER_BASE + 4096 * p + 4096
    && USER_BASE + 4096 * p < HeaderAt(img, n).vaddr + HeaderAt(img, n).filesz
  }

  /** Outside its file range a header changes nothing. */
  lemma PageSkipped(f: Frame, img: seq<Byte>, n: nat, p: nat)
    requires SegsOk(img, n + 1) && SegsOk(img, n) && !Overlaps(img, n, p)
    ensures PageIs(f, img, n + 1, p) <==> PageIs(f, img, n, p)
  {
    hide HeaderAt, TableOk, Rd32, Rd16;
    forall o | 0 <= o < 4096 ensures PageByte(img, n + 1, p, o) == PageByte(img, n, p, o) {
    }
  }

  lemma PageFresh(img: seq<Byte>, n: nat, p: nat)
    requires SegsOk(img, n) && !TouchedBy(img, n, p)
    ensures PageIs(ZERO_FRAME, img, n, p)
  {
    hide ImageByte, TouchedBy, SegsOk;
    forall o | 0 <= o < 4096 ensures PageByte(img, n, p, o) == 0 {
      assert (4096 * p + o) / 4096 == p;
      ImageZero(img, n, USER_BASE + 4096 * p + o);
    }
  }

  // ---- the loop over the pages of one segment ---------------------------------------------------------

  lemma PagesStart(mem: seq<Frame>, sp: Space, img: seq<Byte>, n: nat, va: nat)
    requires SegsOk(img, n + 1) && SegsOk(img, n) && Pages(sp, img, n) && Shows(mem, sp, img, n)
    requires va == HeaderAt(img, n).vaddr / 4096 * 4096
    ensures PagesTo(sp, img, n, va) && ShowsTo(mem, sp, img, n, va)
  {
    hide HeaderAt, TableOk, TouchedBy, PageIs, IsLoad;
    forall p | p in sp.leaves && USER_BASE + 4096 * p < va ensures PageIs(mem[sp.leaves[p]], img, n + 1, p) {
      PageSkipped(mem[sp.leaves[p]], img, n, p);
    }
  }

  lemma PagesDone(mem: seq<Frame>, sp: Space, img: seq<Byte>, n: nat, va: nat)
    requires SegsOk(img, n + 1) && SegsOk(img, n) && IsLoad(img, n) && PagesTo(sp, img, n, va)
    requires ShowsTo(mem, sp, img, n, va)
    requires va >= HeaderAt(img, n).vaddr + HeaderAt(img, n).memsz
    ensures Pages(sp, img, n + 1) && Shows(mem, sp, img, n + 1)
  {
    hide HeaderAt, TableOk, TouchedBy, PageIs, IsLoad, Touches;
    forall p | p in sp.leaves ensures PageIs(mem[sp.leaves[p]], img, n + 1, p) {
      if USER_BASE + 4096 * p >= va { PageSkipped(mem[sp.leaves[p]], img, n, p); }
    }
    forall p: nat ensures TouchedBy(img, n + 1, p) <==> TouchedBy(img, n, p) || Touches(HeaderAt(img, n), p) {
      TouchedStep(img, n, p);
    }
    TouchesBound(HeaderAt(img, n));
  }

  lemma TouchesBound(ph: Phdr)
    ensures forall p: nat :: Touches(ph, p) ==> USER_BASE + 4096 * p < ph.vaddr + ph.memsz
  {
  }

  lemma TouchedStep(img: seq<Byte>, n: nat, p: nat)
    requires SegsOk(img, n + 1) && SegsOk(img, n)
    ensures TouchedBy(img, n + 1, p) <==> TouchedBy(img, n, p) || (IsLoad(img, n) && Touches(HeaderAt(img, n), p))
  {
    hide HeaderAt, TableOk, Touches, IsLoad;
  }

  /** A header that is not PT_LOAD changes neither the pages nor the image. */
  lemma NotLoaded(mem: seq<Frame>, sp: Space, img: seq<Byte>, n: nat)
    requires SegsOk(img, n + 1) && SegsOk(img, n) && !IsLoad(img, n) && Pages(sp, img, n) && Shows(mem, sp, img, n)
    ensures Pages(sp, img, n + 1) && Shows(mem, sp, img, n + 1)
  {
    hide HeaderAt, TableOk, TouchedBy, PageIs, IsLoad, Touches;
    forall p | p in sp.leaves ensures PageIs(mem[sp.leaves[p]], img, n + 1, p) {
      PageSkipped(mem[sp.leaves[p]], img, n, p);
    }
    forall p: nat ensures TouchedBy(img, n + 1, p) <==> TouchedBy(img, n, p) {
      TouchedStep(img, n, p);
    }
  }

  lemma PagesStep(sp: Space, sp': Space, img: seq<Byte>, n: nat, p: nat)
    requires SegsOk(img, n + 1) && SegsOk(img, n) && PagesTo(sp, img, n, USER_BASE + 4096 * p)
    requires Touches(HeaderAt(img, n), p) && sp'.leaves.Keys == sp.leaves.Keys + {p}
    ensures PagesTo(sp', img, n, USER_BASE + 4096 * p + 4096)
  {
    hide HeaderAt, TableOk, TouchedBy, Touches;
    assert forall q: nat :: q in sp'.leaves <==> q in sp.leaves || q == p;
  }

  /** Mapping a page that no header touched before. */
  lemma ShowsMapped(mem: seq<Frame>, mem': seq<Frame>, sp: Space, img: seq<Byte>, n: nat, p: nat, i: nat,
                    used: set<nat>, used': set<nat>)
    requires SegsOk(img, n + 1) && SegsOk(img, n)
    requires PagesTo(sp, img, n, USER_BASE + 4096 * p) && ShowsTo(mem, sp, img, n, USER_BASE + 4096 * p)
    requires Shape(sp, |mem|) && p !in sp.leaves && FramesOf(sp) <= used && PageAdded(mem, used, mem', used', sp.pt, i)
    ensures ShowsTo(mem', Mapped(sp, p, i), img, n, USER_BASE + 4096 * p)
  {
    hide HeaderAt, TableOk, TouchedBy, Touches, PageIs, SegsOk;
    PageFresh(img, n, p);
    forall q | q in sp.leaves ensures mem'[sp.leaves[q]] == mem[sp.leaves[q]] {
      assert sp.leaves[q] in sp.leaves.Values;
    }
  }

  lemma ShowsPatched(mem: seq<Frame>, sp: Space, img: seq<Byte>, n: nat, p: nat)
    requires SegsOk(img, n + 1) && SegsOk(img, n) && IsLoad(img, n) && ShowsTo(mem, sp, img, n, USER_BASE + 4096 * p)
    requires Shape(sp, |mem|) && p in sp.leaves && SegOk(HeaderAt(img, n), |img|)
    requires HeaderAt(img, n).vaddr < USER_BASE + 4096 * p + 4096
    ensures var i, va := sp.leaves[p], USER_BASE + 4096 * p;
      ShowsTo(mem[i := Patched(mem[i], img, HeaderAt(img, n), va)], sp, img, n, va + 4096)
  {
    hide HeaderAt, TableOk, PageIs, Patched, SegsOk, SegOk, IsLoad;
    PagePatched(mem[sp.leaves[p]], img, n, p);
  }

  /** Writing a leaf frame leaves the tables, and all frames outside the space, alone. */
  lemma LeafWritten(mem0: seq<Frame>, used0: set<nat>, mem: seq<Frame>, used: set<nat>, base: nat, kdir: nat,
                    sp: Space, p: nat, f: Frame)
    requires SpaceRep(mem, base, kdir, sp) && p in sp.leaves && Grown(mem0, used0, mem, used, sp)
    ensures sp.leaves[p] < |mem| && SpaceRep(mem[sp.leaves[p] := f], base, kdir, sp)
    ensures Grown(mem0, used0, mem[sp.leaves[p] := f], used, sp)
  {
    hide DirRep, TableRep;
    assert sp.leaves[p] in FramesOf(sp);
    SpaceFrame(mem, mem[sp.leaves[p] := f], base, kdir, sp, {sp.pd, sp.pt, kdir});
  }

  /** What holds of the space being loaded, over the pool as it was before the space was made. */
  ghost predicate Building(pool: FramePool, kdir: nat, pgdir: nat, sp: Space, mem0: seq<Frame>, used0: set<nat>)
    reads pool, pool.bitmap
  {
    && pool.Valid() && SpaceRep(pool.mem, pool.base, kdir, sp) && pgdir == pool.Addr(sp.pd)
    && kdir in used0 && Grown(mem0, used0, pool.mem, pool.Used(), sp)
  }

  /** Header `n`, which is `ph`, has been loaded up to `va`. */
  ghost predicate Loading(mem: seq<Frame>, sp: Space, img: seq<Byte>, n: nat, ph: Phdr, va: nat) {
    && SegsOk(img, n + 1) && SegsOk(img, n) && IsLoad(img, n) && ph == HeaderAt(img, n)
    && PagesTo(sp, img, n, va) && ShowsTo(mem, sp, img, n, va)
  }

  /** memcpy of file data into a leaf frame. */
  method CopyIn(pool: FramePool, phys: nat, off: nat, src: seq<Byte>, ghost i: nat)
    requires pool.Valid() && i < pool.count && phys == pool.Addr(i) && off + |src| <= 4096
    modifies pool`mem
    ensures pool.Valid() && pool.Used() == old(pool.Used())
    ensures pool.mem == old(pool.mem)[i := Splice(old(pool.mem)[i], off, src)]
  {
    assert FrameAt(pool.base, phys) == i;
    pool.mem := pool.mem[FrameAt(pool.base, phys) := Splice(pool.mem[FrameAt(pool.base, phys)], off, src)];
  }

  /** The part of a segment's file data that falls into the page at `va`. */
  method CopySegment(pool: FramePool, frame: nat, img: seq<Byte>, ph: Phdr, va: nat, ghost i: nat)
    requires pool.Valid() && i < pool.count && frame == pool.Addr(i) && SegOk(ph, |img|) && ph.vaddr < va + 4096
    modifies pool`mem
    ensures pool.Valid() && pool.Used() == old(pool.Used())
    ensures pool.mem == old(pool.mem)[i := Patched(old(pool.mem)[i], img, ph, va)]
  {
    var start := if va > ph.vaddr then va else ph.vaddr;
    var fend := ph.vaddr + ph.filesz;
    var end := if va + 4096 < fend then va + 4096 else fend;
    if start < end {
      CopyIn(pool, frame, start - va, img[ph.offset + (start - ph.vaddr)..ph.offset + (end - ph.vaddr)], i);
    } else {
      assert pool.mem[i := pool.mem[i]] == pool.mem;
    }
  }

  /** One iteration of load_segment. */
  method LoadPage(pool: FramePool, pgdir: nat, img: seq<Byte>, ph: Phdr, va: nat,
                  ghost n: nat, ghost p: nat, ghost kdir: nat, ghost sp: Space,
                  ghost mem0: seq<Frame>, ghost used0: set<nat>)
    returns (ok: bool, ghost sp': Space)
    requires Building(pool, kdir, pgdir, sp, mem0, used0) && va == USER_BASE + 4096 * p
    requires Touches(ph, p) && Loading(pool.mem, sp, img, n, ph, va)
    modifies pool`freeFrames, pool`mem, pool.bitmap
    ensures Building(pool, kdir, pgdir, sp', mem0, used0)
    ensures ok ==> Loading(pool.mem, sp', img, n, ph, va + 4096)
    ensures !ok ==> pool.freeFrames == 0 && p !in sp.leaves && sp' == sp
  {
    hide UsedIn, SpaceRep, FramesOf, Grown, PagesTo, ShowsTo, PageAdded, IsLoad, HeaderAt, TableOk, Touches,
      Patched;
    ghost var m1, u1 := pool.mem, pool.Used();
    GrownUndo(mem0, used0, m1, u1, sp);
    ShapeOf(pool.mem, pool.base, kdir, sp);
    TouchesIn(img, n, p);
    var frame;
    frame, sp' := UserPage(pool, pgdir, va, kdir, sp);
    if frame == 0 {
      return false, sp';
    }
    ghost var i := sp'.leaves[p];
    if p !in sp.leaves {
      GrownStep(mem0, used0, m1, u1, pool.mem, pool.Used(), pool.base, kdir, sp, p, i);
      ShowsMapped(m1, pool.mem, sp, img, n, p, i, u1, pool.Used());
    }
    PagesStep(sp, sp', img, n, p);
    ShapeOf(pool.mem, pool.base, kdir, sp');
    LeafWritten(mem0, used0, pool.mem, pool.Used(), pool.base, kdir, sp', p, Patched(pool.mem[i], img, ph, va));
    ShowsPatched(pool.mem, sp', img, n, p);
    CopySegment(pool, frame, img, ph, va, i);
    ok := true;
  }

  lemma TouchesIn(img: seq<Byte>, n: nat, p: nat)
    requires SegsOk(img, n + 1) && IsLoad(img, n) && Touches(HeaderAt(img, n), p)
    ensures InImage(USER_BASE + 4096 * p) && PageOf(USER_BASE + 4096 * p) == p
    ensures SegOk(HeaderAt(img, n), |img|) && HeaderAt(img, n).vaddr < USER_BASE + 4096 * p + 4096
  {
    hide HeaderAt, TableOk;
  }

  /** The first `n` headers have been loaded. */
  ghost predicate Loaded(mem: seq<Frame>, sp: Space, img: seq<Byte>, n: nat) {
    SegsOk(img, n) && Pages(sp, img, n) && Shows(mem, sp, img, n)
  }

  /** The pages a program needs: its stack and every page a segment touches. */
  ghost function Needed(img: seq<Byte>): set<nat>
    requires |img| >= EHDR && SegsOk(img, PhNum(img))
  {
    set p: nat | p < 1024 && (StackPage(p) || TouchedBy(img, PhNum(img), p))
  }

  /** Only needed pages are mapped, and not all of them. */
  ghost predicate Short(sp: Space, img: seq<Byte>, n: nat) {
    && SegsOk(img, n) && (forall q: nat :: q in sp.leaves ==> StackPage(q) || TouchedBy(img, n, q))
    && exists p: nat :: TouchedBy(img, n, p) && p !in sp.leaves
  }

  lemma ShortAt(sp: Space, img: seq<Byte>, n: nat, p: nat, va: nat)
    requires SegsOk(img, n + 1) && SegsOk(img, n) && IsLoad(img, n) && PagesTo(sp, img, n, va)
    requires Touches(HeaderAt(img, n), p) && p !in sp.leaves
    ensures Short(sp, img, n + 1)
  {
    hide HeaderAt, TableOk, TouchedBy, Touches, IsLoad;
    TouchedStep(img, n, p);
    forall q: nat | q in sp.leaves ensures StackPage(q) || TouchedBy(img, n + 1, q) { TouchedStep(img, n, q); }
  }

  lemma TouchedMore(img: seq<Byte>, n: nat, k: nat, p: nat)
    requires n <= k && SegsOk(img, k) && SegsOk(img, n) && TouchedBy(img, n, p)
    ensures TouchedBy(img, k, p) && p < IMAGE_PAGES
  {
    hide HeaderAt, TableOk;
    var i :| 0 <= i < n && IsLoad(img, i) && Touches(HeaderAt(img, i), p);
    assert SegOk(HeaderAt(img, i), |img|);
  }

  lemma ShortNeeds(sp: Space, img: seq<Byte>, n: nat)
    requires Short(sp, img, n) && SegsOk(img, PhNum(img))
    ensures |sp.leaves| < |Needed(img)|
  {
    hide HeaderAt, TableOk, TouchedBy;
    var p: nat :| TouchedBy(img, n, p) && p !in sp.leaves;
    TouchedMore(img, n, PhNum(img), p);
    forall q: nat | q in sp.leaves ensures q in Needed(img) {
      if TouchedBy(img, n, q) { TouchedMore(img, n, PhNum(img), q); }
    }
    SubsetSize(sp.leaves.Keys + {p}, Needed(img));
  }

  lemma LoadedNeeds(mem: seq<Frame>, sp: Space, img: seq<Byte>)
    requires |img| >= EHDR && Loaded(mem, sp, img, PhNum(img))
    ensures sp.leaves.Keys == Needed(img) && |sp.leaves| == |Needed(img)|
  {
    hide HeaderAt, TableOk, TouchedBy, Shows;
    forall q: nat | TouchedBy(img, PhNum(img), q) ensures q < 1024 { TouchedMore(img, PhNum(img), PhNum(img), q); }
    assert sp.leaves.Keys == Needed(img);
  }

  lemma LoadableSegs(img: seq<Byte>)
    requires Loadable(img)
    ensures |img| >= EHDR && SegsOk(img, PhNum(img))
  {
  }

  /** load_segment: header `n` on top of the ones before it; fails only for want of frames. */
  method LoadSegment(pool: FramePool, pgdir: nat, img: seq<Byte>, ph: Phdr,
                     ghost n: nat, ghost kdir: nat, ghost sp: Space, ghost mem0: seq<Frame>, ghost used0: set<nat>)
    returns (ok: bool, ghost sp': Space)
    requires Building(pool, kdir, pgdir, sp, mem0, used0) && Loaded(pool.mem, sp, img, n)
    requires SegsOk(img, n + 1) && IsLoad(img, n) && ph == HeaderAt(img, n)
    modifies pool`freeFrames, pool`mem, pool.bitmap
    ensures Building(pool, kdir, pgdir, sp', mem0, used0)
    ensures ok ==> Loaded(pool.mem, sp', img, n + 1)
    ensures !ok ==> pool.freeFrames == 0 && Short(sp', img, n + 1)
  {
    hide Building, IsLoad, HeaderAt, TableOk, PagesTo, ShowsTo, Pages, Shows, Short;
    sp' := sp;
    var va := ph.vaddr / 4096 * 4096;
    ghost var p := (va - USER_BASE) / 4096;
    SegPlaced(img, n);
    PagesStart(pool.mem, sp, img, n, va);
    while va < ph.vaddr + ph.memsz
      invariant 0 <= p && va == USER_BASE + 4096 * p && ph.vaddr / 4096 * 4096 <= va
      invariant Building(pool, kdir, pgdir, sp', mem0, used0) && Loading(pool.mem, sp', img, n, ph, va)
    {
      ok, sp' := LoadPage(pool, pgdir, img, ph, va, n, p, kdir, sp', mem0, used0);
      if !ok {
        ShortAt(sp', img, n, p, va);
        return;
      }
      va, p := va + 4096, p + 1;
    }
    PagesDone(pool.mem, sp', img, n, va);
    ok := true;
  }

  lemma SegPlaced(img: seq<Byte>, n: nat)
    requires SegsOk(img, n + 1) && IsLoad(img, n)
    ensures USER_BASE <= HeaderAt(img, n).vaddr && USER_BASE % 4096 == 0
  {
    hide HeaderAt, TableOk;
  }

  lemma LoadedNone(mem: seq<Frame>, sp: Space, img: seq<Byte>)
    requires SegsOk(img, 0) && ZeroLeaves(mem, sp) && forall p: nat :: p in sp.leaves <==> StackPage(p)
    ensures Loaded(mem, sp, img, 0)
  {
    hide HeaderAt, TableOk, PageIs;
    forall p | p in sp.leaves ensures PageIs(ZERO_FRAME, img, 0, p) { PageFresh(img, 0, p); }
  }

  lemma NextHeader(img: seq<Byte>, i: nat)
    requires SegsOk(img, i) && NoWrap(img) && i < PhNum(img)
    ensures !IsLoad(img, i) ==> SegsOk(img, i + 1)
    ensures IsLoad(img, i) && Accepts(HeaderAt(img, i), |img|) ==> SegsOk(img, i + 1)
    ensures IsLoad(img, i) && !Accepts(HeaderAt(img, i), |img|) ==> !Loadable(img)
  {
    hide TableOk, Accepts, SegOk, IdentOk, Rd16;
    AcceptsIs(HeaderAt(img, i), |img|);
  }

  /**
   * elf_load into a fresh space: succeeds exactly when the file is loadable
   * and frames suffice; every mapped page then shows the described image.
   */
  method ElfLoad(pool: FramePool, pgdir: nat, img: seq<Byte>, ghost kdir: nat, ghost sp: Space, ghost mem0: seq<Frame>,
                 ghost used0: set<nat>)
    returns (ok: bool, entry: nat, ghost sp': Space)
    requires Building(pool, kdir, pgdir, sp, mem0, used0) && NoWrap(img)
    requires ZeroLeaves(pool.mem, sp) && forall p: nat :: p in sp.leaves <==> StackPage(p)
    modifies pool`freeFrames, pool`mem, pool.bitmap
    ensures Building(pool, kdir, pgdir, sp', mem0, used0)
    ensures ok ==> Loadable(img) && Loaded(pool.mem, sp', img, PhNum(img)) && entry == EntryPoint(img)
    ensures !ok && Loadable(img) ==> pool.freeFrames == 0 && SegsOk(img, PhNum(img)) && |sp'.leaves| < |Needed(img)|
    ensures forall h, ps :: Encodes(img, h, ps) ==>
      (ok ==> Sensible(h, ps, |img|) && entry == h.entry) && (!ok && Sensible(h, ps, |img|) ==> pool.freeFrames == 0)
  {

    hide Building, HeaderAt, Pages, Shows, ZeroLeaves, Rd16, Rd32, Accepts, Needed, Short, Encodes, Sensible;
    ok, entry, sp' := false, 0, sp;
    LoadableAll(img);
    if !IdentOk(img) {
      return;
    }
    var phnum, phentsize := PhNum(img), PhEntSize(img);
    if phentsize < PHDR || phnum == 0 || (PhOff(img) + Times(phnum, phentsize)) % DWORD > |img| {
      return;
    }
    LoadedNone(pool.mem, sp, img);
    var i := 0;
    while i < phnum
      invariant 0 <= i <= phnum && TableOk(img)
      invariant Building(pool, kdir, pgdir, sp', mem0, used0) && Loaded(pool.mem, sp', img, i)
    {
      var ph := HeaderAt(img, i);
      NextHeader(img, i);
      if ph.ptype != PT_LOAD {
        NotLoaded(pool.mem, sp', img, i);
      } else {
        if !Accepts(ph, |img|) {
          return false, 0, sp';
        }
        ok, sp' := LoadSegment(pool, pgdir, img, ph, i, kdir, sp', mem0, used0);
        if !ok {
          if Loadable(img) { LoadableSegs(img); ShortNeeds(sp', img, i + 1); }
          return;
        }
      }
      i := i + 1;
    }
    entry := EntryPoint(img);
    ok := USER_BASE <= entry < USER_BASE + USER_IMAGE_MAX;
  }

  /**
   * A loaded program, walking its own tables, sees exactly the image: its
   * stack and touched pages and nothing else, and in them the last segment's
   * file data or zeroes.
   */
  lemma ProgramSees(mem: seq<Frame>, base: nat, kdir: nat, sp: Space, img: seq<Byte>, n: nat, va: nat)
    requires SpaceRep(mem, base, kdir, sp) && KernelDir(mem[kdir]) && 0 < base && base % 4096 == 0
    requires Loaded(mem, sp, img, n) && va < DWORD
    ensures var r := UserWalk(mem, base, sp.pd, va);
      && (r.Some? <==> USER_BASE <= va < USER_BASE + WINDOW && (StackPage(PageOf(va)) || TouchedBy(img, n, PageOf(va))))
      && (r.Some? ==> base <= r.value && FrameAt(base, r.value) < |mem|)
      && (r.Some? ==> mem[FrameAt(base, r.value)][(r.value - base) % 4096] == ImageByte(img, n, va))
  {
    hide UserWalk, DirRep, TableRep, KernelDir, SegsOk, TouchedBy, ImageByte, HeaderAt;
    UserReach(mem, base, kdir, sp, va);
    if USER_BASE <= va < USER_BASE + WINDOW && PageOf(va) in sp.leaves {
      var p, o := PageOf(va), va % 4096;
      assert va == USER_BASE + 4096 * p + o;
      assert mem[sp.leaves[p]][o] == PageByte(img, n, p, o);
      var phys := base + 4096 * sp.leaves[p] + o;
      assert (phys - base) / 4096 == sp.leaves[p] && (phys - base) % 4096 == o;
    }
  }

  /**
   * The same for a file given by its records. The program sees its stack and the
   * pages with memory of a segment; at an address for which some segment has data,
   * the data of the last such segment, and zero elsewhere.
   */
  lemma ProgramGiven(mem: seq<Frame>, base: nat, kdir: nat, sp: Space, img: seq<Byte>, h: FileHeader,
                     ps: seq<ProgramHeader>, va: nat)
    requires SpaceRep(mem, base, kdir, sp) && KernelDir(mem[kdir]) && 0 < base && base % 4096 == 0
    requires Encodes(img, h, ps) && |img| >= EHDR && Loaded(mem, sp, img, PhNum(img)) && va < DWORD
    ensures var r := UserWalk(mem, base, sp.pd, va);
      && (0x403F_C000 <= va < 0x4040_0000 ==> r.Some?)
      && (forall i :: 0 <= i < |ps| && ps[i].ptype == 1 && ps[i].vaddr <= va < ps[i].vaddr + ps[i].memsz ==> r.Some?)
      && (r.Some? ==> 0x4000_0000 <= va < 0x4040_0000 && base <= r.value && FrameAt(base, r.value) < |mem|)
      && (r.Some? && va < 0x403F_C000 ==>
            exists i :: 0 <= i < |ps| && ps[i].ptype == 1 && Touches(FieldsOf(ps[i]), PageOf(va)))
      && (r.Some? ==> var b := mem[FrameAt(base, r.value)][(r.value - base) % 4096];
            && (forall i :: 0 <= i < |ps| && LastData(ps, |ps|, i, va) ==>
                  Supplies(img, ps[i], va, b))
            && ((forall i :: 0 <= i < |ps| ==> !HasData(ps[i], va)) ==> b == 0))
  {
    hide UserWalk, DirRep, TableRep, KernelDir, Loaded, ImageByte, HeaderAt, TableOk, TouchedBy, RecordAt;
    hide FileHeaderBytes, Touches, LastData, HasData, Encodes, SegsOk, Loadable, Sensible;
    LoadedSegs(mem, sp, img);
    LoadableGiven(img, h, ps);
    ProgramSees(mem, base, kdir, sp, img, |ps|, va);
    ImageGiven(img, h, ps, |ps|, va);
    forall i | 0 <= i < |ps| && ps[i].ptype == 1 && ps[i].vaddr <= va < ps[i].vaddr + ps[i].memsz
      ensures UserWalk(mem, base, sp.pd, va).Some?
    {
      MemoryTouched(img, h, ps, i, va);
    }
    if UserWalk(mem, base, sp.pd, va).Some? && va < 0x403F_C000 {
      var i := WhichTouches(img, h, ps, PageOf(va));
    }
  }

  lemma WhichTouches(img: seq<Byte>, h: FileHeader, ps: seq<ProgramHeader>, p: nat) returns (i: nat)
    requires Encodes(img, h, ps) && SegsOk(img, |ps|) && TouchedBy(img, |ps|, p)
    ensures i < |ps| && ps[i].ptype == 1 && Touches(FieldsOf(ps[i]), p)
  {
    hide HeaderAt, TableOk, RecordAt, FileHeaderBytes, Touches;
    i :| 0 <= i < |ps| && IsLoad(img, i) && Touches(HeaderAt(img, i), p);
    HeaderRead(img, h, ps, i);
  }

  lemma LoadedSegs(mem: seq<Frame>, sp: Space, img: seq<Byte>)
    requires |img| >= EHDR && Loaded(mem, sp, img, PhNum(img))
    ensures SegsOk(img, PhNum(img))
  {
  }

  lemma MemoryTouched(img: seq<Byte>, h: FileHeader, ps: seq<ProgramHeader>, i: nat, va: nat)
    requires Encodes(img, h, ps) && SegsOk(img, |ps|) && i < |ps| && ps[i].ptype == 1
    requires ps[i].vaddr <= va < ps[i].vaddr + ps[i].memsz
    ensures USER_BASE <= va < USER_BASE + WINDOW && TouchedBy(img, |ps|, PageOf(va))
  {
    hide HeaderAt, TableOk, RecordAt, FileHeaderBytes;
    HeaderRead(img, h, ps, i);
    assert IsLoad(img, i) && SegOk(HeaderAt(img, i), |img|);
    TouchesIs(HeaderAt(img, i), PageOf(va));
    assert InPage(va, PageOf(va));
  }
}
