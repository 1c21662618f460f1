/** The records of an ELF32 file, field by field in the order of the Tool Interface Standard, and their bytes. */
module ElfFormat {
  import opened Bytes

  datatype FileHeader = FileHeader(ident: seq<Byte>, ftype: nat, machine: nat, version: nat, entry: nat, phoff: nat,
                                   shoff: nat, flags: nat, ehsize: nat, phentsize: nat, phnum: nat, shentsize: nat,
                                   shnum: nat, shstrndx: nat)

  datatype ProgramHeader = ProgramHeader(ptype: nat, offset: nat, vaddr: nat, paddr: nat, filesz: nat, memsz: nat,
                                         flags: nat, align: nat)

  predicate Half(v: nat) { v < 0x10000 }

  predicate FileHeaderOk(h: FileHeader) {
    && |h.ident| == 16 && Half(h.ftype) && Half(h.machine) && h.version < DWORD && h.entry < DWORD && h.phoff < DWORD
    && h.shoff < DWORD && h.flags < DWORD && Half(h.ehsize) && Half(h.phentsize) && Half(h.phnum)
    && Half(h.shentsize) && Half(h.shnum) && Half(h.shstrndx)
  }

  predicate ProgramHeaderOk(p: ProgramHeader) {
    && p.ptype < DWORD && p.offset < DWORD && p.vaddr < DWORD && p.paddr < DWORD
    && p.filesz < DWORD && p.memsz < DWORD && p.flags < DWORD && p.align < DWORD
  }

  function FileHeaderBytes(h: FileHeader): (r: seq<Byte>)
    requires FileHeaderOk(h)
    ensures |r| == 52
  {
    h.ident + Le16(h.ftype) + Le16(h.machine) + Le32(h.version) + Le32(h.entry) + Le32(h.phoff) + Le32(h.shoff)
    + Le32(h.flags) + Le16(h.ehsize) + Le16(h.phentsize) + Le16(h.phnum) + Le16(h.shentsize) + Le16(h.shnum)
    + Le16(h.shstrndx)
  }

  function ProgramHeaderBytes(p: ProgramHeader): (r: seq<Byte>)
    requires ProgramHeaderOk(p)
    ensures |r| == 32
  {
    Le32(p.ptype) + Le32(p.offset) + Le32(p.vaddr) + Le32(p.paddr) + Le32(p.filesz) + Le32(p.memsz) + Le32(p.flags)
    + Le32(p.align)
  }

  /** A number that was put at `off` is read there. */
  lemma ReadsHalf(s: seq<Byte>, off: nat, v: nat)
    requires off + 2 <= |s| && Half(v) && s[off..off + 2] == Le16(v)
    ensures Rd16(s, off) == v
  {
    var w := s[off..off + 2];
    assert w[0] == s[off] && w[1] == s[off + 1];
  }

  lemma ReadsWord(s: seq<Byte>, off: nat, v: nat)
    requires off + 4 <= |s| && v < DWORD && s[off..off + 4] == Le32(v)
    ensures Rd32(s, off) == v
  {
    hide Le32;
    var w := s[off..off + 4];
    assert w[0] == s[off] && w[1] == s[off + 1] && w[2] == s[off + 2] && w[3] == s[off + 3];
  }

  /** The fields of a file header are where the standard puts them. */
  lemma FileHeaderFields(h: FileHeader)
    requires FileHeaderOk(h)
    ensures var s := FileHeaderBytes(h);
      && s[..16] == h.ident && Rd16(s, 16) == h.ftype && Rd16(s, 18) == h.machine && Rd32(s, 24) == h.entry
      && Rd32(s, 28) == h.phoff && Rd16(s, 42) == h.phentsize && Rd16(s, 44) == h.phnum
  {
    hide Le16, Le32, Rd16, Rd32;
    var s := FileHeaderBytes(h);
    assert s[16..18] == Le16(h.ftype) && s[18..20] == Le16(h.machine) && s[24..28] == Le32(h.entry);
    assert s[28..32] == Le32(h.phoff) && s[42..44] == Le16(h.phentsize) && s[44..46] == Le16(h.phnum);
    ReadsHalf(s, 16, h.ftype);
    ReadsHalf(s, 18, h.machine);
    ReadsWord(s, 24, h.entry);
    ReadsWord(s, 28, h.phoff);
    ReadsHalf(s, 42, h.phentsize);
    ReadsHalf(s, 44, h.phnum);
  }

  /** So are those of a program header. */
  lemma ProgramHeaderFields(p: ProgramHeader)
    requires ProgramHeaderOk(p)
    ensures var s := ProgramHeaderBytes(p);
      && Rd32(s, 0) == p.ptype && Rd32(s, 4) == p.offset && Rd32(s, 8) == p.vaddr
      && Rd32(s, 16) == p.filesz && Rd32(s, 20) == p.memsz
  {
    hide Le32, Rd32;
    var s := ProgramHeaderBytes(p);
    assert s[0..4] == Le32(p.ptype) && s[4..8] == Le32(p.offset) && s[8..12] == Le32(p.vaddr);
    assert s[16..20] == Le32(p.filesz) && s[20..24] == Le32(p.memsz);
    ReadsWord(s, 0, p.ptype);
    ReadsWord(s, 4, p.offset);
    ReadsWord(s, 8, p.vaddr);
    ReadsWord(s, 16, p.filesz);
    ReadsWord(s, 20, p.memsz);
  }

  /** Every 32 bytes are the bytes of a program header. */
  lemma SomeProgramHeader(s: seq<Byte>) returns (p: ProgramHeader)
    requires |s| == 32
    ensures ProgramHeaderOk(p) && ProgramHeaderBytes(p) == s
  {
    hide Le32, Rd32;
    p := ProgramHeader(Rd32(s, 0), Rd32(s, 4), Rd32(s, 8), Rd32(s, 12), Rd32(s, 16), Rd32(s, 20), Rd32(s, 24),
                       Rd32(s, 28));
    forall o: nat | o + 4 <= 32 ensures Le32(Rd32(s, o)) == s[o..o + 4] { LeOfRd(s, o); }
    Pieces(s);
  }

  lemma Pieces(s: seq<Byte>)
    requires |s| == 32
    ensures s[0..4] + s[4..8] + s[8..12] + s[12..16] + s[16..20] + s[20..24] + s[24..28] + s[28..32] == s
  {
  }

  /** Every 52 bytes are the bytes of a file header. */
  lemma SomeFileHeader(s: seq<Byte>) returns (h: FileHeader)
    requires |s| == 52
    ensures FileHeaderOk(h) && FileHeaderBytes(h) == s
  {
    hide Le16, Le32, Rd16, Rd32;
    h := FileHeader(s[..16], Rd16(s, 16), Rd16(s, 18), Rd32(s, 20), Rd32(s, 24), Rd32(s, 28), Rd32(s, 32), Rd32(s, 36),
                    Rd16(s, 40), Rd16(s, 42), Rd16(s, 44), Rd16(s, 46), Rd16(s, 48), Rd16(s, 50));
    forall o: nat | o + 4 <= 52 ensures Le32(Rd32(s, o)) == s[o..o + 4] { LeOfRd(s, o); }
    forall o: nat | o + 2 <= 52 ensures Le16(Rd16(s, o)) == s[o..o + 2] { LeOfRd(s, o); }
    assert s[..16] + s[16..18] + s[18..20] + s[20..24] + s[24..28] + s[28..32] + s[32..36]
        + s[36..40] + s[40..42] + s[42..44] + s[44..46] + s[46..48] + s[48..50] + s[50..52] == s;
  }
}
