/** Bytes, little-endian fields and sectors, as the drivers read and write them. */
module Bytes {

  type Byte = b: int | 0 <= b < 256

  /** 32-bit values lie below this. */
  const DWORD: nat := 0x1_0000_0000

  type Sector = s: seq<Byte> | |s| == 512 witness seq(512, _ => 0)

  function Min(a: nat, b: nat): nat {
    if a < b then a else b
  }

  function Zeros(n: nat): (r: seq<Byte>)
    ensures |r| == n
  {
    seq(n, _ => 0)
  }

  function Rd16(s: seq<Byte>, off: nat): (v: nat)
    requires off + 2 <= |s|
    ensures v < 0x10000
  {
    s[off] as int + 256 * (s[off + 1] as int)
  }

  function Rd32(s: seq<Byte>, off: nat): (v: nat)
    requires off + 4 <= |s|
    ensures v < 0x1_0000_0000
  {
    s[off] as int + 256 * (s[off + 1] as int) + 65536 * (s[off + 2] as int) + 16777216 * (s[off + 3] as int)
  }

  function Le16(v: nat): (s: seq<Byte>)
    requires v < 0x10000
    ensures |s| == 2 && Rd16(s, 0) == v
  {
    [v % 256, v / 256]
  }

  function Le32(v: nat): (s: seq<Byte>)
    requires v < 0x1_0000_0000
    ensures |s| == 4 && Rd32(s, 0) == v
  {
    var lo, hi := Le16(v % 0x10000), Le16(v / 0x10000);
    var s := lo + hi;
    assert s[0] == lo[0] && s[1] == lo[1] && s[2] == hi[0] && s[3] == hi[1];
    assert Rd32(s, 0) == Rd16(lo, 0) + 0x10000 * Rd16(hi, 0);
    s
  }

  /** The number a byte string stands for, least significant byte first. */
  function Number(s: seq<Byte>): nat {
    if s == [] then 0 else s[0] + 256 * Number(s[1..])
  }

  lemma NumberStep(b: Byte, s: seq<Byte>)
    ensures Number([b] + s) == b + 256 * Number(s)
  {
    assert ([b] + s)[1..] == s;
  }

  /** Both readers take the least significant byte first. */
  lemma Rd16Is(s: seq<Byte>, off: nat)
    requires off + 2 <= |s|
    ensures Rd16(s, off) == Number(s[off..off + 2])
  {
    hide Number;
    var a, b := s[off], s[off + 1];
    assert s[off..off + 2] == [a] + ([b] + []);
    NumberNone();
    NumberStep(b, []);
    NumberStep(a, [b] + []);
  }

  lemma NumberNone()
    ensures Number([]) == 0
  {
  }

  lemma Rd32Is(s: seq<Byte>, off: nat)
    requires off + 4 <= |s|
    ensures Rd32(s, off) == Number(s[off..off + 4])
  {
    hide Number, Rd16;
    var a, b := s[off], s[off + 1];
    Rd16Is(s, off + 2);
    assert s[off..off + 4] == [a] + ([b] + s[off + 2..off + 4]);
    NumberStep(b, s[off + 2..off + 4]);
    NumberStep(a, [b] + s[off + 2..off + 4]);
    HighHalf(s, off);
  }

  lemma HighHalf(s: seq<Byte>, off: nat)
    requires off + 4 <= |s|
    ensures Rd32(s, off) == s[off] + 256 * s[off + 1] + 65536 * Rd16(s, off + 2)
  {
  }

  /** Byte strings of one length are told apart by their numbers. */
  lemma {:induction false} NumberInjective(s: seq<Byte>, t: seq<Byte>)
    requires |s| == |t| && Number(s) == Number(t)
    ensures s == t
  {
    if s != [] {
      assert s[0] == t[0];
      NumberInjective(s[1..], t[1..]);
      assert s == [s[0]] + s[1..] && t == [t[0]] + t[1..];
    }
  }

  /** Writing back what was read changes nothing, so both writers put that byte first, too. */
  lemma LeOfRd(s: seq<Byte>, off: nat)
    ensures off + 2 <= |s| ==> Le16(Rd16(s, off)) == s[off..off + 2]
    ensures off + 4 <= |s| ==> Le32(Rd32(s, off)) == s[off..off + 4]
  {
    hide Le16, Le32, Rd16, Rd32;
    if off + 2 <= |s| {
      var w := Le16(Rd16(s, off));
      Rd16Is(s, off);
      Rd16Is(w, 0);
      assert w[0..2] == w;
      NumberInjective(w, s[off..off + 2]);
    }
    if off + 4 <= |s| {
      var w := Le32(Rd32(s, off));
      Rd32Is(s, off);
      Rd32Is(w, 0);
      assert w[0..4] == w;
      NumberInjective(w, s[off..off + 4]);
    }
  }

  /** `s` with the bytes of `t` stored at `off` (memcpy into a buffer). */
  function Splice(s: seq<Byte>, off: nat, t: seq<Byte>): (r: seq<Byte>)
    requires off + |t| <= |s|
    ensures |r| == |s|
    ensures forall i :: 0 <= i < |s| ==> r[i] == if off <= i < off + |t| then t[i - off] else s[i]
  {
    s[..off] + t + s[off + |t|..]
  }

  lemma SpliceRd16(s: seq<Byte>, off: nat, v: nat)
    requires off + 2 <= |s| && v < 0x10000
    ensures Rd16(Splice(s, off, Le16(v)), off) == v
  {
    var r := Splice(s, off, Le16(v));
    assert r[off] == Le16(v)[0] && r[off + 1] == Le16(v)[1];
  }
}
