/** Bytes kept in heap payloads: memcpy into a block, and what a block's bytes depend on. */
module Buffers {
  import opened Bytes
  import opened Blocks
  import opened Heap

  /** Byte `j` of a word of memory. */
  function ByteOf(w: nat, j: nat): Byte
    requires j < 4
  {
    Le32(w % DWORD)[j]
  }

  function WithByte(w: nat, j: nat, v: Byte): nat
    requires j < 4
  {
    Rd32(Le32(w % DWORD)[j := v], 0)
  }

  /** The least significant byte of a word has the lowest address. */
  lemma WordBytes(w: nat)
    requires w < DWORD
    ensures w == Number([ByteOf(w, 0), ByteOf(w, 1), ByteOf(w, 2), ByteOf(w, 3)])
  {
    hide Le32, Rd32, Number;
    var s := Le32(w);
    assert w % DWORD == w && s == [ByteOf(w, 0), ByteOf(w, 1), ByteOf(w, 2), ByteOf(w, 3)] && s[0..4] == s;
    Rd32Is(s, 0);
  }

  lemma ByteAfter(w: nat, j: nat, v: Byte, k: nat)
    requires j < 4 && k < 4
    ensures ByteOf(WithByte(w, j, v), k) == if k == j then v else ByteOf(w, k)
  {
    hide Le32, Rd32;
    var s: seq<Byte> := Le32(w % DWORD)[j := v];
    LeOfRd(s, 0);
    assert s[0..4] == s;
    assert Rd32(s, 0) % DWORD == Rd32(s, 0);
  }

  /** Byte `i` of what lies at address `a`; 0 outside the region. */
  function ByteAt(m: seq<nat>, base: nat, a: nat, i: nat): Byte {
    if base <= a && (a - base + i) / 4 < |m| then ByteOf(m[(a - base + i) / 4], (a - base + i) % 4) else 0
  }

  /** The `n` bytes at address `a`. */
  function Data(m: seq<nat>, base: nat, a: nat, n: nat): (r: seq<Byte>)
    ensures |r| == n && forall i :: 0 <= i < n ==> r[i] == ByteAt(m, base, a, i)
  {
    seq<Byte>(n, i requires 0 <= i < n => ByteAt(m, base, a, i))
  }

  /** The bytes of a payload depend on its own words only. */
  lemma DataSame(m: seq<nat>, m': seq<nat>, base: nat, b: Block, n: nat)
    requires base <= b.addr && SamePayload(m, m', base, b) && n <= b.size
    ensures Data(m', base, b.Payload(), n) == Data(m, base, b.Payload(), n)
  {
    hide ByteOf;
    forall i | 0 <= i < n ensures ByteAt(m', base, b.Payload(), i) == ByteAt(m, base, b.Payload(), i) {
      var w := (b.Payload() + i - base) / 4;
      assert WordOf(base, b.Payload()) <= w && 4 * w < b.End() - base;
    }
  }

  /** The words of the payload of `b`. */
  predicate InPayload(base: nat, b: Block, w: nat)
    requires base <= b.addr
  {
    WordOf(base, b.Payload()) <= w && 4 * w < b.End() - base
  }

  predicate AgreeOffPayload(m: seq<nat>, m': seq<nat>, base: nat, b: Block)
    requires base <= b.addr
  {
    |m'| == |m| && forall w :: 0 <= w < |m| && !InPayload(base, b, w) ==> m'[w] == m[w]
  }

  /** Writing a payload leaves every header and every other payload alone. */
  lemma PayloadWritten(m: seq<nat>, m': seq<nat>, base: nat, hi: nat, bs: seq<Block>, k: nat)
    requires Tiles(bs, base, hi) && Rep(m, base, bs) && k < |bs| && base <= bs[k].addr
    requires AgreeOffPayload(m, m', base, bs[k])
    ensures Rep(m', base, bs)
    ensures forall j :: 0 <= j < |bs| && j != k ==> base <= bs[j].addr && SamePayload(m, m', base, bs[j])
  {
    hide Tiles, Header, SamePayload;
    forall j | 0 <= j < |bs|
      ensures Header(m', base, bs, j) && (j != k ==> base <= bs[j].addr && SamePayload(m, m', base, bs[j]))
    {
      if j < k { TilesApart(bs, base, hi, j, k); }
      if k < j { TilesApart(bs, base, hi, k, j); }
      HeaderOf(m, base, bs, j);
      HeaderOf(m, base, bs, k);
      OneWritten(m, m', base, bs, k, j);
    }
  }

  lemma OneWritten(m: seq<nat>, m': seq<nat>, base: nat, bs: seq<Block>, k: nat, j: nat)
    requires k < |bs| && j < |bs| && base <= bs[k].addr && base <= bs[j].addr && AgreeOffPayload(m, m', base, bs[k])
    requires (bs[j].addr - base) % 4 == 0 && (bs[k].addr - base) % 4 == 0 && Header(m, base, bs, j)
    requires j == k || bs[j].End() <= bs[k].addr || bs[k].End() <= bs[j].addr
    ensures Header(m', base, bs, j) && (j != k ==> SamePayload(m, m', base, bs[j]))
  {
    var w := WordOf(base, bs[j].addr);
    assert !InPayload(base, bs[k], w) && !InPayload(base, bs[k], w + 1) && !InPayload(base, bs[k], w + 2);
    if j != k {
      forall x | WordOf(base, bs[j].Payload()) <= x < |m| && 4 * x < bs[j].End() - base ensures m'[x] == m[x] {
        assert !InPayload(base, bs[k], x);
      }
    }
  }

  /** memcpy of `src` to offset `off` of the payload of block `k`. */
  method Poke(h: KernelHeap, ptr: nat, off: nat, src: seq<Byte>, ghost k: nat)
    requires h.Valid() && k < |h.bs| && h.bs[k].Payload() == ptr && off + |src| <= h.bs[k].size
    modifies h.mem
    ensures h.Valid()
    ensures forall n :: off + |src| <= n <= h.bs[k].size ==>
      Data(h.mem[..], h.base, ptr, n) == Splice(Data(old(h.mem[..]), h.base, ptr, n), off, src)
    ensures forall j :: 0 <= j < |h.bs| && j != k ==>
      h.base <= h.bs[j].addr && SamePayload(old(h.mem[..]), h.mem[..], h.base, h.bs[j])
  {
    hide HeapInv, Rep, Tiles, SamePayload, ByteOf, WithByte, Data;
    ghost var m0, b := h.mem[..], h.bs[k];
    BlockIn(h, k);
    var i := 0;
    while i < |src|
      invariant 0 <= i <= |src| && AgreeOffPayload(m0, h.mem[..], h.base, b)
      invariant Poked(m0, h.mem[..], h.base, b, off, src[..i])
    {
      var a := ptr - h.base + off + i;
      ghost var m1 := h.mem[..];
      h.mem[a / 4] := WithByte(h.mem[a / 4], a % 4, src[i]);
      assert h.mem[..] == m1[a / 4 := WithByte(m1[a / 4], a % 4, src[i])];
      PokeStep(m0, m1, h.base, b, off, src, i);
      i := i + 1;
    }
    assert src[..i] == src;
    HeapTiles(h.bs, h.base, h.total);
    PayloadWritten(m0, h.mem[..], h.base, h.base + h.total, h.bs, k);
    PokedData(m0, h.mem[..], h.base, b, off, src);
  }

  lemma HeapTiles(bs: seq<Block>, base: nat, total: nat)
    requires HeapInv(bs, base, total)
    ensures Tiles(bs, base, base + total)
  {
  }

  lemma BlockIn(h: KernelHeap, k: nat)
    requires h.Valid() && k < |h.bs|
    ensures h.base <= h.bs[k].addr && (h.bs[k].addr - h.base) % 4 == 0 && h.bs[k].End() - h.base <= 4 * h.mem.Length
  {
    hide Tiles, Header;
    TilesAt(h.bs, h.base, h.base + h.total, k);
  }

  /** The payload reads as before, with `src` at `off`. */
  ghost predicate Poked(m0: seq<nat>, m: seq<nat>, base: nat, b: Block, off: nat, src: seq<Byte>) {
    forall x :: 0 <= x < b.size ==>
      ByteAt(m, base, b.Payload(), x)
        == if off <= x < off + |src| then src[x - off] else ByteAt(m0, base, b.Payload(), x)
  }

  lemma PokeStep(m0: seq<nat>, m: seq<nat>, base: nat, b: Block, off: nat, src: seq<Byte>, i: nat)
    requires base <= b.addr && (b.addr - base) % 4 == 0 && b.End() - base <= 4 * |m| && i < |src|
    requires off + |src| <= b.size
    requires AgreeOffPayload(m0, m, base, b) && Poked(m0, m, base, b, off, src[..i])
    ensures var a := b.Payload() - base + off + i; var m' := m[a / 4 := WithByte(m[a / 4], a % 4, src[i])];
      AgreeOffPayload(m0, m', base, b) && Poked(m0, m', base, b, off, src[..i + 1])
  {
    hide ByteOf, WithByte;
    var a := b.Payload() - base + off + i;
    var m' := m[a / 4 := WithByte(m[a / 4], a % 4, src[i])];
    assert InPayload(base, b, a / 4);
    forall x | 0 <= x < b.size
      ensures ByteAt(m', base, b.Payload(), x) == if x == off + i then src[i] else ByteAt(m, base, b.Payload(), x)
    {
      var y := b.Payload() - base + x;
      ByteAfter(m[a / 4], a % 4, src[i], y % 4);
    }
  }

  lemma PokedData(m0: seq<nat>, m: seq<nat>, base: nat, b: Block, off: nat, src: seq<Byte>)
    requires Poked(m0, m, base, b, off, src) && off + |src| <= b.size
    ensures forall n :: off + |src| <= n <= b.size ==>
      Data(m, base, b.Payload(), n) == Splice(Data(m0, base, b.Payload(), n), off, src)
  {
    hide ByteAt, Splice;
    forall n | off + |src| <= n <= b.size
      ensures Data(m, base, b.Payload(), n) == Splice(Data(m0, base, b.Payload(), n), off, src)
    {
      var r := Splice(Data(m0, base, b.Payload(), n), off, src);
      assert forall x :: 0 <= x < n ==> Data(m, base, b.Payload(), n)[x] == ByteAt(m, base, b.Payload(), x) == r[x];
    }
  }
}
