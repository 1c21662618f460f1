/** Where the heap and the frame pool live: both pick the largest usable region of the BIOS memory map. */
module Regions {
  import opened Bytes
  import Blocks

  const MIB: nat := 0x10_0000
  const FRAME_SIZE: nat := 4096
  const FRAMES_MAX: nat := 16384
  const IDENTITY_LIMIT: nat := 256 * MIB
  const QWORD: nat := 0x1_0000_0000_0000_0000

  datatype Entry = Entry(base: nat, length: nat, usable: bool)

  datatype Region = Region(base: nat, length: nat)

  predicate Candidate(e: Entry) { e.usable && e.base >= MIB }

  /** The entries the kernel looks at. */
  function Seen(map_: seq<Entry>): seq<Entry> { if |map_| > 64 then map_[..64] else map_ }

  /** `r` is a longest candidate of `es`, the first of that length; length 0 if there is none. */
  ghost predicate IsBest(es: seq<Entry>, r: Region) {
    && (forall i :: 0 <= i < |es| && Candidate(es[i]) ==> es[i].length <= r.length)
    && (r.length == 0 ==> r.base == 0)
    && (r.length > 0 ==>
          exists i :: 0 <= i < |es| && Candidate(es[i]) && es[i].base == r.base && es[i].length == r.length
            && forall j :: 0 <= j < i && Candidate(es[j]) ==> es[j].length < r.length)
  }

  /** There is at most one such region: both initialisers choose the same one. */
  lemma BestUnique(es: seq<Entry>, r: Region, s: Region)
    requires IsBest(es, r) && IsBest(es, s)
    ensures r == s
  {
    if r.length > 0 && s.length > 0 {
      var i :| 0 <= i < |es| && Candidate(es[i]) && es[i].base == r.base && es[i].length == r.length
        && forall j :: 0 <= j < i && Candidate(es[j]) ==> es[j].length < r.length;
      var k :| 0 <= k < |es| && Candidate(es[k]) && es[k].base == s.base && es[k].length == s.length
        && forall j :: 0 <= j < k && Candidate(es[j]) ==> es[j].length < s.length;
      assert i == k;
    }
  }

  /** The selection loop of heap_init and frame_init. */
  method Select(map_: seq<Entry>) returns (r: Region)
    ensures IsBest(Seen(map_), r)
  {
    var base, len := 0, 0;
    var i := 0;
    ghost var es := Seen(map_);
    while i < |map_| && i < 64
      invariant 0 <= i <= |es| && IsBest(es[..i], Region(base, len))
    {
      ghost var before := Region(base, len);
      if Candidate(map_[i]) && map_[i].length > len {
        base, len := map_[i].base, map_[i].length;
      }
      BestStep(es, i, before, Region(base, len));
      i := i + 1;
    }
    assert es[..i] == es;
    r := Region(base, len);
  }

  lemma BestStep(es: seq<Entry>, i: nat, r: Region, s: Region)
    requires i < |es| && IsBest(es[..i], r)
    requires s == if Candidate(es[i]) && es[i].length > r.length then Region(es[i].base, es[i].length) else r
    ensures IsBest(es[..i + 1], s)
  {
    var a, b := es[..i], es[..i + 1];
    assert forall j :: 0 <= j < i ==> b[j] == a[j] == es[j];
    if s == r {
      if r.length > 0 {
        var k :| 0 <= k < |a| && Candidate(a[k]) && a[k].base == r.base && a[k].length == r.length
          && forall j :: 0 <= j < k && Candidate(a[j]) ==> a[j].length < r.length;
        assert Candidate(b[k]) && forall j :: 0 <= j < k && Candidate(b[j]) ==> b[j].length < r.length;
      }
    } else {
      assert Candidate(b[i]) && forall j :: 0 <= j < i && Candidate(b[j]) ==> b[j].length < s.length;
    }
  }

  /** The heap: the start of the region, at most 8 MiB (addresses are cut to 32 bits). */
  function HeapOf(r: Region): Region {
    Region(r.base % DWORD, if r.length > Blocks.HEAP_MAX then Blocks.HEAP_MAX else r.length)
  }

  function RoundUp(x: nat): nat { (x + (FRAME_SIZE - 1)) / FRAME_SIZE * FRAME_SIZE }

  /** End of what the pool may use. */
  function PoolEnd(r: Region): nat {
    if r.base + r.length > IDENTITY_LIMIT then IDENTITY_LIMIT else r.base + r.length
  }

  /** The pool: base address and number of frames; the difference is taken in 64 bits. */
  function PoolOf(r: Region): (nat, nat) {
    var start, end := r.base + Blocks.HEAP_MAX, PoolEnd(r);
    if r.length <= Blocks.HEAP_MAX || start >= end then (0, 0)
    else
      var base := RoundUp(start);
      var count := (end - base) % QWORD / FRAME_SIZE % DWORD;
      (base, if count > FRAMES_MAX then FRAMES_MAX else count)
  }

  lemma RoundUpBounds(x: nat)
    ensures x <= RoundUp(x) < x + FRAME_SIZE && RoundUp(x) % FRAME_SIZE == 0
    ensures x % FRAME_SIZE == 0 ==> RoundUp(x) == x
  {
  }

  /** The heap and the pool never overlap, whatever the map. */
  lemma HeapAndPoolDisjoint(r: Region)
    requires r.base + r.length < QWORD
    ensures PoolOf(r).1 > 0 ==> HeapOf(r).base + HeapOf(r).length <= PoolOf(r).0
  {
    RoundUpBounds(r.base + Blocks.HEAP_MAX);
  }

  /**
   * The pool lies between the heap and the end of the region, below the identity
   * limit, exactly when rounding its start up to a page does not pass that end;
   * a page-aligned region always meets this.
   */
  lemma PoolInside(r: Region)
    requires r.base + r.length < QWORD && r.length > Blocks.HEAP_MAX && r.base + Blocks.HEAP_MAX < PoolEnd(r)
    ensures PoolOf(r).0 + FRAME_SIZE * PoolOf(r).1 <= PoolEnd(r) <==> RoundUp(r.base + Blocks.HEAP_MAX) <= PoolEnd(r)
    ensures PoolEnd(r) <= IDENTITY_LIMIT
    ensures r.base % FRAME_SIZE == 0 && r.length % FRAME_SIZE == 0 ==> RoundUp(r.base + Blocks.HEAP_MAX) <= PoolEnd(r)
  {
    var base, end := RoundUp(r.base + Blocks.HEAP_MAX), PoolEnd(r);
    RoundUpBounds(r.base + Blocks.HEAP_MAX);
    if base <= end {
      assert (end - base) % QWORD == end - base;
    }
  }

  /** Up to its limit the pool holds every whole page between the heap and the end of the region. */
  lemma PoolFills(r: Region, a: nat)
    requires r.base + r.length < QWORD && r.length > Blocks.HEAP_MAX && a % FRAME_SIZE == 0
    requires RoundUp(r.base + Blocks.HEAP_MAX) <= PoolEnd(r)
    requires r.base + Blocks.HEAP_MAX <= a && a + FRAME_SIZE <= PoolEnd(r)
    ensures PoolOf(r).0 <= a && (PoolOf(r).1 == FRAMES_MAX || a < PoolOf(r).0 + FRAME_SIZE * PoolOf(r).1)
  {
    var base, end := RoundUp(r.base + Blocks.HEAP_MAX), PoolEnd(r);
    RoundUpBounds(r.base + Blocks.HEAP_MAX);
    assert (end - base) % QWORD == end - base;
    assert (end - base) / FRAME_SIZE % DWORD == (end - base) / FRAME_SIZE;
  }

  /** A region whose last page is not reached: the 64-bit difference wraps and the pool runs past the end. */
  lemma PoolOverrun()
    ensures var r := Region(MIB + 1, Blocks.HEAP_MAX + 16);
      PoolOf(r).1 == FRAMES_MAX && PoolOf(r).0 + FRAME_SIZE * PoolOf(r).1 > PoolEnd(r)
  {
    var r := Region(MIB + 1, Blocks.HEAP_MAX + 16);
    assert RoundUp(r.base + Blocks.HEAP_MAX) == MIB + Blocks.HEAP_MAX + FRAME_SIZE;
    assert PoolEnd(r) - RoundUp(r.base + Blocks.HEAP_MAX) == 17 - 4096;
    assert (17 - 4096) % QWORD / FRAME_SIZE % DWORD == 0xFFFF_FFFF;
  }
}
