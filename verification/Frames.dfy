/** Physical frames: a bitmap allocator over a pool of 4 KiB frames. */
module Frames {
  import opened Bytes
  import opened Regions

  type Frame = f: seq<Byte> | |f| == 4096 witness seq(4096, _ => 0)

  const ZERO_FRAME: Frame := Zeros(4096)

  function Bit(b: bv8, j: nat): bool
    requires j < 8
  {
    b & (1 << j) != 0
  }

  lemma SetBit(b: bv8, j: nat, k: nat)
    requires j < 8 && k < 8
    ensures Bit(b | (1 << j), k) == (k == j || Bit(b, k))
  {
    OneBit(j);
    OneBit(k);
  }

  lemma ClearBit(b: bv8, j: nat, k: nat)
    requires j < 8 && k < 8
    ensures Bit(b & !(1 << j), k) == (k != j && Bit(b, k))
  {
    OneBit(j);
    OneBit(k);
  }

  lemma OneBit(j: nat)
    requires j < 8
    ensures (1 as bv8) << j == [1, 2, 4, 8, 16, 32, 64, 128][j]
  {
    assert j == 0 || j == 1 || j == 2 || j == 3 || j == 4 || j == 5 || j == 6 || j == 7;
  }

  /** Bit `i` of the bitmap. */
  function Taken(bits: seq<bv8>, i: nat): bool
    requires i / 8 < |bits|
  {
    Bit(bits[i / 8], i % 8)
  }

  ghost function UsedIn(bits: seq<bv8>, count: nat): set<nat>
    requires count <= 8 * |bits|
  {
    set i: nat | i < count && Taken(bits, i)
  }

  lemma TakenAfterSet(bits: seq<bv8>, i: nat, k: nat)
    requires i / 8 < |bits| && k / 8 < |bits|
    ensures Taken(bits[i / 8 := bits[i / 8] | (1 << (i % 8))], k) == (k == i || Taken(bits, k))
  {
    if k / 8 == i / 8 { SetBit(bits[i / 8], i % 8, k % 8); }
  }

  lemma TakenAfterClear(bits: seq<bv8>, i: nat, k: nat)
    requires i / 8 < |bits| && k / 8 < |bits|
    ensures Taken(bits[i / 8 := bits[i / 8] & !(1 << (i % 8))], k) == (k != i && Taken(bits, k))
  {
    if k / 8 == i / 8 { ClearBit(bits[i / 8], i % 8, k % 8); }
  }

  lemma UsedAfterSet(bits: seq<bv8>, count: nat, i: nat)
    requires count <= 8 * |bits| && i < count
    ensures UsedIn(bits[i / 8 := bits[i / 8] | (1 << (i % 8))], count) == UsedIn(bits, count) + {i}
  {
    hide Taken;
    var bits' := bits[i / 8 := bits[i / 8] | (1 << (i % 8))];
    forall k: nat | k < count ensures Taken(bits', k) == (k == i || Taken(bits, k)) {
      TakenAfterSet(bits, i, k);
    }
  }

  lemma UsedAfterClear(bits: seq<bv8>, count: nat, i: nat)
    requires count <= 8 * |bits| && i < count
    ensures UsedIn(bits[i / 8 := bits[i / 8] & !(1 << (i % 8))], count) == UsedIn(bits, count) - {i}
  {
    hide Taken;
    var bits' := bits[i / 8 := bits[i / 8] & !(1 << (i % 8))];
    forall k: nat | k < count ensures Taken(bits', k) == (k != i && Taken(bits, k)) {
      TakenAfterClear(bits, i, k);
    }
  }

  /** The indices below `n`. */
  ghost function UpTo(n: nat): (r: set<nat>)
    ensures forall i: nat :: i in r <==> i < n
    ensures |r| == n
  {
    if n == 0 then {} else UpTo(n - 1) + {n - 1}
  }

  lemma OneMore(a: set<nat>, k: nat)
    requires k !in a
    ensures |a + {k}| == |a| + 1
  {
  }

  lemma UsedBounded(bits: seq<bv8>, count: nat)
    requires count <= 8 * |bits|
    ensures |UsedIn(bits, count)| <= count
  {
    SubsetSize(UsedIn(bits, count), UpTo(count));
  }

  lemma {:induction false} SubsetSize<T>(a: set<T>, b: set<T>)
    requires a <= b
    ensures |a| <= |b|
    decreases a
  {
    if a != {} {
      var x :| x in a;
      SubsetSize(a - {x}, b - {x});
    }
  }

  class FramePool {
    const base: nat
    const count: nat
    const bitmap: array<bv8>
    var freeFrames: int
    var mem: seq<Frame>     // contents of the frames, by index

    /** The pool is page aligned, addressable below the identity limit, and the counter matches the bitmap. */
    ghost predicate Valid()
      reads this, bitmap
    {
      && 0 < base && base % 4096 == 0 && base + 4096 * count <= IDENTITY_LIMIT
      && bitmap.Length == FRAMES_MAX / 8 && count <= FRAMES_MAX && |mem| == count
      && 0 <= freeFrames == count - |Used()|
    }

    ghost function Used(): set<nat>
      requires count <= 8 * bitmap.Length
      reads this, bitmap
    {
      UsedIn(bitmap[..], count)
    }

    function Addr(i: nat): nat { base + 4096 * i }

    /** frame_init over a pool found by PoolOf. */
    constructor (base: nat, count: nat)
      requires 0 < base && base % 4096 == 0 && base + 4096 * count <= IDENTITY_LIMIT && count <= FRAMES_MAX
      ensures Valid() && fresh(bitmap) && this.base == base && this.count == count
      ensures Used() == {} && freeFrames == count
    {
      this.base, this.count := base, count;
      bitmap := new bv8[FRAMES_MAX / 8](_ => 0);
      freeFrames := count;
      mem := seq(count, _ => ZERO_FRAME);
      new;
      assert forall i: nat :: i < count ==> !Taken(bitmap[..], i);
      assert Used() == {};
    }

    /** frame_alloc: the lowest free frame, number `i`, zeroed; 0 when there is none. */
    method Alloc() returns (phys: nat, ghost i: nat)
      requires Valid()
      modifies this`freeFrames, this`mem, bitmap
      ensures Valid()
      ensures phys == 0 <==> |old(Used())| == count
      ensures phys == 0 ==> mem == old(mem) && Used() == old(Used()) && freeFrames == old(freeFrames)
      ensures phys != 0 ==> i < count && i !in old(Used()) && phys == Addr(i) && forall j: nat :: j < i ==>
        j in old(Used())
      ensures phys != 0 ==> Used() == old(Used()) + {i} && mem == old(mem)[i := ZERO_FRAME]
      ensures phys == 0 <==> old(freeFrames) == 0
      ensures phys != 0 ==> freeFrames == old(freeFrames) - 1
    {
      hide UsedIn;
      var k := 0;
      while k < count
        invariant 0 <= k <= count && forall j: nat :: j < k ==> Taken(bitmap[..], j)
      {
        if bitmap[k / 8] & (1 << (k % 8)) == 0 {
          forall j: nat | j < k ensures j in Used() { IsUsed(bitmap[..], count, j); }
          Claim(k);
          return base + k * 4096, k;
        }
        k := k + 1;
      }
      AllTaken(bitmap[..], count);
      return 0, 0;
    }

    /** Marks a free frame and clears it. */
    method Claim(k: nat)
      requires Valid() && k < count && !Taken(bitmap[..], k)
      modifies this`freeFrames, this`mem, bitmap
      ensures Valid() && k !in old(Used()) && Used() == old(Used()) + {k} && mem == old(mem)[k := ZERO_FRAME]
      ensures |old(Used())| < count && freeFrames == old(freeFrames) - 1
    {
      hide UsedIn, Taken;
      ghost var bits := bitmap[..];
      UsedAfterSet(bits, count, k);
      NotUsed(bits, count, k);
      OneMore(UsedIn(bits, count), k);
      bitmap[k / 8] := bitmap[k / 8] | (1 << (k % 8));
      assert bitmap[..] == bits[k / 8 := bits[k / 8] | (1 << (k % 8))];
      freeFrames := freeFrames - 1;
      mem := mem[k := ZERO_FRAME];
      UsedBounded(bitmap[..], count);
    }

    /** frame_free: addresses outside the pool and free frames are ignored. */
    method Free(phys: nat)
      requires Valid()
      modifies this`freeFrames, bitmap
      ensures Valid() && Used() == old(Used()) - (if phys < base then {} else {(phys - base) / 4096})
    {
      hide UsedIn;
      if phys < base {
        return;
      }
      var i := (phys - base) / 4096;
      if i >= count || bitmap[i / 8] & (1 << (i % 8)) == 0 {
        NotUsed(bitmap[..], count, i);
        return;
      }
      ghost var bits := bitmap[..];
      UsedAfterClear(bits, count, i);
      IsUsed(bits, count, i);
      bitmap[i / 8] := bitmap[i / 8] & !(1 << (i % 8));
      assert bitmap[..] == bits[i / 8 := bits[i / 8] & !(1 << (i % 8))];
      freeFrames := freeFrames + 1;
    }
  }

  lemma NotUsed(bits: seq<bv8>, count: nat, i: nat)
    requires count <= 8 * |bits| && (i < count ==> !Taken(bits, i))
    ensures i !in UsedIn(bits, count)
  {
  }

  lemma IsUsed(bits: seq<bv8>, count: nat, i: nat)
    requires count <= 8 * |bits| && i < count && Taken(bits, i)
    ensures i in UsedIn(bits, count)
  {
  }

  lemma AllTaken(bits: seq<bv8>, count: nat)
    requires count <= 8 * |bits| && forall k: nat :: k < count ==> Taken(bits, k)
    ensures |UsedIn(bits, count)| == count
  {
    assert UsedIn(bits, count) == UpTo(count);
  }
}
