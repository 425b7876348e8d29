/** The physical frame allocator: a bitmap of 4 KiB frames, edited bit by bit, and a free count beside it. */
module Pmm {

  const FRAME_SIZE: nat := 4096
  const MAX_PHYS: nat := 256 * 1024 * 1024
  const MAX_FRAMES: nat := 65536
  const BITMAP_BYTES: nat := 8192

  // ---- bits --------------------------------------------------------------------------------------------

  function Mask(k: nat): bv8
    requires k < 8
  {
    match k
    case 0 => 1
    case 1 => 2
    case 2 => 4
    case 3 => 8
    case 4 => 16
    case 5 => 32
    case 6 => 64
    case _ => 128
  }

  predicate Bit(b: bv8, k: nat)
    requires k < 8
  {
    b & Mask(k) != 0
  }

  lemma SetBit(b: bv8, k: nat, j: nat)
    requires k < 8 && j < 8
    ensures Bit(b | Mask(k), j) <==> j == k || Bit(b, j)
  {
    if j == k {
      MaskSelf(b, k);
    } else {
      MasksApart(k, j);
      OrApart(b, Mask(k), Mask(j));
    }
  }

  lemma ClearBit(b: bv8, k: nat, j: nat)
    requires k < 8 && j < 8
    ensures Bit(b & !Mask(k), j) <==> j != k && Bit(b, j)
  {
    if j == k {
      AndNot(b, Mask(k));
    } else {
      MasksApart(k, j);
      AndNotApart(b, Mask(k), Mask(j));
    }
  }

  lemma MaskSelf(b: bv8, k: nat)
    requires k < 8
    ensures (b | Mask(k)) & Mask(k) != 0
  {
    var m := Mask(k);
    assert (b | m) & m == m;
  }

  lemma MasksApart(k: nat, j: nat)
    requires k < 8 && j < 8 && k != j
    ensures Mask(k) & Mask(j) == 0
  {
  }

  lemma OrApart(b: bv8, m: bv8, n: bv8)
    requires m & n == 0
    ensures (b | m) & n == b & n
  {
  }

  lemma AndNot(b: bv8, m: bv8)
    ensures (b & !m) & m == 0
  {
  }

  lemma AndNotApart(b: bv8, m: bv8, n: bv8)
    requires m & n == 0
    ensures (b & !m) & n == b & n
  {
  }

  // ---- counting ----------------------------------------------------------------------------------------

  /** How many frames are free. */
  function CountFree(used: seq<bool>): (n: nat)
    ensures n <= |used|
  {
    if used == [] then 0 else CountFree(used[..|used| - 1]) + if used[|used| - 1] then 0 else 1
  }

  lemma {:induction false} CountUpdate(used: seq<bool>, f: nat, b: bool)
    requires f < |used|
    ensures CountFree(used[f := b]) + (if b then 1 else 0) == CountFree(used) + (if used[f] then 1 else 0)
  {
    var last := |used| - 1;
    if f < last {
      CountUpdate(used[..last], f, b);
      assert used[f := b][..last] == used[..last][f := b];
    } else {
      assert used[f := b][..last] == used[..last];
    }
  }

  /** No free frame is counted as none, and only then. */
  lemma {:induction false} CountZero(used: seq<bool>)
    ensures CountFree(used) == 0 <==> forall f :: 0 <= f < |used| ==> used[f]
  {
    if used != [] {
      var last := |used| - 1;
      CountZero(used[..last]);
      assert forall f :: 0 <= f < last ==> used[..last][f] == used[f];
    }
  }

  /** One entry of the loader's memory map. */
  datatype Region = Region(kind: nat, addr: nat, len: nat)

  /** Frame f is wholly inside an available region below the cap. */
  predicate Available(regions: seq<Region>, f: nat) {
    exists r :: r in regions && Covers(r, f)
  }

  predicate Covers(r: Region, f: nat) {
    r.kind == 1 && r.addr <= f * FRAME_SIZE && (f + 1) * FRAME_SIZE <= r.addr + r.len
        && (f + 1) * FRAME_SIZE <= MAX_PHYS
  }

  /** Frame f is reserved with one of the ranges: it starts at or after the range's first page and before its end. */
  predicate Touched(ranges: seq<(nat, nat)>, f: nat) {
    exists k :: 0 <= k < |ranges| && Touches(ranges[k], f)
  }

  predicate Touches(range: (nat, nat), f: nat) {
    range.0 / FRAME_SIZE * FRAME_SIZE <= f * FRAME_SIZE < range.1
  }

  class Allocator {
    const bitmap: array<bv8>
    var freeFrames: nat

    ghost predicate Shaped() {
      bitmap.Length == BITMAP_BYTES
    }

    predicate Test(f: nat)
      requires bitmap.Length == BITMAP_BYTES && f < MAX_FRAMES
      reads this, bitmap
    {
      Bit(bitmap[f / 8], f % 8)
    }

    /** The abstract state: which frames are in use. */
    ghost function Used(): (u: seq<bool>)
      requires Shaped()
      reads this, bitmap
      ensures |u| == MAX_FRAMES && forall f :: 0 <= f < MAX_FRAMES ==> u[f] == Test(f)
    {
      seq(MAX_FRAMES, f requires 0 <= f < MAX_FRAMES reads this, bitmap => Test(f))
    }

    /** The free count is the number of clear bits. */
    ghost predicate Valid()
      reads this, bitmap
    {
      Shaped() && freeFrames == CountFree(Used())
    }

    constructor ()
      ensures Valid() && fresh(bitmap) && forall f :: 0 <= f < MAX_FRAMES ==> Used()[f]
    {
      bitmap := new bv8[BITMAP_BYTES](_ => 0xFF);
      freeFrames := 0;
      new;
      forall f | 0 <= f < MAX_FRAMES ensures Test(f) { AllOnes(f % 8); }
      CountZero(Used());
    }

    method MarkUsed(f: nat)
      requires Valid() && f < MAX_FRAMES && !Test(f)
      modifies this, bitmap
      ensures Valid() && Used() == old(Used())[f := true] && freeFrames == old(freeFrames) - 1
    {
      ghost var u := Used();
      bitmap[f / 8] := bitmap[f / 8] | Mask(f % 8);
      forall g | 0 <= g < MAX_FRAMES ensures Test(g) == u[f := true][g] {
        SetBit(old(bitmap[f / 8]), f % 8, g % 8);
      }
      assert Used() == u[f := true];
      CountUpdate(u, f, true);
      freeFrames := freeFrames - 1;
      assert Used() == u[f := true];
    }

    method MarkFree(f: nat)
      requires Valid() && f < MAX_FRAMES && Test(f)
      modifies this, bitmap
      ensures Valid() && Used() == old(Used())[f := false] && freeFrames == old(freeFrames) + 1
    {
      ghost var u := Used();
      bitmap[f / 8] := bitmap[f / 8] & !Mask(f % 8);
      forall g | 0 <= g < MAX_FRAMES ensures Test(g) == u[f := false][g] {
        ClearBit(old(bitmap[f / 8]), f % 8, g % 8);
      }
      assert Used() == u[f := false];
      CountUpdate(u, f, false);
      freeFrames := freeFrames + 1;
      assert Used() == u[f := false];
    }

    /** Marks every frame the byte range touches. */
    method ReserveRange(start: nat, end: nat)
      requires Valid()
      modifies this, bitmap
      ensures Valid()
      ensures forall f :: 0 <= f < MAX_FRAMES ==> (Used()[f] <==> old(Used())[f] || Touches((start, end), f))
    {
      ghost var u := Used();
      var p := start / FRAME_SIZE * FRAME_SIZE;
      while p < end
        invariant Valid() && p % FRAME_SIZE == 0 && start / FRAME_SIZE * FRAME_SIZE <= p
        invariant forall f :: 0 <= f < MAX_FRAMES ==>
                    (Used()[f] <==> u[f] || (Touches((start, end), f) && f < p / FRAME_SIZE))
        decreases end - p
      {
        var f := p / FRAME_SIZE;
        if f < MAX_FRAMES && !Test(f) {
          MarkUsed(f);
        }
        p := p + FRAME_SIZE;
      }
    }

    /** Frees the whole frames of one available region. */
    method FreeRegion(r: Region)
      requires Valid() && r.kind == 1 && r.addr < MAX_PHYS
      modifies this, bitmap
      ensures Valid()
      ensures forall f :: 0 <= f < MAX_FRAMES ==> (!Used()[f] <==> !old(Used())[f] || Covers(r, f))
    {
      ghost var u := Used();
      var s, top := r.addr, r.addr + r.len;
      var l := if top > MAX_PHYS then MAX_PHYS - s else r.len;
      var f0, f1 := (s + FRAME_SIZE - 1) / FRAME_SIZE, (s + l) / FRAME_SIZE;
      var f := f0;
      while f < f1 && f < MAX_FRAMES
        invariant Valid() && f0 <= f
        invariant forall g :: 0 <= g < MAX_FRAMES ==> (!Used()[g] <==> !u[g] || (Covers(r, g) && g < f))
      {
        if Test(f) {
          MarkFree(f);
        }
        f := f + 1;
      }
    }

    /** Everything used; available regions freed; then the low mebibyte, the image and the modules reserved. */
    method Init(regions: seq<Region>, kernelEnd: nat, modules: seq<(nat, nat)>)
      requires Valid() && forall f :: 0 <= f < MAX_FRAMES ==> Used()[f]
      modifies this, bitmap
      ensures Valid()
      ensures forall f :: 0 <= f < MAX_FRAMES ==>
                (!Used()[f] <==> Available(regions, f) && !Touches((0, 0x100000), f)
                                 && !Touches((0x100000, kernelEnd), f) && !Touched(modules, f))
      ensures Used()[0]
    {
      var i := 0;
      while i < |regions|
        invariant 0 <= i <= |regions| && Valid()
        invariant forall f :: 0 <= f < MAX_FRAMES ==> (!Used()[f] <==> Available(regions[..i], f))
      {
        var r := regions[i];
        assert regions[..i + 1] == regions[..i] + [r];
        if r.kind == 1 && r.addr < MAX_PHYS {
          FreeRegion(r);
        }
        i := i + 1;
      }
      assert regions[..i] == regions;
      ReserveRange(0, 0x100000);
      ReserveRange(0x100000, kernelEnd);
      assert Touches((0, 0x100000), 0);
      ghost var u := Used();
      i := 0;
      while i < |modules|
        invariant 0 <= i <= |modules| && Valid()
        invariant forall f :: 0 <= f < MAX_FRAMES ==> (Used()[f] <==> u[f] || Touched(modules[..i], f))
      {
        assert modules[..i + 1] == modules[..i] + [modules[i]];
        TouchedSnoc(modules[..i], modules[i]);
        ReserveRange(modules[i].0, modules[i].1);
        i := i + 1;
      }
      assert modules[..i] == modules;
    }

    /** The lowest free frame, or 0 when none is left. */
    method Alloc() returns (f: nat)
      requires Valid() && Used()[0]
      modifies this, bitmap
      ensures Valid() && Used()[0]
      ensures f == 0 <==> old(freeFrames) == 0
      ensures f == 0 ==> Used() == old(Used()) && freeFrames == old(freeFrames)
      ensures f != 0 ==> f < MAX_FRAMES && !old(Used())[f] && Used() == old(Used())[f := true]
                         && freeFrames == old(freeFrames) - 1
      ensures f != 0 ==> forall g :: 0 <= g < f ==> old(Used())[g]
    {
      f := 0;
      while f < MAX_FRAMES
        invariant 0 <= f <= MAX_FRAMES
        invariant forall g :: 0 <= g < f ==> Used()[g]
      {
        if !Test(f) {
          CountZero(Used());
          MarkUsed(f);
          return f;
        }
        f := f + 1;
      }
      CountZero(Used());
      return 0;
    }

    /** Freeing a frame that is free, or beyond the range, does nothing. */
    method Free(f: nat)
      requires Valid()
      modifies this, bitmap
      ensures Valid()
      ensures Used() == if f < MAX_FRAMES then old(Used())[f := false] else old(Used())
    {
      if f < MAX_FRAMES && Test(f) {
        MarkFree(f);
      }
    }
  }

  lemma AllOnes(k: nat)
    requires k < 8
    ensures Bit(0xFF, k)
  {
  }

  lemma TouchedSnoc(ranges: seq<(nat, nat)>, r: (nat, nat))
    ensures forall f: nat :: Touched(ranges + [r], f) <==> Touched(ranges, f) || Touches(r, f)
  {
    forall f: nat ensures Touched(ranges + [r], f) <==> Touched(ranges, f) || Touches(r, f) {
      if Touches(r, f) {
        assert Touches((ranges + [r])[|ranges|], f);
      }
      if Touched(ranges, f) {
        var k :| 0 <= k < |ranges| && Touches(ranges[k], f);
        assert Touches((ranges + [r])[k], f);
      }
    }
  }
}
