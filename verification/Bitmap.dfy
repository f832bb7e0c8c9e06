/** Bitmaps of 32-bit words, as kern/env.c keeps for ASIDs and fs/fs.c keeps for disk blocks. */
module Bitmap {

  /** 1 << b */
  function Mask(b: nat): (m: bv32)
    requires b < 32
    ensures m != 0 && m & (m - 1) == 0
  {
    if b < 16 then
      if b < 8 then
        if b == 0 then 0x1 else if b == 1 then 0x2 else if b == 2 then 0x4 else if b == 3 then 0x8 else
        if b == 4 then 0x10 else if b == 5 then 0x20 else if b == 6 then 0x40 else 0x80
      else
        if b == 8 then 0x100 else if b == 9 then 0x200 else if b == 10 then 0x400 else if b == 11 then 0x800 else
        if b == 12 then 0x1000 else if b == 13 then 0x2000 else if b == 14 then 0x4000 else 0x8000
    else
      if b < 24 then
        if b == 16 then 0x1_0000 else if b == 17 then 0x2_0000 else if b == 18 then 0x4_0000 else
        if b == 19 then 0x8_0000 else if b == 20 then 0x10_0000 else if b == 21 then 0x20_0000 else
        if b == 22 then 0x40_0000 else 0x80_0000
      else
        if b == 24 then 0x100_0000 else if b == 25 then 0x200_0000 else if b == 26 then 0x400_0000 else
        if b == 27 then 0x800_0000 else if b == 28 then 0x1000_0000 else if b == 29 then 0x2000_0000 else
        if b == 30 then 0x4000_0000 else 0x8000_0000
  }

  lemma MaskDoubles(b: nat)
    requires b < 31
    ensures Mask(b + 1) > Mask(b)
  {
  }

  lemma MasksGrow(a: nat, b: nat)
    requires a < b < 32
    ensures Mask(a) < Mask(b)
    decreases b
  {
    hide Mask;
    MaskDoubles(b - 1);
    if a < b - 1 {
      MasksGrow(a, b - 1);
    }
  }

  lemma PowersAreDisjoint(x: bv32, y: bv32)
    requires x != 0 && x & (x - 1) == 0 && y != 0 && y & (y - 1) == 0 && x != y
    ensures x & y == 0
  {
  }

  lemma MasksAreDisjoint(a: nat, b: nat)
    requires a < 32 && b < 32 && a != b
    ensures Mask(a) & Mask(b) == 0
  {
    hide Mask;
    if a < b { MasksGrow(a, b); } else { MasksGrow(b, a); }
    PowersAreDisjoint(Mask(a), Mask(b));
  }

  /** Bit i of the bitmap. */
  predicate Test(w: seq<bv32>, i: nat)
    requires i < 32 * |w|
  {
    w[i / 32] & Mask(i % 32) != 0
  }

  /** w[i / 32] |= 1 << (i % 32) */
  function SetBit(w: seq<bv32>, i: nat): seq<bv32>
    requires i < 32 * |w|
  {
    w[i / 32 := w[i / 32] | Mask(i % 32)]
  }

  /** w[i / 32] &= ~(1 << (i % 32)) */
  function ClearBit(w: seq<bv32>, i: nat): seq<bv32>
    requires i < 32 * |w|
  {
    w[i / 32 := w[i / 32] & !Mask(i % 32)]
  }

  lemma SameMask(x: bv32, m: bv32)
    ensures (x | m) & m == m && (x & !m) & m == 0
  {
  }

  lemma OtherMask(x: bv32, m: bv32, n: bv32)
    requires m & n == 0
    ensures (x | m) & n == x & n && (x & !m) & n == x & n
  {
  }

  /** Setting and clearing a bit changes that bit and no other. */
  lemma BitWrites(w: seq<bv32>, i: nat, j: nat)
    requires i < 32 * |w| && j < 32 * |w|
    ensures Test(SetBit(w, i), j) <==> i == j || Test(w, j)
    ensures Test(ClearBit(w, i), j) <==> i != j && Test(w, j)
  {
    hide Mask;
    if i / 32 == j / 32 {
      if i % 32 != j % 32 {
        MasksAreDisjoint(i % 32, j % 32);
        OtherMask(w[i / 32], Mask(i % 32), Mask(j % 32));
      } else {
        SameMask(w[i / 32], Mask(i % 32));
      }
    }
  }

  lemma AllBits(w: seq<bv32>, i: nat)
    requires i < 32 * |w|
    ensures |SetBit(w, i)| == |w| == |ClearBit(w, i)|
    ensures forall j: nat :: j < 32 * |w| ==> (Test(SetBit(w, i), j) <==> i == j || Test(w, j))
    ensures forall j: nat :: j < 32 * |w| ==> (Test(ClearBit(w, i), j) <==> i != j && Test(w, j))
  {
    hide Test, Mask;
    forall j: nat | j < 32 * |w|
      ensures Test(SetBit(w, i), j) <==> i == j || Test(w, j)
      ensures Test(ClearBit(w, i), j) <==> i != j && Test(w, j) {
      BitWrites(w, i, j);
    }
  }
}
