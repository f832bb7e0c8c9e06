/** Block ownership of the file system server (fs/fs.c): the bitmap, the block pointers of files, and the
    indirect blocks that hold further pointers.

    A file is named by a number that stands for its `struct File *`. Blocks are arrays of 32-bit words as
    the cache shows them; `cached` says which blocks the cache has. A set bit means that a block is free. */
module FsBlocks {
  import opened Bitmap
  import opened Errors
  import opened Options

  const BY2BLK: nat := 4096
  const NDIRECT: nat := 10
  const NINDIRECT: nat := 1024
  /** struct Files in a block */
  const FILE2BLK: nat := 16
  /** alloc_block_num starts behind the boot, super and first bitmap block. */
  const FIRST_BLOCK: nat := 3

  datatype Inode = Inode(size: nat, direct: seq<nat>, indirect: nat)

  datatype State = State(bitmap: seq<bv32>, blocks: seq<seq<nat>>, cached: set<nat>, files: map<nat, Inode>)

  function NBlocks(s: State): nat { |s.blocks| }

  predicate Shaped(s: State)
  {
    && NBlocks(s) <= 32 * |s.bitmap|
    && (forall b :: 0 <= b < NBlocks(s) ==> |s.blocks[b]| == NINDIRECT)
    && (forall f :: f in s.files ==> |s.files[f].direct| == NDIRECT)
  }

  /** block_is_free */
  predicate IsFree(s: State, b: nat)
    requires Shaped(s)
  {
    b < NBlocks(s) && Test(s.bitmap, b)
  }

  /* ---- The places that hold block numbers ---- */

  datatype Slot = Direct(f: nat, i: nat) | Indirect(f: nat) | Entry(f: nat, i: nat)

  /** The block number in a slot; 0 where there is none. */
  function Value(s: State, p: Slot): nat
    requires Shaped(s)
  {
    if p.f !in s.files then 0 else
    match p
    case Direct(f, i) => if i < NDIRECT then s.files[f].direct[i] else 0
    case Indirect(f) => s.files[f].indirect
    case Entry(f, i) =>
      if NDIRECT <= i < NINDIRECT && 0 < s.files[f].indirect < NBlocks(s) then s.blocks[s.files[f].indirect][i] else 0
  }

  /** The slot of block filebno of file f. */
  function SlotOf(f: nat, filebno: nat): Slot { if filebno < NDIRECT then Direct(f, filebno) else Entry(f, filebno) }

  function WithDirect(n: Inode, i: nat, v: nat): Inode
    requires i < |n.direct|
  {
    var direct: seq<nat> := n.direct[i := v];
    n.(direct := direct)
  }

  /** Store a block number. */
  function SetSlot(s: State, p: Slot, v: nat): (s': State)
    requires Shaped(s) && p.f in s.files
    requires p.Direct? ==> p.i < NDIRECT
    requires p.Entry? ==> p.i < NINDIRECT && s.files[p.f].indirect < NBlocks(s)
    ensures Shaped(s')
  {
    match p
    case Direct(f, i) => s.(files := s.files[f := WithDirect(s.files[f], i, v)])
    case Indirect(f) => s.(files := s.files[f := s.files[f].(indirect := v)])
    case Entry(f, i) =>
      var b := s.files[f].indirect;
      var words: seq<nat> := s.blocks[b][i := v];
      s.(blocks := s.blocks[b := words])
  }

  /* ---- The invariant ---- */

  /** Every block number in a slot is in range and marked used. */
  ghost predicate InUse(s: State)
    requires Shaped(s)
  {
    forall p :: Value(s, p) != 0 ==> FIRST_BLOCK <= Value(s, p) < NBlocks(s) && !IsFree(s, Value(s, p))
  }

  /** No block is in two slots. */
  ghost predicate OnceEach(s: State)
    requires Shaped(s)
  {
    forall p, q :: Value(s, p) != 0 && Value(s, p) == Value(s, q) ==> p == q
  }

  ghost predicate Inv(s: State)
    ensures Inv(s) ==> Shaped(s)
  {
    Shaped(s) && InUse(s) && OnceEach(s)
  }

  /** read_block panics on a block that is out of range or free. */
  predicate CanRead(s: State, b: nat)
    requires Shaped(s)
  {
    b < NBlocks(s) && !IsFree(s, b)
  }

  /** No slot makes read_block panic. */
  lemma SlotsCanBeRead(s: State, p: Slot)
    requires Inv(s) && Value(s, p) != 0
    ensures CanRead(s, Value(s, p))
  {
  }

  /* ---- Operations ---- */

  /** read_block brings the block into the cache. */
  function Cache(s: State, b: nat): State { s.(cached := s.cached + {b}) }

  /** free_block */
  function Free(s: State, b: nat): (s': State)
    requires Shaped(s)
    ensures Shaped(s')
  {
    if b == 0 || b >= NBlocks(s) then s else s.(bitmap := SetBit(s.bitmap, b))
  }

  function FirstFree(s: State, from: nat): (r: Option<nat>)
    requires Shaped(s)
    decreases NBlocks(s) - from
    ensures r.Some? ==> from <= r.value < NBlocks(s) && IsFree(s, r.value)
    ensures r.Some? ==> forall b :: from <= b < r.value ==> !IsFree(s, b)
    ensures r == None ==> forall b :: from <= b < NBlocks(s) ==> !IsFree(s, b)
  {
    if from >= NBlocks(s) then None else if IsFree(s, from) then Some(from) else FirstFree(s, from + 1)
  }

  function ZeroBlock(): (b: seq<nat>) ensures |b| == NINDIRECT { seq(NINDIRECT, _ => 0) }

  datatype Outcome = Outcome(s: State, r: int)

  /** alloc_block. A block that is still in the cache keeps its content; otherwise a page of zero bytes is
      mapped, which fails when mem is false. */
  function Alloc(s: State, mem: bool): (o: Outcome)
    requires Shaped(s)
    ensures Shaped(o.s) && o.s.files == s.files && NBlocks(o.s) == NBlocks(s)
  {
    match FirstFree(s, FIRST_BLOCK)
    case None => Outcome(s, -E_NO_DISK)
    case Some(b) =>
      var s1 := s.(bitmap := ClearBit(s.bitmap, b));
      if b in s.cached then Outcome(s1, b)
      else if mem then Outcome(Cache(s1.(blocks := s1.blocks[b := ZeroBlock()]), b), b)
      else Outcome(Free(s1, b), -E_NO_MEM)
  }

  /** file_block_walk: on success the pointer is that of SlotOf(f, filebno). */
  function Walk(s: State, f: nat, filebno: nat, alloc: bool, mem: bool): (o: Outcome)
    requires Inv(s) && f in s.files
    ensures Shaped(o.s) && o.s.files.Keys == s.files.Keys && NBlocks(o.s) == NBlocks(s)
  {
    if filebno < NDIRECT then Outcome(s, 0)
    else if filebno >= NINDIRECT then Outcome(s, -E_INVAL)
    else if s.files[f].indirect != 0 then Outcome(Cache(s, s.files[f].indirect), 0)
    else if !alloc then Outcome(s, -E_NOT_FOUND)
    else
      var o := Alloc(s, mem);
      if o.r < 0 then o else
      Outcome(Cache(SetSlot(o.s, Indirect(f), o.r), o.r), 0)
  }

  /** The block that the next allocation finds has no words that could pass for block numbers. */
  predicate NextReadsZero(s: State)
    requires Shaped(s)
  {
    var b := FirstFree(s, FIRST_BLOCK);
    b.Some? && b.value in s.cached ==> forall i :: NDIRECT <= i < NINDIRECT ==> s.blocks[b.value][i] == 0
  }

  /** A walk that takes an indirect block takes one whose words are 0. */
  predicate GrowsCleanly(s: State, f: nat, filebno: nat, alloc: bool)
    requires Shaped(s) && f in s.files
  {
    alloc && NDIRECT <= filebno < NINDIRECT && s.files[f].indirect == 0 ==> NextReadsZero(s)
  }

  /** file_map_block, without its result block number */
  function MapBlock(s: State, f: nat, filebno: nat, alloc: bool, mem: bool, mem2: bool): (o: Outcome)
    requires Inv(s) && f in s.files && GrowsCleanly(s, f, filebno, alloc)
  {
    var w := Walk(s, f, filebno, alloc, mem);
    if w.r < 0 then w else
    if Value(w.s, SlotOf(f, filebno)) != 0 then Outcome(w.s, 0) else
    if !alloc then Outcome(w.s, -E_NOT_FOUND) else
    var o := Alloc(w.s, mem2);
    if o.r < 0 then o else
    WalkKeeps(s, f, filebno, alloc, mem);
    Outcome(SetSlot(o.s, SlotOf(f, filebno), o.r), 0)
  }

  /** file_clear_block and free_block_file */
  function ClearBlock(s: State, f: nat, filebno: nat): (o: Outcome)
    requires Inv(s) && f in s.files
    ensures Shaped(o.s)
  {
    var w := Walk(s, f, filebno, false, true);
    if w.r < 0 then w else
    WalkKeeps(s, f, filebno, false, true);
    var p := SlotOf(f, filebno);
    var v := Value(w.s, p);
    if v == 0 then w else Outcome(SetSlot(Free(w.s, v), p, 0), 0)
  }

  /* ---- Steps ---- */

  lemma CacheKeeps(s: State, b: nat)
    requires Shaped(s)
    ensures forall p :: Value(Cache(s, b), p) == Value(s, p)
    ensures Inv(s) <==> Inv(Cache(s, b))
  {
    hide Test;
    assert forall p :: Value(Cache(s, b), p) == Value(s, p);
    assert forall c :: IsFree(Cache(s, b), c) == IsFree(s, c);
  }

  /** Freeing a block that no slot holds. */
  lemma FreeKeeps(s: State, b: nat)
    requires Shaped(s)
    ensures forall p :: Value(Free(s, b), p) == Value(s, p)
    ensures forall c :: IsFree(Free(s, b), c) <==> IsFree(s, c) || (c == b && 0 < b < NBlocks(s))
  {
    if 0 < b < NBlocks(s) { AllBits(s.bitmap, b); }
    hide Test, SetBit;
    assert forall p :: Value(Free(s, b), p) == Value(s, p);
  }

  /** What alloc_block does: on success a free block, in no slot, is marked used. */
  lemma AllocGives(s: State, mem: bool)
    requires Inv(s)
    ensures var o := Alloc(s, mem);
            && Inv(o.s) && (forall p :: Value(o.s, p) == Value(s, p))
            && (o.r < 0 ==> o.r == -E_NO_DISK || o.r == -E_NO_MEM)
               && (o.r == -E_NO_DISK <==> FirstFree(s, FIRST_BLOCK) == None)
            && (o.r < 0 ==> forall c :: IsFree(o.s, c) == IsFree(s, c))
            && (o.r >= 0 ==>
                && FIRST_BLOCK <= o.r < NBlocks(s) && IsFree(s, o.r) && FirstFree(s, FIRST_BLOCK) == Some(o.r)
                && (forall c :: IsFree(o.s, c) <==> IsFree(s, c) && c != o.r)
                && (forall p :: Value(s, p) != o.r)
                && (forall i :: 0 <= i < NINDIRECT ==>
                    o.s.blocks[o.r][i] == if o.r in s.cached then s.blocks[o.r][i] else 0))
  {
    hide Test, ClearBit, SetBit, FirstFree;
    match FirstFree(s, FIRST_BLOCK)
    case None =>
    case Some(b) =>
      FreeBlockInNoSlot(s, b);
      TakeBlock(s, b);
      var s1 := s.(bitmap := ClearBit(s.bitmap, b));
      if b in s.cached {
      } else if mem {
        ZeroedBlock(s1, b);
      } else {
        FreeKeeps(s1, b);
        hide Value, Free;
        GivenBack(s, s1, b);
      }
  }

  lemma FreeBlockInNoSlot(s: State, b: nat)
    requires Inv(s) && IsFree(s, b) && b != 0
    ensures forall p :: Value(s, p) != b
    ensures forall f :: f in s.files ==> s.files[f].indirect != b
  {
    hide Test;
    forall f | f in s.files ensures s.files[f].indirect != b {
      assert Value(s, Indirect(f)) == s.files[f].indirect;
    }
  }

  lemma TakeBlock(s: State, b: nat)
    requires Inv(s) && IsFree(s, b) && b != 0
    ensures var s1 := s.(bitmap := ClearBit(s.bitmap, b));
            && Inv(s1) && (forall p :: Value(s1, p) == Value(s, p))
               && (forall c :: IsFree(s1, c) <==> IsFree(s, c) && c != b)
  {
    AllBits(s.bitmap, b);
    hide Test, ClearBit;
    var s1 := s.(bitmap := ClearBit(s.bitmap, b));
    assert forall p :: Value(s1, p) == Value(s, p);
  }

  lemma ZeroedBlock(s: State, b: nat)
    requires Inv(s) && b < NBlocks(s) && forall f :: f in s.files ==> s.files[f].indirect != b
    ensures var s' := Cache(s.(blocks := s.blocks[b := ZeroBlock()]), b);
            && Inv(s') && (forall p :: Value(s', p) == Value(s, p)) && (forall c :: IsFree(s', c) <==> IsFree(s, c))
  {
    hide Test;
    var s' := Cache(s.(blocks := s.blocks[b := ZeroBlock()]), b);
    assert forall p :: Value(s', p) == Value(s, p);
    hide Value;
    assert forall c :: IsFree(s', c) <==> IsFree(s, c);
  }

  lemma GivenBack(s: State, s1: State, b: nat)
    requires Inv(s) && Shaped(s1) && NBlocks(s1) == NBlocks(s) && IsFree(s, b) && b != 0 && Shaped(Free(s1, b))
    requires (forall p :: Value(Free(s1, b), p) == Value(s1, p)) && (forall p :: Value(s1, p) == Value(s, p))
    requires forall c :: IsFree(s1, c) <==> IsFree(s, c) && c != b
    requires forall c :: IsFree(Free(s1, b), c) <==> IsFree(s1, c) || (c == b && 0 < b < NBlocks(s1))
    ensures Inv(Free(s1, b)) && (forall c :: IsFree(Free(s1, b), c) <==> IsFree(s, c))
  {
    hide Value, Test;
    assert NBlocks(Free(s1, b)) == NBlocks(s1);
    hide Free;
  }

  /** Storing into one slot changes the value of that slot only. */
  lemma SlotWrite(s: State, p: Slot, v: nat, q: Slot)
    requires Shaped(s) && OnceEach(s) && p.f in s.files && !p.Indirect?
    requires p.Direct? ==> p.i < NDIRECT
    requires p.Entry? ==> NDIRECT <= p.i < NINDIRECT && 0 < s.files[p.f].indirect < NBlocks(s)
    ensures Value(SetSlot(s, p, v), q) == if q == p then v else Value(s, q)
  {
    if p.Entry? && q.Entry? && q.f in s.files && q.f != p.f {
      IndirectsDiffer(s, p.f, q.f);
    }
  }

  lemma IndirectsDiffer(s: State, f: nat, g: nat)
    requires Shaped(s) && OnceEach(s) && f in s.files && g in s.files && f != g && s.files[f].indirect != 0
    ensures s.files[f].indirect != s.files[g].indirect
  {
    assert Value(s, Indirect(f)) == s.files[f].indirect;
    assert Value(s, Indirect(g)) == s.files[g].indirect;
  }

  /** An empty slot can take a block that is used and in no slot. */
  lemma FillSlot(s: State, p: Slot, v: nat)
    requires Inv(s) && p.f in s.files && !p.Indirect?
    requires p.Direct? ==> p.i < NDIRECT
    requires p.Entry? ==> NDIRECT <= p.i < NINDIRECT && 0 < s.files[p.f].indirect < NBlocks(s)
    requires v == 0 || (FIRST_BLOCK <= v < NBlocks(s) && !IsFree(s, v) && forall q :: Value(s, q) != v)
    ensures Inv(SetSlot(s, p, v))
    ensures forall q :: Value(SetSlot(s, p, v), q) == if q == p then v else Value(s, q)
  {
    hide Test;
    forall q ensures Value(SetSlot(s, p, v), q) == if q == p then v else Value(s, q) {
      SlotWrite(s, p, v, q);
    }
    var s' := SetSlot(s, p, v);
    hide Value;
    assert forall b :: IsFree(s', b) == IsFree(s, b);
  }

  /** A new indirect block whose words are 0. */
  lemma FillIndirect(s: State, f: nat, b: nat)
    requires Inv(s) && f in s.files && s.files[f].indirect == 0
    requires FIRST_BLOCK <= b < NBlocks(s) && !IsFree(s, b) && forall q :: Value(s, q) != b
    requires forall i :: NDIRECT <= i < NINDIRECT ==> s.blocks[b][i] == 0
    ensures Inv(SetSlot(s, Indirect(f), b))
    ensures forall q :: Value(SetSlot(s, Indirect(f), b), q) == if q == Indirect(f) then b else Value(s, q)
  {
    hide Test;
    var s' := SetSlot(s, Indirect(f), b);
    forall q ensures Value(s', q) == if q == Indirect(f) then b else Value(s, q) {
    }
    hide Value;
    assert forall c :: IsFree(s', c) == IsFree(s, c);
  }

  lemma IndirectIsBlock(s: State, f: nat)
    requires Inv(s) && f in s.files && s.files[f].indirect != 0
    ensures 0 < s.files[f].indirect < NBlocks(s) && CanRead(s, s.files[f].indirect)
  {
    assert Value(s, Indirect(f)) == s.files[f].indirect;
  }

  /** file_block_walk keeps the invariant and all slots, apart from a new indirect block. */
  lemma WalkKeeps(s: State, f: nat, filebno: nat, alloc: bool, mem: bool)
    requires Inv(s) && f in s.files && GrowsCleanly(s, f, filebno, alloc)
    ensures var w := Walk(s, f, filebno, alloc, mem);
            && Inv(w.s)
            && (forall p :: p != Indirect(f) ==> Value(w.s, p) == Value(s, p))
            && (s.files[f].indirect != 0 || !alloc ==> w.s.files == s.files)
            && (w.r >= 0 ==> filebno < NDIRECT || (filebno < NINDIRECT && 0 < w.s.files[f].indirect < NBlocks(s)))
            && (!alloc ==> forall b :: IsFree(w.s, b) == IsFree(s, b))
  {
    hide Test, FirstFree, Alloc, Value, SetSlot;
    if NDIRECT <= filebno < NINDIRECT {
      if s.files[f].indirect != 0 {
        IndirectIsBlock(s, f);
        CacheKeeps(s, s.files[f].indirect);
        assert forall b :: IsFree(Cache(s, s.files[f].indirect), b) == IsFree(s, b);
      } else if alloc {
        AllocGives(s, mem);
        var o := Alloc(s, mem);
        if o.r >= 0 {
          FillIndirect(o.s, f, o.r);
          WrittenIndirect(o.s, f, o.r);
          CacheKeeps(SetSlot(o.s, Indirect(f), o.r), o.r);
        }
      }
    }
  }

  lemma WrittenIndirect(s: State, f: nat, b: nat)
    requires Shaped(s) && f in s.files
    ensures SetSlot(s, Indirect(f), b).files[f].indirect == b
  {
  }

  /** file_map_block: the block is there afterwards, every other slot is as before. */
  lemma MapBlockKeeps(s: State, f: nat, filebno: nat, alloc: bool, mem: bool, mem2: bool)
    requires Inv(s) && f in s.files && GrowsCleanly(s, f, filebno, alloc)
    ensures var o := MapBlock(s, f, filebno, alloc, mem, mem2);
            && Inv(o.s)
            && (forall p :: p != Indirect(f) && p != SlotOf(f, filebno) ==> Value(o.s, p) == Value(s, p))
            && (o.r >= 0 ==> Value(o.s, SlotOf(f, filebno)) != 0)
            && (Value(s, SlotOf(f, filebno)) != 0 ==> Value(o.s, SlotOf(f, filebno)) == Value(s, SlotOf(f, filebno)))
            && (!alloc ==> forall p :: Value(o.s, p) == Value(s, p))
  {
    WalkKeeps(s, f, filebno, alloc, mem);
    hide Test, FirstFree, Alloc, Value, SetSlot, Walk;
    var w := Walk(s, f, filebno, alloc, mem);
    if !alloc {
      SameFilesSameIndirect(s, w.s, f);
    }
    if w.r >= 0 && Value(w.s, SlotOf(f, filebno)) == 0 && alloc {
      AllocGives(w.s, mem2);
      var o := Alloc(w.s, mem2);
      if o.r >= 0 {
        FillSlot(o.s, SlotOf(f, filebno), o.r);
      }
    }
  }

  /** alloc_block succeeds with the first free block from b on. */
  predicate CanAlloc(s: State, b: nat, mem: bool)
    requires Shaped(s)
  {
    var c := FirstFree(s, b);
    c.Some? && (mem || c.value in s.cached)
  }

  /** The block is there, or there are free blocks, and memory, for it and for the indirect block it needs. */
  predicate Fits(s: State, f: nat, filebno: nat, mem: bool, mem2: bool)
    requires Shaped(s) && f in s.files
  {
    || Value(s, SlotOf(f, filebno)) != 0
    || (filebno < NINDIRECT
        && if filebno < NDIRECT || s.files[f].indirect != 0 then CanAlloc(s, FIRST_BLOCK, mem2)
           else CanAlloc(s, FIRST_BLOCK, mem) && CanAlloc(s, FirstFree(s, FIRST_BLOCK).value + 1, mem2))
  }

  lemma AllocIf(s: State, mem: bool)
    requires Inv(s)
    ensures Alloc(s, mem).r >= 0 <==> CanAlloc(s, FIRST_BLOCK, mem)
  {
    hide FirstFree, ClearBit, SetBit, Test;
  }

  /** The free blocks are found alike. */
  lemma FirstFreeSame(s: State, s': State, b: nat)
    requires Shaped(s) && Shaped(s') && NBlocks(s') == NBlocks(s)
             && forall c :: c >= b ==> IsFree(s', c) == IsFree(s, c)
    ensures FirstFree(s', b) == FirstFree(s, b)
  {
    hide IsFree;
  }

  /** With the first free block taken, the next one is the first. */
  lemma NextFree(s: State, s': State)
    requires Shaped(s) && Shaped(s') && NBlocks(s') == NBlocks(s) && FirstFree(s, FIRST_BLOCK).Some?
    requires forall c :: IsFree(s', c) <==> IsFree(s, c) && c != FirstFree(s, FIRST_BLOCK).value
    ensures FirstFree(s', FIRST_BLOCK) == FirstFree(s, FirstFree(s, FIRST_BLOCK).value + 1)
  {
    hide IsFree;
  }

  /** When a walk that allocates succeeds, and what it leaves to the next allocation. */
  lemma WalkFits(s: State, f: nat, filebno: nat, mem: bool, mem2: bool)
    requires Inv(s) && f in s.files && GrowsCleanly(s, f, filebno, true)
    ensures var w := Walk(s, f, filebno, true, mem);
            && (w.r >= 0 <==>
                  && filebno < NINDIRECT
                  && (filebno < NDIRECT || s.files[f].indirect != 0 || CanAlloc(s, FIRST_BLOCK, mem)))
            && (w.r >= 0 && (filebno < NDIRECT || s.files[f].indirect != 0) ==>
                  CanAlloc(w.s, FIRST_BLOCK, mem2) == CanAlloc(s, FIRST_BLOCK, mem2))
            && (w.r >= 0 && filebno >= NDIRECT && s.files[f].indirect == 0 ==>
                  CanAlloc(w.s, FIRST_BLOCK, mem2) == CanAlloc(s, FirstFree(s, FIRST_BLOCK).value + 1, mem2))
  {
    hide Test, FirstFree, Alloc, Value, SetSlot, IsFree;
    if filebno >= NINDIRECT || filebno < NDIRECT {
    } else if s.files[f].indirect != 0 {
      IndirectIsBlock(s, f);
      var w := Cache(s, s.files[f].indirect);
      CacheFree(s, s.files[f].indirect);
      FirstFreeSame(s, w, FIRST_BLOCK);
      SlotIsUsed(s, f);
    } else {
      AllocIf(s, mem);
      AllocGives(s, mem);
      var o := Alloc(s, mem);
      if o.r >= 0 {
        var s1 := SetSlot(o.s, Indirect(f), o.r);
        CacheFree(s1, o.r);
        IndirectFree(o.s, f, o.r);
        AllocCaches(s, mem);
        NextFree(s, Cache(s1, o.r));
      }
    }
  }

  lemma CacheFree(s: State, b: nat)
    requires Shaped(s)
    ensures forall c :: IsFree(Cache(s, b), c) == IsFree(s, c)
  {
    hide Test;
  }

  lemma IndirectFree(s: State, f: nat, b: nat)
    requires Shaped(s) && f in s.files
    ensures forall c :: IsFree(SetSlot(s, Indirect(f), b), c) == IsFree(s, c)
    ensures SetSlot(s, Indirect(f), b).cached == s.cached && NBlocks(SetSlot(s, Indirect(f), b)) == NBlocks(s)
  {
    hide Test;
  }

  /** A block that a slot has is not free. */
  lemma SlotIsUsed(s: State, f: nat)
    requires Inv(s) && f in s.files && s.files[f].indirect != 0
    ensures !IsFree(s, s.files[f].indirect)
  {
    assert Value(s, Indirect(f)) == s.files[f].indirect;
    hide IsFree;
  }

  lemma AllocCaches(s: State, mem: bool)
    requires Inv(s)
    ensures Alloc(s, mem).r >= 0 ==> Alloc(s, mem).s.cached == s.cached + {Alloc(s, mem).r}
  {
    hide FirstFree, ClearBit, SetBit, Test;
  }

  /** file_map_block succeeds exactly if the block fits. */
  lemma MapBlockFits(s: State, f: nat, filebno: nat, mem: bool, mem2: bool)
    requires Inv(s) && f in s.files && GrowsCleanly(s, f, filebno, true)
    ensures MapBlock(s, f, filebno, true, mem, mem2).r >= 0 <==> Fits(s, f, filebno, mem, mem2)
  {
    WalkFits(s, f, filebno, mem, mem2);
    WalkKeeps(s, f, filebno, true, mem);
    AllocIf(Walk(s, f, filebno, true, mem).s, mem2);
    ThereIsRoom(s, f, filebno);
    hide Test, FirstFree, Alloc, Value, Walk, SetSlot, CanAlloc;
  }

  /** Where there is a block, there is a slot and, if need be, an indirect block. */
  lemma ThereIsRoom(s: State, f: nat, filebno: nat)
    requires Shaped(s) && f in s.files
    ensures Value(s, SlotOf(f, filebno)) != 0 ==> filebno < NINDIRECT && (filebno < NDIRECT || s.files[f].indirect != 0)
  {
  }

  lemma SameFilesSameIndirect(s: State, s': State, f: nat)
    requires Shaped(s) && Shaped(s') && s'.files == s.files
    ensures Value(s', Indirect(f)) == Value(s, Indirect(f))
  {
  }

  /** file_clear_block: the slot is empty, its block is free, all else is as before. */
  lemma ClearBlockKeeps(s: State, f: nat, filebno: nat)
    requires Inv(s) && f in s.files
    ensures var o := ClearBlock(s, f, filebno);
            var v := Value(s, SlotOf(f, filebno));
            && Inv(o.s) && o.s.files.Keys == s.files.Keys && NBlocks(o.s) == NBlocks(s)
            && (forall p :: Value(o.s, p) == if p == SlotOf(f, filebno) then 0 else Value(s, p))
            && (forall b :: IsFree(o.s, b) <==> IsFree(s, b) || (b == v && v != 0))
            && (forall g :: g in s.files ==> o.s.files[g].size == s.files[g].size)
  {
    WalkKeeps(s, f, filebno, false, true);
    var w := Walk(s, f, filebno, false, true);
    var p := SlotOf(f, filebno);
    SameFilesSameIndirect(s, w.s, f);
    NoSlotNoValue(s, f, filebno, w);
    hide Test, FirstFree, Alloc, Walk, Free;
    if w.r >= 0 && Value(w.s, p) != 0 {
      var v := Value(w.s, p);
      FreeKeeps(w.s, v);
      ClearSlot(w.s, p);
    }
  }

  lemma NoSlotNoValue(s: State, f: nat, filebno: nat, w: Outcome)
    requires Inv(s) && f in s.files && w == Walk(s, f, filebno, false, true)
    ensures w.r < 0 ==> Value(s, SlotOf(f, filebno)) == 0 && w.s == s
  {
  }

  /** Freeing the block of a slot and clearing the slot. */
  lemma ClearSlot(s: State, p: Slot)
    requires Inv(s) && p.f in s.files && !p.Indirect? && Value(s, p) != 0
    ensures p.Direct? ==> p.i < NDIRECT
    ensures p.Entry? ==> NDIRECT <= p.i < NINDIRECT && 0 < s.files[p.f].indirect < NBlocks(s)
    ensures var s1 := Free(s, Value(s, p)); var s' := SetSlot(s1, p, 0);
            && Inv(s') && (forall q :: Value(s', q) == if q == p then 0 else Value(s, q))
            && (forall b :: IsFree(s', b) <==> IsFree(s, b) || b == Value(s, p))
  {
    var s0 := SetSlot(s, p, 0);
    var v := Value(s, p);
    FillSlot(s, p, 0);
    FreeKeeps(s0, v);
    assert SetSlot(Free(s, v), p, 0) == Free(s0, v);
    hide Test, Free, Value, SetSlot;
    var s' := Free(s0, v);
    assert forall b :: IsFree(s0, b) == IsFree(s, b);
    assert forall q :: Value(s', q) == Value(s0, q);
  }

  /* ---- Truncation ---- */

  function OldBlocks(size: nat): nat { size / BY2BLK + 1 }
  function NewBlocks(size: nat): nat { if size == 0 then 0 else size / BY2BLK + 1 }

  /** Block i begins at byte i * BY2BLK. The old blocks are those that begin at or before the old size; the new
      ones begin at or before the new size, if that is not 0. */
  lemma BlockCounts(size: nat, i: nat)
    ensures i < OldBlocks(size) <==> i * BY2BLK <= size
    ensures i < NewBlocks(size) <==> 0 < size && i * BY2BLK <= size
    ensures NewBlocks(size) <= NDIRECT <==> size < NDIRECT * BY2BLK
  {
    var q, r := size / BY2BLK, size % BY2BLK;
    assert size == q * BY2BLK + r;
  }

  lemma BlockOfByte(b: nat)
    ensures b / BY2BLK * BY2BLK <= b < (b / BY2BLK + 1) * BY2BLK
  {
  }

  /** The loop of file_truncate over the blocks from .. to - 1. */
  function ClearRange(s: State, f: nat, from: nat, to: nat): (s': State)
    requires Inv(s) && f in s.files
    ensures Inv(s') && s'.files.Keys == s.files.Keys
    decreases if from < to then to - from else 0
  {
    if from >= to then s else
    ClearBlockKeeps(s, f, from);
    ClearRange(ClearBlock(s, f, from).s, f, from + 1, to)
  }

  /** Free the indirect block of a file. */
  function DropIndirect(s: State, f: nat): (s': State)
    requires Inv(s) && f in s.files
    ensures Shaped(s') && s'.files.Keys == s.files.Keys
  {
    if s.files[f].indirect == 0 then s else SetSlot(Free(s, s.files[f].indirect), Indirect(f), 0)
  }

  function WithSize(s: State, f: nat, size: nat): (s': State)
    requires Shaped(s) && f in s.files
    ensures Shaped(s') && s'.files.Keys == s.files.Keys
  {
    s.(files := s.files[f := s.files[f].(size := size)])
  }

  /** file_truncate */
  function Truncate(s: State, f: nat, newsize: nat): (s': State)
    requires Inv(s) && f in s.files
    ensures Shaped(s') && s'.files.Keys == s.files.Keys
  {
    var s1 := ClearRange(s, f, NewBlocks(newsize), OldBlocks(s.files[f].size));
    WithSize(if NewBlocks(newsize) <= NDIRECT then DropIndirect(s1, f) else s1, f, newsize)
  }

  /** file_set_size */
  function SetSize(s: State, f: nat, newsize: nat): (s': State)
    requires Inv(s) && f in s.files
  {
    if s.files[f].size > newsize then Truncate(s, f, newsize) else WithSize(s, f, newsize)
  }

  ghost predicate InRange(s: State, f: nat, from: nat, to: nat, b: nat)
    requires Shaped(s)
  {
    b != 0 && exists i: nat :: from <= i < to && Value(s, SlotOf(f, i)) == b
  }

  /** Slot p holds a block from .. to - 1 of file f. */
  predicate SlotInRange(p: Slot, f: nat, from: nat, to: nat)
  {
    match p
    case Direct(g, i) => g == f && i < NDIRECT && from <= i < to
    case Indirect(_) => false
    case Entry(g, i) => g == f && i >= NDIRECT && from <= i < to
  }

  lemma {:induction false} ClearRangeDoes(s: State, f: nat, from: nat, to: nat)
    requires Inv(s) && f in s.files
    ensures var s' := ClearRange(s, f, from, to);
            forall p :: Value(s', p) == if SlotInRange(p, f, from, to) then 0 else Value(s, p)
    ensures forall b :: IsFree(ClearRange(s, f, from, to), b) <==> IsFree(s, b) || InRange(s, f, from, to, b)
    ensures NBlocks(ClearRange(s, f, from, to)) == NBlocks(s)
    ensures forall g :: g in s.files ==> ClearRange(s, f, from, to).files[g].size == s.files[g].size
    decreases if from < to then to - from else 0
  {
    hide Test, Value, ClearBlock;
    if from < to {
      ClearBlockKeeps(s, f, from);
      var s1 := ClearBlock(s, f, from).s;
      ClearRangeDoes(s1, f, from + 1, to);
      var s' := ClearRange(s1, f, from + 1, to);
      forall p ensures Value(s', p) == if SlotInRange(p, f, from, to) then 0 else Value(s, p) {
        RangeStep(s, p, f, from, to);
      }
      forall b ensures IsFree(s', b) <==> IsFree(s, b) || InRange(s, f, from, to, b) {
        InRangeStep(s, s1, f, from, to, b);
      }
    }
  }

  lemma RangeStep(s: State, p: Slot, f: nat, from: nat, to: nat)
    requires Shaped(s) && from < to
    ensures SlotInRange(p, f, from, to) ==> p == SlotOf(f, from) || SlotInRange(p, f, from + 1, to)
    ensures SlotInRange(p, f, from + 1, to) ==> SlotInRange(p, f, from, to)
    ensures p == SlotOf(f, from) ==> SlotInRange(p, f, from, to)
  {
  }

  lemma InRangeStep(s: State, s1: State, f: nat, from: nat, to: nat, b: nat)
    requires Shaped(s) && Shaped(s1) && from < to
    requires forall p :: Value(s1, p) == if p == SlotOf(f, from) then 0 else Value(s, p)
    ensures InRange(s, f, from, to, b) <==>
              (b != 0 && Value(s, SlotOf(f, from)) == b) || InRange(s1, f, from + 1, to, b)
  {
    hide Value;
    if InRange(s, f, from, to, b) {
      var i: nat :| from <= i < to && Value(s, SlotOf(f, i)) == b;
      assert i > from ==> Value(s1, SlotOf(f, i)) == b;
    }
    if InRange(s1, f, from + 1, to, b) {
      var i: nat :| from + 1 <= i < to && Value(s1, SlotOf(f, i)) == b;
      assert Value(s, SlotOf(f, i)) == b;
    }
  }

  lemma DropIndirectDoes(s: State, f: nat)
    requires Inv(s) && f in s.files
    ensures var s' := DropIndirect(s, f);
            && Inv(s')
            && (forall p :: Value(s', p) == if p == Indirect(f) || (p.Entry? && p.f == f) then 0 else Value(s, p))
            && (forall b :: IsFree(s', b) <==> IsFree(s, b) || (b != 0 && b == s.files[f].indirect))
            && (forall g :: g in s.files ==> s'.files[g].size == s.files[g].size)
  {
    var b := s.files[f].indirect;
    if b != 0 {
      IndirectIsBlock(s, f);
      FreeKeeps(s, b);
      var s0 := SetSlot(s, Indirect(f), 0);
      FreeKeeps(s0, b);
      hide Test;
      assert DropIndirect(s, f) == Free(s0, b);
      hide Free;
      assert Value(s, Indirect(f)) == b;
      assert forall p :: Value(s0, p) == if p == Indirect(f) || (p.Entry? && p.f == f) then 0 else Value(s, p);
      assert forall c :: IsFree(s0, c) == IsFree(s, c);
    } else {
      hide Test;
      assert Value(s, Indirect(f)) == 0;
    }
  }

  lemma WithSizeDoes(s: State, f: nat, size: nat)
    requires Shaped(s) && f in s.files
    ensures var s' := WithSize(s, f, size);
            && (forall p :: Value(s', p) == Value(s, p)) && (forall b :: IsFree(s', b) == IsFree(s, b))
            && (Inv(s) ==> Inv(s'))
  {
    hide Test;
    var s' := WithSize(s, f, size);
    assert forall p :: Value(s', p) == Value(s, p);
    assert forall b :: IsFree(s', b) == IsFree(s, b);
  }

  /** file_truncate, exactly: the blocks from new_nblocks up to the old size are freed, and the indirect
      block as well when new_nblocks is at most NDIRECT, which drops all its entries; everything else
      stays. */
  lemma TruncateDoes(s: State, f: nat, newsize: nat)
    requires Inv(s) && f in s.files
    ensures var s' := Truncate(s, f, newsize);
            var new_, old_ := NewBlocks(newsize), OldBlocks(s.files[f].size);
            && Inv(s') && f in s'.files && s'.files[f].size == newsize
            && (forall p :: Value(s', p) ==
                  if SlotInRange(p, f, new_, old_) || (new_ <= NDIRECT && p.f == f && !p.Direct?) then 0
                      else Value(s, p))
            && (forall b :: IsFree(s', b) <==>
                  IsFree(s, b) || InRange(s, f, new_, old_, b)
                    || (new_ <= NDIRECT && b != 0 && b == Value(s, Indirect(f))))
  {
    var new_, old_ := NewBlocks(newsize), OldBlocks(s.files[f].size);
    ClearRangeDoes(s, f, new_, old_);
    var s1 := ClearRange(s, f, new_, old_);
    DropIndirectDoes(s1, f);
    assert Value(s1, Indirect(f)) == s1.files[f].indirect;
    hide Test, Value, DropIndirect, ClearRange, InRange;
    assert Value(s1, Indirect(f)) == Value(s, Indirect(f));
    WithSizeDoes(if new_ <= NDIRECT then DropIndirect(s1, f) else s1, f, newsize);
  }

  /* ---- Truncation, by bytes ---- */

  /** Truncation from oldsize to newsize leaves the slot of block i alone: because the block begins at or before the new
      size, or because it begins behind the old size and the indirect block that its slot is in stays. */
  predicate Stays(i: nat, oldsize: nat, newsize: nat)
  {
    || (0 < newsize && i * BY2BLK <= newsize)
    || (i * BY2BLK > oldsize && (i < NDIRECT || newsize >= NDIRECT * BY2BLK))
  }

  ghost predicate HeldByCut(s: State, f: nat, newsize: nat, b: nat)
    requires Shaped(s) && f in s.files
  {
    b != 0 &&
    (|| (newsize < NDIRECT * BY2BLK && b == Value(s, Indirect(f)))
     || exists i: nat :: !Stays(i, s.files[f].size, newsize) && i * BY2BLK <= s.files[f].size
                         && Value(s, SlotOf(f, i)) == b)
  }

  /** File f is cut to newsize: its slots stay or are emptied, those of other files stay, and the blocks up to the old
      size whose slots are emptied become free, with the indirect block if no slot needs it. */
  ghost predicate CutTo(s: State, s': State, f: nat, newsize: nat)
    requires Shaped(s) && Shaped(s') && f in s.files
  {
    && f in s'.files && s'.files[f].size == newsize
    && (forall i: nat ::
          Value(s', SlotOf(f, i)) == if Stays(i, s.files[f].size, newsize) then Value(s, SlotOf(f, i)) else 0)
    && Value(s', Indirect(f)) == (if newsize < NDIRECT * BY2BLK then 0 else Value(s, Indirect(f)))
    && (forall p: Slot :: p.f != f ==> Value(s', p) == Value(s, p))
    && (forall b :: IsFree(s', b) <==> IsFree(s, b) || HeldByCut(s, f, newsize, b))
  }

  lemma TruncateCuts(s: State, f: nat, newsize: nat)
    requires Inv(s) && f in s.files
    ensures CutTo(s, Truncate(s, f, newsize), f, newsize)
  {
    TruncateDoes(s, f, newsize);
    var s', size := Truncate(s, f, newsize), s.files[f].size;
    var new_, old_ := NewBlocks(newsize), OldBlocks(size);
    hide Truncate, Test, IsFree, Value, NewBlocks, OldBlocks, InUse, OnceEach;
    BlockCounts(newsize, 0);
    forall i: nat
      ensures Value(s', SlotOf(f, i)) == if Stays(i, size, newsize) then Value(s, SlotOf(f, i)) else 0 {
      StaysIf(f, i, size, newsize);
    }
    hide Stays, InRange, SlotInRange;
    forall b ensures IsFree(s', b) <==> IsFree(s, b) || HeldByCut(s, f, newsize, b) {
      CutRange(s, f, newsize, b);
    }
  }

  lemma StaysIf(f: nat, i: nat, oldsize: nat, newsize: nat)
    ensures Stays(i, oldsize, newsize) <==>
              !SlotInRange(SlotOf(f, i), f, NewBlocks(newsize), OldBlocks(oldsize))
                && (NewBlocks(newsize) > NDIRECT || SlotOf(f, i).Direct?)
  {
    BlockCounts(newsize, i);
    BlockCounts(oldsize, i);
    hide NewBlocks, OldBlocks;
  }

  lemma CutRange(s: State, f: nat, newsize: nat, b: nat)
    requires Inv(s) && f in s.files
    ensures HeldByCut(s, f, newsize, b) <==>
              InRange(s, f, NewBlocks(newsize), OldBlocks(s.files[f].size), b)
                || (NewBlocks(newsize) <= NDIRECT && b != 0 && b == Value(s, Indirect(f)))
  {
    var size := s.files[f].size;
    hide Test, IsFree, Value, NewBlocks, OldBlocks, InUse, OnceEach;
    BlockCounts(newsize, 0);
    forall i: nat
      ensures !Stays(i, size, newsize) && i * BY2BLK <= size <==> NewBlocks(newsize) <= i < OldBlocks(size) {
      BlockCounts(newsize, i);
      BlockCounts(size, i);
    }
  }

  /** Blocks other than the indirect block of file f have the same words. */
  ghost predicate WordsStay(s: State, s': State, f: nat)
    requires f in s.files
  {
    && f in s'.files && s'.files[f].indirect == s.files[f].indirect && NBlocks(s') == NBlocks(s)
    && forall b :: 0 <= b < NBlocks(s) && b != s.files[f].indirect ==> s'.blocks[b] == s.blocks[b]
  }

  lemma ClearBlockWords(s: State, f: nat, filebno: nat)
    requires Inv(s) && f in s.files
    ensures WordsStay(s, ClearBlock(s, f, filebno).s, f)
  {
    WalkKeeps(s, f, filebno, false, true);
    ClearBlockKeeps(s, f, filebno);
    hide Test, IsFree, FirstFree, Alloc, InUse, OnceEach;
  }

  lemma {:induction false} ClearRangeWords(s: State, f: nat, from: nat, to: nat)
    requires Inv(s) && f in s.files
    ensures WordsStay(s, ClearRange(s, f, from, to), f)
    decreases if from < to then to - from else 0
  {
    hide Test, IsFree, Value, ClearBlock, InUse, OnceEach;
    if from < to {
      ClearBlockKeeps(s, f, from);
      ClearBlockWords(s, f, from);
      ClearRangeWords(ClearBlock(s, f, from).s, f, from + 1, to);
    }
  }

  lemma TruncateWords(s: State, f: nat, newsize: nat)
    requires Inv(s) && f in s.files
    ensures NBlocks(Truncate(s, f, newsize)) == NBlocks(s)
    ensures forall b :: 0 <= b < NBlocks(s) && b != Value(s, Indirect(f)) ==>
              Truncate(s, f, newsize).blocks[b] == s.blocks[b]
  {
    ClearRangeWords(s, f, NewBlocks(newsize), OldBlocks(s.files[f].size));
    hide Test, IsFree, InUse, OnceEach, ClearRange;
  }

  /** What a client is promised: every byte below the new size stays where it is, in a block with the same words; a
      block that begins behind the new size is gone; and cutting to 0 leaves no block at all up to the old size. */
  lemma TruncateKeepsBytes(s: State, f: nat, newsize: nat)
    requires Inv(s) && f in s.files
    ensures NBlocks(Truncate(s, f, newsize)) == NBlocks(s)
    ensures var s', size := Truncate(s, f, newsize), s.files[f].size;
            && (forall b: nat :: b < newsize ==> SameBlock(s, s', f, b / BY2BLK))
            && (forall i: nat :: newsize < i * BY2BLK <= size ==> Value(s', SlotOf(f, i)) == 0)
            && (newsize == 0 ==> forall b: nat :: b <= size ==> Value(s', SlotOf(f, b / BY2BLK)) == 0)
  {
    TruncateCuts(s, f, newsize);
    TruncateWords(s, f, newsize);
    forall b: nat ensures b / BY2BLK * BY2BLK <= b {
      BlockOfByte(b);
    }
    hide Truncate, Value, IsFree, HeldByCut;
    forall b: nat | b < newsize ensures SameBlock(s, Truncate(s, f, newsize), f, b / BY2BLK) {
      if Value(s, SlotOf(f, b / BY2BLK)) != 0 {
        assert Value(s, SlotOf(f, b / BY2BLK)) != Value(s, Indirect(f));
      }
    }
  }

  /** Block i of file f is as it was. */
  ghost predicate SameBlock(s: State, s': State, f: nat, i: nat)
    requires Shaped(s) && Shaped(s') && NBlocks(s') == NBlocks(s)
  {
    var b := Value(s, SlotOf(f, i));
    Value(s', SlotOf(f, i)) == b && (0 < b < NBlocks(s) ==> s'.blocks[b] == s.blocks[b])
  }

  /** file_set_size cuts a file that is longer than the new size, and changes only the size of any other. */
  lemma SetSizeCuts(s: State, f: nat, newsize: nat)
    requires Inv(s) && f in s.files
    ensures var s' := SetSize(s, f, newsize);
            && Shaped(s') && NBlocks(s') == NBlocks(s) && f in s'.files && s'.files[f].size == newsize
            && (if s.files[f].size > newsize then CutTo(s, s', f, newsize)
                else (forall p :: Value(s', p) == Value(s, p)) && (forall b :: IsFree(s', b) <==> IsFree(s, b)))
            && (forall b: nat :: b < newsize ==> SameBlock(s, s', f, b / BY2BLK))
  {
    if s.files[f].size > newsize {
      TruncateCuts(s, f, newsize);
      TruncateKeepsBytes(s, f, newsize);
    } else {
      WithSizeDoes(s, f, newsize);
    }
    hide Truncate, Value, IsFree, HeldByCut, Inv, Stays;
  }

  /* ---- Conservation ---- */

  ghost predicate Held(s: State, b: nat)
    requires Shaped(s)
  {
    b != 0 && exists p :: Value(s, p) == b
  }

  /** No block is lost: what a slot held is held still or is free. */
  ghost predicate NothingLost(s: State, s': State)
    requires Shaped(s) && Shaped(s')
  {
    forall b :: Held(s, b) ==> Held(s', b) || IsFree(s', b)
  }

  /** A block number sits in the indirect block behind the old end of the file. */
  ghost predicate EntryBeyond(s: State, f: nat, old_: nat)
    requires Shaped(s)
  {
    exists i: nat :: old_ <= i && Value(s, Entry(f, i)) != 0
  }

  /** The indirect block names a block that begins behind the size of the file. */
  ghost predicate BlockBeyond(s: State, f: nat)
    requires Shaped(s) && f in s.files
  {
    exists i: nat :: i * BY2BLK > s.files[f].size && Value(s, Entry(f, i)) != 0
  }

  lemma BeyondInBytes(s: State, f: nat)
    requires Shaped(s) && f in s.files
    ensures EntryBeyond(s, f, OldBlocks(s.files[f].size)) <==> BlockBeyond(s, f)
  {
    hide Value, OldBlocks;
    forall i: nat ensures OldBlocks(s.files[f].size) <= i <==> i * BY2BLK > s.files[f].size {
      BlockCounts(s.files[f].size, i);
    }
  }

  /** file_truncate loses no block exactly if it keeps the indirect block, which it does from NDIRECT blocks on, or the
      indirect block names no block that begins behind the old size of the file. */
  lemma TruncateConserves(s: State, f: nat, newsize: nat)
    requires Inv(s) && f in s.files
    ensures NothingLost(s, Truncate(s, f, newsize)) <==> newsize >= NDIRECT * BY2BLK || !BlockBeyond(s, f)
  {
    BeyondInBytes(s, f);
    BlockCounts(newsize, 0);
    hide Inv, Truncate, NewBlocks, OldBlocks, EntryBeyond, BlockBeyond, NothingLost;
    TruncateLosesIf(s, f, newsize);
  }

  lemma TruncateLosesIf(s: State, f: nat, newsize: nat)
    requires Inv(s) && f in s.files
    ensures NothingLost(s, Truncate(s, f, newsize)) <==>
              NewBlocks(newsize) > NDIRECT || !EntryBeyond(s, f, OldBlocks(s.files[f].size))
  {
    TruncateDoes(s, f, newsize);
    var new_, old_ := NewBlocks(newsize), OldBlocks(s.files[f].size);
    var s' := Truncate(s, f, newsize);
    hide Truncate, Test, IsFree;
    if new_ <= NDIRECT && EntryBeyond(s, f, old_) {
      var i: nat :| old_ <= i && Value(s, Entry(f, i)) != 0;
      EntryIsLost(s, s', f, new_, old_, i);
    } else {
      forall b | Held(s, b) ensures Held(s', b) || IsFree(s', b) {
        var p :| Value(s, p) == b;
        NotLost(s, s', f, new_, old_, p);
      }
    }
  }

  lemma EntryIsLost(s: State, s': State, f: nat, new_: nat, old_: nat, i: nat)
    requires Inv(s) && Shaped(s') && new_ <= NDIRECT && old_ <= i && Value(s, Entry(f, i)) != 0
    requires forall p :: Value(s', p) ==
               if SlotInRange(p, f, new_, old_) || (new_ <= NDIRECT && p.f == f && !p.Direct?) then 0 else Value(s, p)
    requires forall b :: IsFree(s', b) <==>
               IsFree(s, b) || InRange(s, f, new_, old_, b) || (new_ <= NDIRECT && b != 0 && b == Value(s, Indirect(f)))
    ensures Held(s, Value(s, Entry(f, i))) && !Held(s', Value(s, Entry(f, i))) && !IsFree(s', Value(s, Entry(f, i)))
  {
    hide Test, Value;
    var p, b := Entry(f, i), Value(s, Entry(f, i));
    assert Held(s, b);
    assert forall q :: Value(s, q) == b ==> q == p;
    forall j: nat | new_ <= j < old_ ensures Value(s, SlotOf(f, j)) != b {
      assert SlotOf(f, j) != p;
    }
  }

  lemma NotLost(s: State, s': State, f: nat, new_: nat, old_: nat, p: Slot)
    requires Inv(s) && Shaped(s') && Value(s, p) != 0
    requires new_ > NDIRECT || !EntryBeyond(s, f, old_)
    requires forall p :: Value(s', p) ==
               if SlotInRange(p, f, new_, old_) || (new_ <= NDIRECT && p.f == f && !p.Direct?) then 0 else Value(s, p)
    requires forall b :: IsFree(s', b) <==>
               IsFree(s, b) || InRange(s, f, new_, old_, b) || (new_ <= NDIRECT && b != 0 && b == Value(s, Indirect(f)))
    ensures Held(s', Value(s, p)) || IsFree(s', Value(s, p))
  {
    EntryRange(s, p);
    hide Test, Value;
    var b := Value(s, p);
    assert p.Entry? && p.f == f && p.i >= old_ ==> Value(s, Entry(f, p.i)) != 0;
    if SlotInRange(p, f, new_, old_) {
      assert p == SlotOf(f, p.i);
      assert InRange(s, f, new_, old_, b);
    } else if !(new_ <= NDIRECT && p.f == f && !p.Direct?) {
      assert Value(s', p) == b;
    }
  }

  lemma EntryRange(s: State, p: Slot)
    requires Shaped(s) && Value(s, p) != 0
    ensures p.Entry? ==> p.i >= NDIRECT
    ensures p.Direct? ==> p.i < NDIRECT
  {
  }

  /** Growing a file loses nothing: file_map_block with alloc puts every block that it takes into a slot,
      even when it fails half-way. */
  lemma MapBlockConserves(s: State, f: nat, filebno: nat, alloc: bool, mem: bool, mem2: bool)
    requires Inv(s) && f in s.files && GrowsCleanly(s, f, filebno, alloc)
    ensures var s' := MapBlock(s, f, filebno, alloc, mem, mem2).s;
            NothingLost(s, s') && forall b :: IsFree(s, b) && !IsFree(s', b) ==> Held(s', b)
  {
    WalkTakes(s, f, filebno, alloc, mem);
    WalkKeeps(s, f, filebno, alloc, mem);
    MapBlockKeeps(s, f, filebno, alloc, mem, mem2);
    var w := Walk(s, f, filebno, alloc, mem);
    var p := SlotOf(f, filebno);
    hide Test, Alloc, Walk, SetSlot, FirstFree;
    if w.r >= 0 && Value(w.s, p) == 0 && alloc {
      AllocGives(w.s, mem2);
      var o := Alloc(w.s, mem2);
      if o.r >= 0 {
        FillSlot(o.s, p, o.r);
        SlotTakes(o.s, p, o.r);
        hide Value, IsFree;
        var s' := SetSlot(o.s, p, o.r);
        forall b | IsFree(s, b) && !IsFree(s', b) ensures Held(s', b) {
          if b == o.r {
            assert Value(s', p) == b;
          } else {
            assert Held(w.s, b);
            var q :| Value(w.s, q) == b;
            assert Value(s', q) == b;
          }
        }
        forall b | Held(s, b) ensures Held(s', b) {
          assert Held(w.s, b);
          var q :| Value(w.s, q) == b;
          assert Value(s', q) == b;
        }
      } else {
        SameHeld(w.s, o.s);
      }
    }
  }

  lemma SlotTakes(s: State, p: Slot, v: nat)
    requires Inv(s) && p.f in s.files && !p.Indirect?
    requires p.Direct? ==> p.i < NDIRECT
    requires p.Entry? ==> NDIRECT <= p.i < NINDIRECT && 0 < s.files[p.f].indirect < NBlocks(s)
    ensures forall b :: IsFree(SetSlot(s, p, v), b) == IsFree(s, b)
  {
    hide Test;
  }

  lemma SameHeld(s: State, s': State)
    requires Shaped(s) && Shaped(s') && forall p :: Value(s', p) == Value(s, p)
    ensures forall b :: Held(s, b) <==> Held(s', b)
  {
    hide Value;
  }

  lemma WalkTakes(s: State, f: nat, filebno: nat, alloc: bool, mem: bool)
    requires Inv(s) && f in s.files && GrowsCleanly(s, f, filebno, alloc)
    ensures var s' := Walk(s, f, filebno, alloc, mem).s;
            && (forall b :: Held(s, b) ==> Held(s', b)) && (forall b :: IsFree(s, b) && !IsFree(s', b) ==> Held(s', b))
  {
    hide Test, Alloc, SetSlot, FirstFree;
    var w := Walk(s, f, filebno, alloc, mem);
    if NDIRECT <= filebno < NINDIRECT {
      if s.files[f].indirect != 0 {
        CacheKeeps(s, s.files[f].indirect);
        SameHeld(s, w.s);
      } else if alloc {
        AllocGives(s, mem);
        var o := Alloc(s, mem);
        if o.r < 0 {
          SameHeld(s, o.s);
        } else {
          FillIndirect(o.s, f, o.r);
          var s2 := SetSlot(o.s, Indirect(f), o.r);
          CacheKeeps(s2, o.r);
          IndirectTakes(s, o.s, s2, w.s, f, o.r);
        }
      }
    }
  }

  lemma IndirectTakes(s: State, s1: State, s2: State, s3: State, f: nat, b: nat)
    requires Shaped(s) && Shaped(s1) && Shaped(s2) && Shaped(s3) && f in s1.files && b != 0
    requires forall p :: Value(s1, p) == Value(s, p)
    requires forall c :: IsFree(s1, c) <==> IsFree(s, c) && c != b
    requires s2 == SetSlot(s1, Indirect(f), b) && s3 == Cache(s2, b) && Value(s1, Indirect(f)) == 0
    requires forall p :: Value(s2, p) == if p == Indirect(f) then b else Value(s1, p)
    requires forall p :: Value(s3, p) == Value(s2, p)
    ensures (forall c :: Held(s, c) ==> Held(s3, c)) && (forall c :: IsFree(s, c) && !IsFree(s3, c) ==> Held(s3, c))
  {
    hide Test, Value;
    assert forall c :: IsFree(s3, c) == IsFree(s1, c);
    hide IsFree, SetSlot, Cache;
    assert Value(s3, Indirect(f)) == b;
    forall c | Held(s, c) ensures Held(s3, c) {
      var q :| Value(s, q) == c;
      assert Value(s3, q) == c;
    }
  }

  /* ---- A stale block as indirect block ---- */

  /** Every word of block b that a file could take for a block number names a block of its own: in range,
      used, in no slot, and named once. */
  ghost predicate Harmless(s: State, b: nat)
    requires Shaped(s) && b < NBlocks(s)
  {
    forall i :: NDIRECT <= i < NINDIRECT && s.blocks[b][i] != 0 ==>
      && FIRST_BLOCK <= s.blocks[b][i] < NBlocks(s) && !IsFree(s, s.blocks[b][i])
      && (forall p :: Value(s, p) != s.blocks[b][i])
      && (forall j :: NDIRECT <= j < NINDIRECT && j != i ==> s.blocks[b][j] != s.blocks[b][i])
  }

  /** The slots after block b has become the indirect block of file f. */
  lemma LinkedIndirect(s: State, f: nat, b: nat)
    requires Shaped(s) && f in s.files && s.files[f].indirect == 0 && 0 < b < NBlocks(s)
    ensures var s' := SetSlot(s, Indirect(f), b);
            && (forall c :: IsFree(s', c) == IsFree(s, c))
            && (forall p :: Value(s', p) == if p == Indirect(f) then b
                                            else if p.Entry? && p.f == f && NDIRECT <= p.i < NINDIRECT
                                                then s.blocks[b][p.i]
                                            else Value(s, p))
            && (forall i :: Value(s, Entry(f, i)) == 0) && Value(s, Indirect(f)) == 0
  {
    hide Test;
  }

  /** Linking a used block that is in no slot keeps the invariant exactly when its words are harmless. */
  lemma LinkHarmless(s: State, f: nat, b: nat)
    requires Inv(s) && f in s.files && s.files[f].indirect == 0
    requires FIRST_BLOCK <= b < NBlocks(s) && !IsFree(s, b) && forall p :: Value(s, p) != b
    ensures Inv(SetSlot(s, Indirect(f), b)) <==>
              Harmless(s, b) && forall i :: NDIRECT <= i < NINDIRECT ==> s.blocks[b][i] != b
  {
    LinkedIndirect(s, f, b);
    var s' := SetSlot(s, Indirect(f), b);
    hide Value, Test, IsFree, SetSlot;
    if Inv(s') {
      forall i | NDIRECT <= i < NINDIRECT && s.blocks[b][i] != 0
        ensures FIRST_BLOCK <= s.blocks[b][i] < NBlocks(s) && !IsFree(s, s.blocks[b][i]) && s.blocks[b][i] != b
        ensures forall p :: Value(s, p) != s.blocks[b][i]
        ensures forall j :: NDIRECT <= j < NINDIRECT && j != i ==> s.blocks[b][j] != s.blocks[b][i] {
        assert Value(s', Entry(f, i)) == s.blocks[b][i];
        assert Value(s', Indirect(f)) == b;
        forall p ensures Value(s, p) != s.blocks[b][i] {
          assert Value(s, p) == 0 || Value(s', p) == Value(s, p);
        }
        forall j | NDIRECT <= j < NINDIRECT && j != i ensures s.blocks[b][j] != s.blocks[b][i] {
          assert Value(s', Entry(f, j)) == s.blocks[b][j];
        }
      }
    }
  }

  /** alloc_block does not clear a block that is still in the cache, so the old words of a new indirect
      block become block numbers of the file. The invariant survives exactly when they are harmless. */
  lemma StaleIndirectBlock(s: State, f: nat, filebno: nat, mem: bool)
    requires Inv(s) && f in s.files && s.files[f].indirect == 0 && NDIRECT <= filebno < NINDIRECT
    ensures var b := FirstFree(s, FIRST_BLOCK);
            Inv(Walk(s, f, filebno, true, mem).s) <==> (b.Some? && b.value in s.cached ==> Harmless(s, b.value))
  {
    AllocGives(s, mem);
    var o := Alloc(s, mem);
    if o.r >= 0 {
      LinkHarmless(o.s, f, o.r);
      CacheKeeps(SetSlot(o.s, Indirect(f), o.r), o.r);
      HarmlessAfterAlloc(s, o.s, o.r);
    }
    hide FirstFree, Inv, Harmless, Value, SetSlot;
    CachedNeedsNoMemory(s, mem);
  }

  lemma HarmlessAfterAlloc(s: State, s1: State, b: nat)
    requires Shaped(s) && Shaped(s1) && NBlocks(s1) == NBlocks(s) && 0 < b < NBlocks(s) && IsFree(s, b)
    requires forall c :: IsFree(s1, c) <==> IsFree(s, c) && c != b
    requires forall p :: Value(s1, p) == Value(s, p)
    requires forall i :: 0 <= i < NINDIRECT ==> s1.blocks[b][i] == if b in s.cached then s.blocks[b][i] else 0
    ensures Harmless(s1, b) && (forall i :: NDIRECT <= i < NINDIRECT ==> s1.blocks[b][i] != b) <==>
              (b in s.cached ==> Harmless(s, b))
  {
    hide Value, IsFree;
  }

  lemma CachedNeedsNoMemory(s: State, mem: bool)
    requires Shaped(s)
    ensures var b := FirstFree(s, FIRST_BLOCK); b.Some? && b.value in s.cached ==> Alloc(s, mem).r == b.value
  {
    hide FirstFree;
  }
}
