/** The image builder tools/fsformat.c: what it writes is a file system that the server's invariant holds
    for. The data is the same as in FsBlocks: the words of the bitmap block, the blocks as words, and the
    struct Files with their block pointers. */
module FsFormat {
  import opened Bitmap
  import opened FsBlocks
  import opened Options

  const NBLOCK: nat := 1024
  /** (NBLOCK + BIT2BLK - 1) / BIT2BLK */
  const NBITBLOCK: nat := 1

  /** Blocks are handed out in order. Every block number in a slot is below nextbno, no block is in two
      slots, every block handed out is in a slot apart from those in pend, and the rest of the disk is
      still zero. */
  ghost predicate Built(s: State, nextbno: nat, pend: set<nat>)
  {
    && Shaped(s) && NBlocks(s) == NBLOCK && 2 + NBITBLOCK <= nextbno <= NBLOCK
    && OnceEach(s)
    && (forall p :: Value(s, p) != 0 ==> 2 + NBITBLOCK <= Value(s, p) < nextbno && Value(s, p) !in pend)
    && (forall b :: 2 + NBITBLOCK <= b < nextbno && b !in pend ==> Held(s, b))
    && (forall b :: nextbno <= b < NBLOCK ==> s.blocks[b] == ZeroBlock())
  }

  /** File f has no block from number n on. */
  ghost predicate NoBlocksFrom(s: State, f: nat, n: nat)
    requires Shaped(s)
  {
    forall i: nat :: n <= i ==> Value(s, SlotOf(f, i)) == 0
  }

  predicate Blank(n: Inode) { n.indirect == 0 && n.direct == seq(NDIRECT, _ => 0) }

  /** The bitmap while blocks are handed out: the blocks of the disk are free. */
  ghost predicate AllFree(bitmap: seq<bv32>)
  {
    |bitmap| == NINDIRECT && forall b: nat :: b < 32 * NINDIRECT ==> (Test(bitmap, b) <==> b < NBLOCK)
  }

  /** The data blocks that are in slots keep their slots and their content. */
  ghost predicate DataStays(s: State, s': State)
    requires Shaped(s) && Shaped(s') && NBlocks(s) == NBlocks(s') == NBLOCK
  {
    forall p: Slot :: !p.Indirect? && 0 < Value(s, p) < NBLOCK ==>
      Value(s', p) == Value(s, p) && s'.blocks[Value(s, p)] == s.blocks[Value(s, p)]
  }

  lemma DataStaysTwice(s: State, s1: State, s2: State)
    requires Shaped(s) && Shaped(s1) && Shaped(s2) && NBlocks(s) == NBlocks(s1) == NBlocks(s2) == NBLOCK
    requires DataStays(s, s1) && DataStays(s1, s2)
    ensures DataStays(s, s2)
  {
    hide Value, Shaped;
  }

  /** Only empty slots, a new indirect pointer and the words of an indirect block have changed. */
  lemma DataStaysAfterLink(s: State, s': State, nextbno: nat, pend: set<nat>, f: nat, p0: Slot)
    requires Built(s, nextbno, pend) && Shaped(s') && NBlocks(s') == NBLOCK && Value(s, p0) == 0
    requires forall p :: p != p0 && p != Indirect(f) ==> Value(s', p) == Value(s, p)
    requires Value(s, Indirect(f)) == 0 ==> Value(s', Indirect(f)) == 0 || Value(s', Indirect(f)) >= nextbno
    requires Value(s, Indirect(f)) != 0 ==> Value(s', Indirect(f)) == Value(s, Indirect(f))
    requires forall b :: 0 <= b < NBLOCK && b != Value(s', Indirect(f)) ==> s'.blocks[b] == s.blocks[b]
    ensures DataStays(s, s')
  {
    hide Value, Held;
    assert forall p: Slot :: !p.Indirect? && Value(s, p) != 0 ==> Value(s, p) < nextbno;
  }

  lemma SlotsDiffer(s: State, nextbno: nat, pend: set<nat>, p: Slot, q: Slot)
    requires Built(s, nextbno, pend) && p != q && Value(s, p) != 0
    ensures Value(s, p) != Value(s, q) && Value(s, p) < nextbno <= NBLOCK
  {
    hide Value, Held;
  }

  lemma SameSlotsDataStays(s: State, s': State)
    requires Shaped(s) && Shaped(s') && NBlocks(s) == NBlocks(s') == NBLOCK
    requires forall p :: Value(s', p) == Value(s, p)
    requires forall b :: 0 <= b < NBLOCK && s'.blocks[b] != s.blocks[b] ==> forall p :: Value(s, p) != b
    ensures DataStays(s, s')
  {
    hide Value;
  }

  lemma PendingIsInNoSlot(s: State, nextbno: nat, pend: set<nat>, b: nat)
    requires Built(s, nextbno, pend) && b in pend && b != 0
    ensures forall p :: Value(s, p) != b
  {
    hide Value, Held;
  }

  lemma BuiltShape(s: State, nextbno: nat, pend: set<nat>)
    requires Built(s, nextbno, pend)
    ensures Shaped(s) && NBlocks(s) == NBLOCK
  {
  }

  /* ---- Steps ---- */

  lemma HandOut(s: State, nextbno: nat, pend: set<nat>)
    requires Built(s, nextbno, pend) && nextbno < NBLOCK
    ensures Built(s, nextbno + 1, pend + {nextbno}) && 2 + NBITBLOCK <= nextbno && NBlocks(s) == NBLOCK
  {
    hide Value, Held;
  }

  /** Writing the content of a block that is handed out and in no slot. */
  lemma FillPending(s: State, nextbno: nat, pend: set<nat>, b: nat, data: seq<nat>)
    requires Built(s, nextbno, pend) && b in pend && 0 < b < nextbno && |data| == NINDIRECT
    ensures var s' := s.(blocks := s.blocks[b := data]);
            Built(s', nextbno, pend) && forall p :: Value(s', p) == Value(s, p)
  {
    hide Held;
    var s' := s.(blocks := s.blocks[b := data]);
    forall f | f in s.files ensures s.files[f].indirect != b {
      assert Value(s, Indirect(f)) == s.files[f].indirect;
    }
    assert forall p :: Value(s', p) == Value(s, p);
    SameHeld(s, s');
  }

  /** Putting a pending block into an empty slot. */
  lemma LinkPending(s: State, nextbno: nat, pend: set<nat>, p: Slot, b: nat)
    requires Built(s, nextbno, pend) && b in pend && 2 + NBITBLOCK <= b < nextbno
    requires p.f in s.files && !p.Indirect? && Value(s, p) == 0
    requires p.Direct? ==> p.i < NDIRECT
    requires p.Entry? ==> NDIRECT <= p.i < NINDIRECT && s.files[p.f].indirect != 0
    ensures p.Entry? ==> 0 < s.files[p.f].indirect < NBlocks(s)
    ensures var s' := SetSlot(s, p, b);
            Built(s', nextbno, pend - {b}) && forall q :: Value(s', q) == if q == p then b else Value(s, q)
  {
    hide Held;
    if p.Entry? {
      assert Value(s, Indirect(p.f)) == s.files[p.f].indirect;
    }
    var s' := SetSlot(s, p, b);
    forall q ensures Value(s', q) == if q == p then b else Value(s, q) {
      SlotWrite(s, p, b, q);
    }
    LinkedHeld(s, s', p, b);
    hide Value;
  }

  lemma LinkedHeld(s: State, s': State, p: Slot, b: nat)
    requires Shaped(s) && Shaped(s') && Value(s, p) == 0 && b != 0
    requires forall q :: Value(s', q) == if q == p then b else Value(s, q)
    ensures forall c :: Held(s', c) <==> Held(s, c) || c == b
  {
    hide Value;
    assert Value(s', p) == b;
    forall c ensures Held(s', c) <==> Held(s, c) || c == b {
      if Held(s, c) {
        var q :| Value(s, q) == c;
        assert Value(s', q) == c;
      }
      if Held(s', c) && c != b {
        var q :| Value(s', q) == c;
        assert Value(s, q) == c;
      }
    }
  }

  /** A new indirect block, cleared since the disk was. */
  lemma LinkIndirect(s: State, nextbno: nat, pend: set<nat>, f: nat, b: nat)
    requires Built(s, nextbno, pend) && b in pend && 2 + NBITBLOCK <= b < nextbno
    requires f in s.files && s.files[f].indirect == 0 && s.blocks[b] == ZeroBlock()
    ensures var s' := SetSlot(s, Indirect(f), b);
            Built(s', nextbno, pend - {b}) && forall q :: Value(s', q) == if q == Indirect(f) then b else Value(s, q)
  {
    hide Held;
    var s' := SetSlot(s, Indirect(f), b);
    forall q ensures Value(s', q) == if q == Indirect(f) then b else Value(s, q) {
    }
    LinkedHeld(s, s', Indirect(f), b);
    hide Value;
  }

  /** A new struct File, all zero. */
  lemma NewFile(s: State, nextbno: nat, f: nat, n: Inode)
    requires Built(s, nextbno, {}) && f !in s.files && Blank(n)
    ensures var s' := s.(files := s.files[f := n]);
            && Built(s', nextbno, {}) && NoBlocksFrom(s', f, 0)
            && (forall p :: Value(s', p) == Value(s, p))
  {
    hide Held;
    var s' := s.(files := s.files[f := n]);
    assert forall p :: Value(s', p) == Value(s, p);
    SameHeld(s, s');
  }

  lemma SizeOnly(s: State, nextbno: nat, pend: set<nat>, f: nat, size: nat)
    requires Built(s, nextbno, pend) && f in s.files
    ensures var s' := WithSize(s, f, size);
            Built(s', nextbno, pend) && forall p :: Value(s', p) == Value(s, p)
  {
    hide Held;
    var s' := WithSize(s, f, size);
    assert forall p :: Value(s', p) == Value(s, p);
    SameHeld(s, s');
  }

  /* ---- The result ---- */

  /** The bitmap that flush_bitmap leaves: used exactly below nextbno and from NBLOCK on. */
  ghost predicate Flushed(bitmap: seq<bv32>, nextbno: nat)
  {
    |bitmap| == NINDIRECT && forall b: nat :: b < 32 * NINDIRECT ==> (!Test(bitmap, b) <==> b < nextbno || b >= NBLOCK)
  }

  ghost predicate InOneSlot(s: State, b: nat)
    requires Shaped(s)
  {
    exists p :: Value(s, p) == b && forall q :: Value(s, q) == b ==> q == p
  }

  /** Such an image satisfies the invariant of the server, and every block handed out is in exactly one
      slot. */
  lemma ImageIsGood(s: State, nextbno: nat)
    requires Built(s, nextbno, {}) && Flushed(s.bitmap, nextbno)
    ensures Inv(s)
    ensures forall b :: 2 + NBITBLOCK <= b < nextbno ==> InOneSlot(s, b)
  {
    hide Test, Value;
    forall b | 2 + NBITBLOCK <= b < nextbno ensures InOneSlot(s, b) {
      assert Held(s, b);
      var p :| Value(s, p) == b;
      assert forall q :: Value(s, q) == b ==> q == p;
    }
  }

  /** A directory with n struct Files in use has just the blocks that they need. */
  predicate Fills(n: nat, size: nat)
  {
    size == (n + FILE2BLK - 1) / FILE2BLK * BY2BLK
  }

  lemma OneMoreFills(n: nat, size: nat)
    requires Fills(n, size)
    ensures Fills(n + 1, if n >= size / BY2BLK * FILE2BLK then size + BY2BLK else size)
  {
    var q := (n + FILE2BLK - 1) / FILE2BLK;
    assert size / BY2BLK == q;
  }

  /* ---- The program ---- */

  class Image {
    const bitmap: array<bv32>
    var blocks: seq<seq<nat>>
    var files: map<nat, Inode>
    var nextbno: nat
    /** Directories, with the number of struct Files in use in each. */
    var used: map<nat, nat>
    var nfiles: nat

    ghost function S(): State
      reads this, bitmap
    {
      State(bitmap[..], blocks, {}, files)
    }

    ghost predicate Consistent(pend: set<nat>)
      reads this, bitmap
      ensures Consistent(pend) ==> Shaped(S()) && NBlocks(S()) == NBLOCK
    {
      && Built(S(), nextbno, pend) && AllFree(bitmap[..])
      && (forall f :: f in files ==> f < nfiles)
      && (forall d :: d in used ==> d in files && NoBlocksFrom(S(), d, files[d].size / BY2BLK))
    }

    ghost predicate Valid()
      reads this, bitmap
      ensures Valid() ==> Shaped(S()) && NBlocks(S()) == NBLOCK
    {
      Consistent({}) && forall d :: d in used ==> Fills(used[d], files[d].size)
    }

    /** init_disk; struct File 0 is the root. */
    constructor ()
      ensures Valid() && fresh(bitmap) && nextbno == 3 && 0 in used
    {
      bitmap := new bv32[NINDIRECT](i => if i < NBLOCK / 32 then 0xffff_ffff else 0);
      blocks := seq(NBLOCK, _ => ZeroBlock());
      files := map[0 := Inode(0, seq(NDIRECT, _ => 0), 0)];
      nextbno, used, nfiles := 2 + NBITBLOCK, map[0 := 0], 1;
      new;
      AllOnes(bitmap[..]);
      EmptyImage(S());
    }

    /** next_block, without the block type */
    method NextBlock() returns (bno: nat)
      requires nextbno < NBLOCK
      modifies this`nextbno
      ensures bno == old(nextbno) && nextbno == old(nextbno) + 1
    {
      bno := nextbno;
      nextbno := nextbno + 1;
    }

    /** Blocks that linking block number nblk of file f takes besides the block itself. */
    function IndexBlocks(f: nat, nblk: nat): nat
      requires f in files
      reads this
    {
      if nblk >= NDIRECT && files[f].indirect == 0 then 1 else 0
    }

    /** save_block_link, for a block that has just been handed out. */
    method SaveBlockLink(f: nat, nblk: nat, bno: nat)
      requires Shaped(S()) && Built(S(), nextbno, {bno}) && f in files && nblk < NINDIRECT
      requires 2 + NBITBLOCK <= bno < nextbno && Value(S(), SlotOf(f, nblk)) == 0
      requires nextbno + IndexBlocks(f, nblk) <= NBLOCK
      modifies this`nextbno, this`blocks, this`files
      ensures Shaped(S()) && Built(S(), nextbno, {}) && bitmap[..] == old(bitmap[..])
      ensures NBlocks(old(S())) == NBlocks(S()) == NBLOCK && DataStays(old(S()), S())
      ensures nextbno == old(nextbno) + old(IndexBlocks(f, nblk))
      ensures Value(S(), SlotOf(f, nblk)) == bno
      ensures forall p :: p != SlotOf(f, nblk) && p != Indirect(f) ==> Value(S(), p) == Value(old(S()), p)
      ensures files.Keys == old(files.Keys) && forall g :: g in files ==> files[g].size == old(files[g].size)
      ensures f in files && files[f].indirect ==
                (if old(IndexBlocks(f, nblk)) == 1 then old(nextbno) else old(files[f].indirect))
      ensures forall b :: 0 <= b < NBLOCK && b != files[f].indirect ==> blocks[b] == old(blocks[b])
    {
      hide Built, DataStays;
      ghost var s0, n0 := S(), nextbno;
      BuiltShape(s0, n0, {bno});
      if nblk < NDIRECT {
        LinkPending(S(), nextbno, {bno}, Direct(f, nblk), bno);
        assert {bno} - {bno} == {};
        files := files[f := WithDirect(files[f], nblk, bno)];
      } else {
        if files[f].indirect == 0 {
          HandOut(S(), nextbno, {bno});
          var b := NextBlock();
          RestIsZero(old(S()), old(nextbno), {bno});
          LinkIndirect(S(), nextbno, {bno} + {b}, f, b);
          assert {bno} + {b} - {b} == {bno};
          files := files[f := files[f].(indirect := b)];
        }
        LinkPending(S(), nextbno, {bno}, Entry(f, nblk), bno);
        assert {bno} - {bno} == {};
        var words: seq<nat> := blocks[files[f].indirect][nblk := bno];
        blocks := blocks[files[f].indirect := words];
      }
      DataStaysAfterLink(s0, S(), n0, {bno}, f, SlotOf(f, nblk));
    }

    /** make_link_block */
    method MakeLinkBlock(d: nat, nblk: nat) returns (bno: nat)
      requires Valid() && d in used && nblk == files[d].size / BY2BLK && nblk < NINDIRECT
      requires nextbno + 1 + IndexBlocks(d, nblk) <= NBLOCK
      modifies this`nextbno, this`blocks, this`files
      ensures Consistent({}) && files.Keys == old(files.Keys) && bitmap[..] == old(bitmap[..])
      ensures DataStays(old(S()), S())
      ensures Value(S(), SlotOf(d, nblk)) == bno == old(nextbno)
      ensures nextbno == old(nextbno) + 1 + old(IndexBlocks(d, nblk))
      ensures forall p :: p != SlotOf(d, nblk) && p != Indirect(d) ==> Value(S(), p) == Value(old(S()), p)
      ensures forall g :: g in files ==>
                files[g].size == if g == d then old(files[d].size) + BY2BLK else old(files[g].size)
    {
      hide Built, Value, AllFree, DataStays, Fills;
      ghost var s0 := S();
      HandOut(S(), nextbno, {});
      assert {} + {nextbno} == {nextbno};
      bno := NextBlock();
      assert NoBlocksFrom(old(S()), d, nblk);
      assert Value(S(), SlotOf(d, nblk)) == 0;
      hide NoBlocksFrom;
      SaveBlockLink(d, nblk, bno);
      SizeOnly(S(), nextbno, {}, d, files[d].size + BY2BLK);
      ghost var s1 := S();
      files := files[d := files[d].(size := files[d].size + BY2BLK)];
      assert S() == WithSize(s1, d, files[d].size);
      SameSlotsDataStays(s1, S());
      DataStaysTwice(s0, s1, S());
      forall x | x in used ensures NoBlocksFrom(S(), x, files[x].size / BY2BLK) {
        NoBlocksAfterLink(old(S()), S(), d, nblk, x, old(files[x].size) / BY2BLK, files[x].size / BY2BLK);
      }
    }

    /** create_file: the first unused struct File of the directory, in a new block if all are in use. */
    method CreateFile(d: nat) returns (f: nat)
      requires Valid() && d in used && files[d].size / BY2BLK < NINDIRECT
      requires nextbno + 1 + IndexBlocks(d, files[d].size / BY2BLK) <= NBLOCK
      modifies this`nextbno, this`blocks, this`files, this`used, this`nfiles
      ensures Valid() && f in files && f !in used && NoBlocksFrom(S(), f, 0)
      ensures f !in old(files) && files.Keys == old(files.Keys) + {f} && files[f].indirect == 0 && files[f].size == 0
      ensures used == old(used)[d := old(used[d]) + 1]
              && used.Keys == old(used.Keys)
      ensures nextbno <= old(nextbno) + 1 + old(IndexBlocks(d, files[d].size / BY2BLK))
      ensures bitmap[..] == old(bitmap[..]) && DataStays(old(S()), S())
    {
      hide Built, Value, AllFree, DataStays, Fills;
      ghost var s0 := S();
      SameSlotsDataStays(s0, s0);
      var nblk := files[d].size / BY2BLK;
      OneMoreFills(used[d], files[d].size);
      if used[d] >= nblk * FILE2BLK {
        var bno := MakeLinkBlock(d, nblk);
      }
      f := nfiles;
      var blank := Inode(0, seq(NDIRECT, _ => 0), 0);
      NewFile(S(), nextbno, f, blank);
      ghost var s1 := S();
      files := files[f := blank];
      SameSlotsDataStays(s1, S());
      DataStaysTwice(s0, s1, S());
      nfiles := nfiles + 1;
      used := used[d := used[d] + 1];
      forall x | x in used ensures NoBlocksFrom(S(), x, files[x].size / BY2BLK) {
        assert NoBlocksFrom(s1, x, files[x].size / BY2BLK);
      }
    }

    /** The part of write_directory that makes the directory itself. */
    method MakeDirectory(d: nat) returns (f: nat)
      requires Valid() && d in used && files[d].size / BY2BLK < NINDIRECT
      requires nextbno + 1 + IndexBlocks(d, files[d].size / BY2BLK) <= NBLOCK
      modifies this`nextbno, this`blocks, this`files, this`used, this`nfiles
      ensures Valid() && f !in old(files) && used.Keys == old(used.Keys) + {f} && used[f] == 0
      ensures DataStays(old(S()), S())
    {
      hide Built, Value, AllFree, DataStays;
      f := CreateFile(d);
      used := used[f := 0];
    }

    /** The struct File of a new file, with its size. */
    method CreateSized(d: nat, size: nat) returns (f: nat)
      requires Valid() && d in used && files[d].size / BY2BLK < NINDIRECT
      requires nextbno + 1 + IndexBlocks(d, files[d].size / BY2BLK) <= NBLOCK
      modifies this`nextbno, this`blocks, this`files, this`used, this`nfiles
      ensures Valid() && f in files && f !in used && f !in old(files) && NoBlocksFrom(S(), f, 0)
      ensures files[f].size == size && files[f].indirect == 0 && DataStays(old(S()), S())
      ensures nextbno <= old(nextbno) + 1 + old(IndexBlocks(d, files[d].size / BY2BLK))
    {
      hide Built, Value, AllFree, DataStays, Fills;
      ghost var s := S();
      f := CreateFile(d);
      SizeOnly(S(), nextbno, {}, f, size);
      ghost var s0 := S();
      files := files[f := files[f].(size := size)];
      assert S() == WithSize(s0, f, size);
      SameNoBlocks(s0, S());
      SameSlotsDataStays(s0, S());
      DataStaysTwice(s, s0, S());
    }

    /** write_file: the content of the file, block by block. */
    method WriteFile(d: nat, size: nat, chunks: seq<seq<nat>>) returns (f: nat)
      requires Valid() && d in used && files[d].size / BY2BLK < NINDIRECT && |chunks| <= NINDIRECT
      requires forall c :: 0 <= c < |chunks| ==> |chunks[c]| == NINDIRECT
      requires nextbno + 1 + IndexBlocks(d, files[d].size / BY2BLK) + |chunks|
                 + (if |chunks| > NDIRECT then 1 else 0) <= NBLOCK
      modifies this`nextbno, this`blocks, this`files, this`used, this`nfiles
      ensures Valid() && f in files && f !in old(files) && files[f].size == size
      ensures NoBlocksFrom(S(), f, |chunks|)
      ensures forall i :: 0 <= i < |chunks| ==> HoldsBlock(S(), f, i, chunks[i])
      ensures DataStays(old(S()), S())
    {
      hide Built, Value, AllFree, DataStays, Fills;
      ghost var s := S();
      f := CreateSized(d, size);
      var iblk := 0;
      while iblk < |chunks|
        invariant 0 <= iblk <= |chunks| && Valid() && f in files && f !in used && files[f].size == size
        invariant NoBlocksFrom(S(), f, iblk) && (iblk <= NDIRECT ==> files[f].indirect == 0)
        invariant forall i :: 0 <= i < iblk ==> HoldsBlock(S(), f, i, chunks[i])
        invariant DataStays(s, S())
        invariant nextbno + (|chunks| - iblk) + (if iblk <= NDIRECT < |chunks| then 1 else 0) <= NBLOCK
        invariant iblk > NDIRECT ==> files[f].indirect != 0
      {
        ghost var s1 := S();
        AppendBlock(f, iblk, chunks[iblk]);
        DataStaysTwice(s, s1, S());
        forall i | 0 <= i < iblk ensures HoldsBlock(S(), f, i, chunks[i]) {
          HeldOn(s1, S(), f, i, chunks[i]);
        }
        iblk := iblk + 1;
      }
    }

    /** One round of the loop of write_file: the block is read into place, handed out and linked. */
    method AppendBlock(f: nat, iblk: nat, data: seq<nat>)
      requires Valid() && f in files && f !in used && NoBlocksFrom(S(), f, iblk) && iblk < NINDIRECT
               && |data| == NINDIRECT
      requires nextbno + 1 + IndexBlocks(f, iblk) <= NBLOCK
      modifies this`nextbno, this`blocks, this`files
      ensures Valid() && f in files && files[f].size == old(files[f].size) && NoBlocksFrom(S(), f, iblk + 1)
      ensures HoldsBlock(S(), f, iblk, data) && DataStays(old(S()), S())
      ensures nextbno == old(nextbno) + 1 + old(IndexBlocks(f, iblk))
      ensures files[f].indirect == (if old(IndexBlocks(f, iblk)) == 1 then old(nextbno) + 1 else old(files[f].indirect))
    {
      hide Built, Value, AllFree, DataStays, Fills;
      ghost var s1 := S();
      HandOut(S(), nextbno, {});
      assert {} + {nextbno} == {nextbno};
      var bno := NextBlock();
      FillPending(S(), nextbno, {bno}, bno, data);
      PendingIsInNoSlot(S(), nextbno, {bno}, bno);
      blocks := blocks[bno := data];
      ghost var s2 := S();
      SameSlotsDataStays(s1, s2);
      assert NoBlocksFrom(s1, f, iblk);
      SaveBlockLink(f, iblk, bno);
      DataStaysTwice(s1, s2, S());
      IndirectValueIs(S(), f);
      SlotsDiffer(S(), nextbno, {}, SlotOf(f, iblk), Indirect(f));
      forall x | x in used ensures NoBlocksFrom(S(), x, files[x].size / BY2BLK) {
        OtherNoBlocks(s1, S(), f, x, files[x].size / BY2BLK);
      }
      NoBlocksNext(s1, S(), f, iblk);
    }

    /** flush_bitmap: the image is then one that the server's invariant holds for. */
    method FlushBitmap()
      requires Valid()
      modifies bitmap
      ensures Inv(S()) && Flushed(bitmap[..], nextbno)
      ensures forall b :: 2 + NBITBLOCK <= b < nextbno ==> InOneSlot(S(), b)
    {
      hide Value, Test;
      ghost var s0 := S();
      var i := 0;
      while i < nextbno
        invariant 0 <= i <= nextbno && bitmap.Length == NINDIRECT
        invariant forall b: nat :: b < 32 * NINDIRECT ==> (Test(bitmap[..], b) <==> i <= b < NBLOCK)
      {
        ClearWord(i);
        i := i + 1;
      }
      BitmapIsAside(s0, S(), nextbno);
      ImageIsGood(S(), nextbno);
    }

    /** One word of the bitmap block: &= ~(1 << (i % 32)) */
    method ClearWord(i: nat)
      requires bitmap.Length == NINDIRECT && i < 32 * NINDIRECT
      modifies bitmap
      ensures forall b: nat :: b < 32 * NINDIRECT ==> (Test(bitmap[..], b) <==> b != i && Test(old(bitmap[..]), b))
    {
      AllBits(bitmap[..], i);
      bitmap[i / 32] := bitmap[i / 32] & !Mask(i % 32);
      assert bitmap[..] == ClearBit(old(bitmap[..]), i);
    }
  }

  /** Block i of file f is there and holds the data. */
  ghost predicate HoldsBlock(s: State, f: nat, i: nat, data: seq<nat>)
    requires Shaped(s)
  {
    0 < Value(s, SlotOf(f, i)) < NBlocks(s) && s.blocks[Value(s, SlotOf(f, i))] == data
  }

  lemma HeldOn(s: State, s': State, f: nat, i: nat, data: seq<nat>)
    requires Shaped(s) && Shaped(s') && NBlocks(s) == NBlocks(s') == NBLOCK && DataStays(s, s')
    requires HoldsBlock(s, f, i, data)
    ensures HoldsBlock(s', f, i, data)
  {
    hide Value;
  }

  lemma IndirectValueIs(s: State, f: nat)
    requires Shaped(s) && f in s.files
    ensures Value(s, Indirect(f)) == s.files[f].indirect
  {
  }

  lemma AllOnes(bitmap: seq<bv32>)
    requires |bitmap| == NINDIRECT && forall i :: 0 <= i < NINDIRECT ==> bitmap[i] == if i < NBLOCK / 32
               then 0xffff_ffff else 0
    ensures AllFree(bitmap)
  {
    forall b: nat | b < 32 * NINDIRECT ensures Test(bitmap, b) <==> b < NBLOCK {
      var m := Mask(b % 32);
      OneBit(m);
    }
  }

  lemma OneBit(m: bv32)
    requires m != 0
    ensures 0xffff_ffff & m != 0 && (0 as bv32) & m == 0
  {
  }

  lemma EmptyImage(s: State)
    requires Shaped(s) && NBlocks(s) == NBLOCK && s.files.Keys == {0} && Blank(s.files[0])
    requires forall b :: 0 <= b < NBLOCK ==> s.blocks[b] == ZeroBlock()
    ensures Built(s, 2 + NBITBLOCK, {}) && NoBlocksFrom(s, 0, 0)
  {
    assert forall p :: Value(s, p) == 0;
  }

  lemma RestIsZero(s: State, nextbno: nat, pend: set<nat>)
    requires Built(s, nextbno, pend) && nextbno < NBLOCK
    ensures s.blocks[nextbno] == ZeroBlock()
  {
  }

  lemma NoBlocksAfterLink(s: State, s': State, d: nat, nblk: nat, x: nat, n: nat, n': nat)
    requires Shaped(s) && Shaped(s') && NoBlocksFrom(s, x, n) && n' == if x == d then nblk + 1 else n
    requires x == d ==> n == nblk
    requires forall p :: p != SlotOf(d, nblk) && p != Indirect(d) ==> Value(s', p) == Value(s, p)
    ensures NoBlocksFrom(s', x, n')
  {
    hide Value;
  }

  lemma OtherNoBlocks(s: State, s': State, f: nat, x: nat, n: nat)
    requires Shaped(s) && Shaped(s') && NoBlocksFrom(s, x, n) && x != f
    requires forall p: Slot :: p.f != f ==> Value(s', p) == Value(s, p)
    ensures NoBlocksFrom(s', x, n)
  {
    hide Value;
  }

  lemma NoBlocksNext(s: State, s': State, f: nat, n: nat)
    requires Shaped(s) && Shaped(s') && NoBlocksFrom(s, f, n)
    requires forall p :: p != SlotOf(f, n) && p != Indirect(f) ==> Value(s', p) == Value(s, p)
    ensures NoBlocksFrom(s', f, n + 1)
  {
    hide Value;
  }

  lemma SameNoBlocks(s: State, s': State)
    requires Shaped(s) && Shaped(s') && forall p :: Value(s', p) == Value(s, p)
    ensures forall f, n :: NoBlocksFrom(s, f, n) ==> NoBlocksFrom(s', f, n)
  {
    hide Value;
  }

  lemma BitmapIsAside(s: State, s': State, nextbno: nat)
    requires Built(s, nextbno, {}) && s' == s.(bitmap := s'.bitmap) && |s'.bitmap| == NINDIRECT
    ensures Built(s', nextbno, {})
  {
    hide Held;
    assert forall p :: Value(s', p) == Value(s, p);
    SameHeld(s, s');
  }
}
