/** The block code of fs/fs.c on its own variables: the bitmap words, the cached blocks and the struct
    Files, with the second versions of some functions that the file also holds. */
module FileSystem {
  import opened Bitmap
  import opened Errors
  import opened FsBlocks
  import opened Options

  class Server {
    const bitmap: array<bv32>
    var blocks: seq<seq<nat>>
    var cached: set<nat>
    var files: map<nat, Inode>

    function S(): State
      reads this, bitmap
    {
      State(bitmap[..], blocks, cached, files)
    }

    ghost predicate Valid()
      reads this, bitmap
      ensures Valid() ==> Shaped(S())
    {
      Inv(S())
    }

    /** block_is_free; |blocks| is super->s_nblocks. */
    method BlockIsFree(b: nat) returns (free: bool)
      requires Shaped(S())
      ensures free == IsFree(S(), b)
    {
      if b >= |blocks| {
        return false;
      }
      if bitmap[b / 32] & Mask(b % 32) != 0 {
        return true;
      }
      return false;
    }

    /** free_block */
    method FreeBlock(b: nat)
      requires Shaped(S())
      modifies bitmap
      ensures S() == Free(old(S()), b)
    {
      if b == 0 || b >= |blocks| {
        return;
      }
      bitmap[b / 32] := bitmap[b / 32] | Mask(b % 32);
      assert bitmap[..] == SetBit(old(bitmap[..]), b);
    }

    /** bitmap[b / 32] &= ~(1 << (b % 32)) */
    method MarkUsed(b: nat)
      requires Shaped(S()) && b < |blocks|
      modifies bitmap
      ensures S() == old(S()).(bitmap := ClearBit(old(bitmap[..]), b))
    {
      bitmap[b / 32] := bitmap[b / 32] & !Mask(b % 32);
      assert bitmap[..] == ClearBit(old(bitmap[..]), b);
    }

    /** alloc_block_num */
    method AllocBlockNum() returns (r: int)
      requires Shaped(S())
      modifies bitmap
      ensures FirstFree(old(S()), FIRST_BLOCK) == None ==> r == -E_NO_DISK && S() == old(S())
      ensures FirstFree(old(S()), FIRST_BLOCK).Some? ==>
                r >= 0 && FirstFree(old(S()), FIRST_BLOCK) == Some(r)
                && S() == old(S()).(bitmap := ClearBit(old(bitmap[..]), r))
    {
      hide Mask, FirstFree, ClearBit;
      var b := FIRST_BLOCK;
      FirstFreeFrom(S(), b);
      while b < |blocks|
        invariant FIRST_BLOCK <= b && (b <= |blocks| || b == FIRST_BLOCK)
        invariant S() == old(S())
        invariant FirstFree(S(), FIRST_BLOCK) == FirstFree(S(), b)
        invariant b >= |blocks| ==> FirstFree(S(), b) == None
      {
        FirstFreeFrom(S(), b);
        FirstFreeFrom(S(), b + 1);
        if bitmap[b / 32] & Mask(b % 32) != 0 {
          assert IsFree(S(), b);
          MarkUsed(b);
          return b;
        }
        assert !IsFree(S(), b);
        b := b + 1;
      }
      return -E_NO_DISK;
    }

    /** map_block: a page of zero bytes, unless the block is in the cache. */
    method MapCache(b: nat, mem: bool) returns (r: int)
      requires Shaped(S()) && b < |blocks|
      modifies this`cached, this`blocks
      ensures r == if b in old(cached) || mem then 0 else -E_NO_MEM
      ensures S() == if b in old(cached) || !mem then old(S())
                else Cache(old(S()).(blocks := old(blocks)[b := ZeroBlock()]), b)
    {
      if b in cached {
        return 0;
      }
      if !mem {
        return -E_NO_MEM;
      }
      blocks := blocks[b := ZeroBlock()];
      cached := cached + {b};
      return 0;
    }

    /** alloc_block */
    method AllocBlock(mem: bool) returns (r: int)
      requires Shaped(S())
      modifies this`cached, this`blocks, bitmap
      ensures Outcome(S(), r) == Alloc(old(S()), mem)
    {
      hide SetBit, ClearBit, FirstFree;
      r := AllocBlockNum();
      if r < 0 {
        return;
      }
      var bno := r;
      r := MapCache(bno, mem);
      if r < 0 {
        FreeBlock(bno);
        return;
      }
      return bno;
    }

    /** read_block, for its effect on the cache. It panics on a free or missing block, which CanRead rules
        out. */
    method ReadBlock(b: nat)
      requires Shaped(S()) && CanRead(S(), b)
      modifies this`cached
      ensures S() == Cache(old(S()), b)
    {
      cached := cached + {b};
    }

    /** *ptr */
    method Load(ptr: Slot) returns (v: nat)
      requires Shaped(S()) && ptr.f in files && !ptr.Indirect?
      requires ptr.Direct? ==> ptr.i < NDIRECT
      requires ptr.Entry? ==> NDIRECT <= ptr.i < NINDIRECT && 0 < files[ptr.f].indirect < |blocks|
      ensures v == Value(S(), ptr)
    {
      match ptr
      case Direct(f, i) => v := files[f].direct[i];
      case Entry(f, i) => v := blocks[files[f].indirect][i];
    }

    /** *ptr = v */
    method Store(ptr: Slot, v: nat)
      requires Shaped(S()) && ptr.f in files
      requires ptr.Direct? ==> ptr.i < NDIRECT
      requires ptr.Entry? ==> ptr.i < NINDIRECT && files[ptr.f].indirect < |blocks|
      modifies this`files, this`blocks
      ensures S() == SetSlot(old(S()), ptr, v)
    {
      match ptr
      case Direct(f, i) => files := files[f := WithDirect(files[f], i, v)];
      case Indirect(f) => files := files[f := files[f].(indirect := v)];
      case Entry(f, i) =>
        var b := files[f].indirect;
        var words: seq<nat> := blocks[b][i := v];
        blocks := blocks[b := words];
    }

    /** file_block_walk. read_block is called on the indirect block only, and does not panic. */
    method FileBlockWalk(f: nat, filebno: nat, alloc: bool, mem: bool) returns (r: int, ptr: Slot)
      requires Valid() && f in files && GrowsCleanly(S(), f, filebno, alloc)
      modifies this, bitmap
      ensures Valid() && Outcome(S(), r) == Walk(old(S()), f, filebno, alloc, mem)
      ensures r >= 0 ==> ptr == SlotOf(f, filebno)
    {
      WalkKeeps(S(), f, filebno, alloc, mem);
      ptr := Indirect(f);
      if filebno < NDIRECT {
        ptr := Direct(f, filebno);
      } else if filebno < NINDIRECT {
        if files[f].indirect == 0 {
          if !alloc {
            return -E_NOT_FOUND, ptr;
          }
          AllocGives(S(), mem);
          hide FirstFree, Inv;
          r := AllocBlock(mem);
          if r < 0 {
            return;
          }
          Store(Indirect(f), r);
        } else {
          IndirectIsBlock(S(), f);
        }
        ReadBlock(files[f].indirect);
        ptr := Entry(f, filebno);
      } else {
        return -E_INVAL, ptr;
      }
      return 0, ptr;
    }

    /** file_map_block */
    method FileMapBlock(f: nat, filebno: nat, alloc: bool, mem: bool, mem2: bool) returns (r: int, diskbno: nat)
      requires Valid() && f in files && GrowsCleanly(S(), f, filebno, alloc)
      modifies this, bitmap
      ensures Valid() && Outcome(S(), r) == MapBlock(old(S()), f, filebno, alloc, mem, mem2)
      ensures r >= 0 ==> diskbno == Value(S(), SlotOf(f, filebno)) && diskbno != 0 && CanRead(S(), diskbno)
    {
      WalkKeeps(S(), f, filebno, alloc, mem);
      MapBlockKeeps(S(), f, filebno, alloc, mem, mem2);
      diskbno := 0;
      var ptr;
      r, ptr := FileBlockWalk(f, filebno, alloc, mem);
      if r < 0 {
        return;
      }
      var v := Load(ptr);
      if v == 0 {
        if !alloc {
          return -E_NOT_FOUND, 0;
        }
        r := AllocBlock(mem2);
        if r < 0 {
          return;
        }
        Store(ptr, r);
      }
      diskbno := Load(ptr);
      SlotsCanBeRead(S(), ptr);
      r := 0;
    }

    /** file_clear_block */
    method FileClearBlock(f: nat, filebno: nat) returns (r: int)
      requires Valid() && f in files
      modifies this, bitmap
      ensures Valid() && f in files && Outcome(S(), r) == ClearBlock(old(S()), f, filebno)
    {
      WalkKeeps(S(), f, filebno, false, true);
      ClearBlockKeeps(S(), f, filebno);
      var ptr;
      r, ptr := FileBlockWalk(f, filebno, false, true);
      if r < 0 {
        return;
      }
      hide Inv, Value, Walk;
      var v := Load(ptr);
      if v != 0 {
        FreeBlock(v);
        Store(ptr, 0);
      }
      return 0;
    }

    /** The last step of both truncations. */
    method FreeIndirect(f: nat)
      requires Valid() && f in files
      modifies this`files, this`blocks, bitmap
      ensures Valid() && S() == DropIndirect(old(S()), f) && f in files
    {
      DropIndirectDoes(S(), f);
      hide Inv, Value;
      if files[f].indirect != 0 {
        FreeBlock(files[f].indirect);
        Store(Indirect(f), 0);
      }
    }

    method ClearLoop(f: nat, from: nat, to: nat)
      requires Valid() && f in files
      modifies this, bitmap
      ensures Valid() && f in files && S() == ClearRange(old(S()), f, from, to)
    {
      hide ClearBlock, Inv;
      var bno := from;
      while bno < to
        invariant from <= bno && Valid() && f in files
        invariant ClearRange(old(S()), f, from, to) == ClearRange(S(), f, bno, to)
      {
        var r := FileClearBlock(f, bno);
        bno := bno + 1;
      }
    }

    /** file_truncate */
    method FileTruncate(f: nat, newsize: nat)
      requires Valid() && f in files
      modifies this, bitmap
      ensures Valid() && S() == Truncate(old(S()), f, newsize) && CutTo(old(S()), S(), f, newsize)
    {
      TruncateCuts(S(), f, newsize);
      TruncateKeeps(S(), f, newsize);
      TruncateParts(S(), f, newsize);
      hide Inv, ClearRange, DropIndirect, Truncate, Value, OldBlocks, NewBlocks, Shaped, Test, CutTo;
      var oldNblocks := OldBlocks(files[f].size);
      var newNblocks := NewBlocks(newsize);
      if newNblocks <= NDIRECT {
        ClearLoop(f, newNblocks, oldNblocks);
        FreeIndirect(f);
      } else {
        ClearLoop(f, newNblocks, oldNblocks);
      }
      files := files[f := files[f].(size := newsize)];
    }

    /** file_set_size, without the flush of the directory */
    method FileSetSize(f: nat, newsize: nat)
      requires Valid() && f in files
      modifies this, bitmap
      ensures Valid() && S() == SetSize(old(S()), f, newsize)
      ensures old(files[f].size) > newsize ==> CutTo(old(S()), S(), f, newsize)
    {
      SetSizeCuts(S(), f, newsize);
      SetSizeKeeps(S(), f, newsize);
      hide Inv, Truncate, CutTo;
      if files[f].size > newsize {
        TruncateKeeps(S(), f, newsize);
        FileTruncate(f, newsize);
        assert files[f := files[f].(size := newsize)] == files;
      }
      files := files[f := files[f].(size := newsize)];
    }

    /* ---- The second versions ---- */

    /** get_block_file: file_map_block without alloc, in one function. */
    method GetBlockFile(f: nat, filebno: nat) returns (r: int, diskbno: nat)
      requires Valid() && f in files
      modifies this`cached
      ensures Valid() && Outcome(S(), r) == MapBlock(old(S()), f, filebno, false, true, true)
      ensures r >= 0 ==> diskbno == Value(S(), SlotOf(f, filebno)) && diskbno != 0 && CanRead(S(), diskbno)
    {
      WalkKeeps(S(), f, filebno, false, true);
      MapBlockKeeps(S(), f, filebno, false, true, true);
      diskbno := 0;
      if filebno < NDIRECT {
        diskbno := files[f].direct[filebno];
        assert diskbno == Value(S(), Direct(f, filebno));
      } else if filebno < NINDIRECT {
        if files[f].indirect == 0 {
          return -E_NOT_FOUND, 0;
        }
        IndirectIsBlock(S(), f);
        ReadBlock(files[f].indirect);
        diskbno := blocks[files[f].indirect][filebno];
        assert diskbno == Value(S(), Entry(f, filebno));
      } else {
        return -E_INVAL, 0;
      }
      if diskbno == 0 {
        return -E_NOT_FOUND, 0;
      }
      SlotsCanBeRead(S(), SlotOf(f, filebno));
      r := 0;
    }

    /** free_block_file: file_clear_block in one function. */
    method FreeBlockFile(f: nat, filebno: nat) returns (r: int)
      requires Valid() && f in files
      modifies this, bitmap
      ensures Valid() && f in files && Outcome(S(), r) == ClearBlock(old(S()), f, filebno)
    {
      WalkKeeps(S(), f, filebno, false, true);
      ClearBlockKeeps(S(), f, filebno);
      var ptr;
      if filebno < NDIRECT {
        ptr := Direct(f, filebno);
      } else if filebno < NINDIRECT {
        if files[f].indirect == 0 {
          return -E_NOT_FOUND;
        }
        IndirectIsBlock(S(), f);
        ReadBlock(files[f].indirect);
        ptr := Entry(f, filebno);
      } else {
        return -E_INVAL;
      }
      ghost var w := Walk(old(S()), f, filebno, false, true);
      assert Outcome(S(), 0) == w;
      hide Inv, Value, Walk;
      var v := Load(ptr);
      if v != 0 {
        FreeBlock(v);
        Store(ptr, 0);
      }
      return 0;
    }

    method FreeLoop(f: nat, from: nat, to: nat)
      requires Valid() && f in files
      modifies this, bitmap
      ensures Valid() && f in files && S() == ClearRange(old(S()), f, from, to)
    {
      hide ClearBlock, Inv;
      var bno := from;
      while bno < to
        invariant from <= bno && Valid() && f in files
        invariant ClearRange(old(S()), f, from, to) == ClearRange(S(), f, bno, to)
      {
        var r := FreeBlockFile(f, bno);
        bno := bno + 1;
      }
    }

    /** size_file: it leaves exactly the state that file_set_size leaves. */
    method SizeFile(f: nat, newsize: nat)
      requires Valid() && f in files
      modifies this, bitmap
      ensures Valid() && S() == SetSize(old(S()), f, newsize)
      ensures old(files[f].size) > newsize ==> CutTo(old(S()), S(), f, newsize)
    {
      SetSizeCuts(S(), f, newsize);
      SetSizeKeeps(S(), f, newsize);
      TruncateParts(S(), f, newsize);
      hide Inv, ClearRange, DropIndirect, Truncate, Value, OldBlocks, NewBlocks, Shaped, Test, CutTo;
      if files[f].size > newsize {
        var oldNblock := OldBlocks(files[f].size);
        var newNblock := NewBlocks(newsize);
        FreeLoop(f, newNblock, oldNblock);
        if newNblock <= NDIRECT {
          FreeIndirect(f);
        }
      }
      files := files[f := files[f].(size := newsize)];
    }
  }

  lemma FirstFreeFrom(s: State, b: nat)
    requires Shaped(s)
    ensures FirstFree(s, b)
            == if b >= NBlocks(s) then None else if IsFree(s, b) then Some(b) else FirstFree(s, b + 1)
  {
    hide IsFree;
  }

  lemma TruncateParts(s: State, f: nat, newsize: nat)
    requires Inv(s) && f in s.files
    ensures var s1 := ClearRange(s, f, NewBlocks(newsize), OldBlocks(s.files[f].size));
            Truncate(s, f, newsize) == WithSize(if NewBlocks(newsize) <= NDIRECT then DropIndirect(s1, f) else s1, f,
                                                newsize)
  {
    hide Inv, ClearRange, DropIndirect;
  }

  lemma TruncateKeeps(s: State, f: nat, newsize: nat)
    requires Inv(s) && f in s.files
    ensures var s' := Truncate(s, f, newsize); Inv(s') && f in s'.files && s'.files[f].size == newsize
  {
    hide Inv, Truncate, Value, IsFree;
    TruncateDoes(s, f, newsize);
  }

  lemma SetSizeKeeps(s: State, f: nat, newsize: nat)
    requires Inv(s) && f in s.files
    ensures Inv(SetSize(s, f, newsize)) && f in SetSize(s, f, newsize).files
    ensures SetSize(s, f, newsize).files[f].size == newsize
  {
    hide Inv, Truncate;
    if s.files[f].size > newsize {
      TruncateKeeps(s, f, newsize);
    } else {
      WithSizeDoes(s, f, newsize);
    }
  }
}
