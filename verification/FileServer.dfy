/** The file server with its struct Files in place: the server of module FileSystem, with the operations of
    fs/fs.c that make struct Files come and go. */
module FileServer {
  import opened Bitmap
  import opened FileSystem
  import opened FsBlocks
  import opened Options
  import opened StructFiles

  class Disk {
    const server: Server
    var types: Types

    function S(): State
      reads server, server.bitmap
    {
      server.S()
    }

    ghost predicate Valid()
      reads this, server, server.bitmap
      ensures Valid() ==> server.Valid()
    {
      Placed(server.S(), types)
    }

    constructor (server: Server, types: Types)
      requires Placed(server.S(), types)
      ensures Valid() && this.server == server && this.types == types
    {
      this.server := server;
      this.types := types;
    }

    /** file_get_block. read_block does not panic on the block found. A new block of a directory brings its
        struct Files. */
    method GetBlock(f: nat, filebno: nat, mem: bool, mem2: bool) returns (r: int, b: nat)
      requires Valid() && f in server.files
      requires GrowsCleanly(S(), f, filebno, true) && DirGrowsCleanly(S(), types, f, filebno, mem)
      modifies this, server, server.bitmap
      ensures Valid()
      ensures var o := MapBlock(old(S()), f, filebno, true, mem, mem2);
              && r == o.r && (r < 0 ==> S() == o.s && types == old(types))
              && (r >= 0 ==>
                    && 0 < b < NBlocks(o.s) && b == Value(o.s, SlotOf(f, filebno)) == Value(S(), SlotOf(f, filebno))
                    && Shaped(Cache(o.s, b)) && (S(), types) == GotBlock(Cache(o.s, b), old(types), f, b))
    {
      GetBlockGrown(S(), types, f, filebno, mem, mem2);
      ghost var s, t, o := S(), types, MapBlock(S(), f, filebno, true, mem, mem2);
      hide MapBlock, Inv, Value, Placed, Walk, DirGrowsCleanly, Grown, GrowsCleanly, AttachTypes, NewInodes, IsFree,
        NoBlocksIn, GotBlock, IsDir, Shaped;
      r, b := server.FileMapBlock(f, filebno, true, mem, mem2);
      if r < 0 {
        GrownPlaces(s, o.s, t);
        return;
      }
      server.ReadBlock(b);
      GetBlockCached(s, o.s, t, SlotOf(f, filebno));
      TakeStructFiles(f, b);
    }

    /** A store into a data block, as a client does through the page that it is given. */
    method StoreData(f: nat, filebno: nat, i: nat, w: nat)
      requires Valid() && f in server.files && !IsDir(types, f) && i < NINDIRECT
      requires Value(S(), SlotOf(f, filebno)) != 0
      modifies server`blocks
      ensures Valid() && forall p :: Value(S(), p) == Value(old(S()), p)
      ensures Value(S(), SlotOf(f, filebno)) < NBlocks(old(S()))
              && S() == StoreWord(old(S()), Value(S(), SlotOf(f, filebno)), i, w)
    {
      DataIsNotIndirect(S(), SlotOf(f, filebno));
      ghost var s := S();
      var ptr := SlotOf(f, filebno);
      DataSlot(S(), ptr);
      var b := server.Load(ptr);
      StoreKeeps(s, types, b, s.blocks[b][i := w]);
      var words: seq<nat> := server.blocks[b][i := w];
      server.blocks := server.blocks[b := words];
      assert S() == StoreWord(s, b, i, w);
    }

    /** file_set_size on a file that is no directory. */
    method SetSize(f: nat, newsize: nat)
      requires Valid() && f in server.files && !IsDir(types, f)
      modifies server, server.bitmap
      ensures Valid() && S() == FsBlocks.SetSize(old(S()), f, newsize)
      ensures old(server.files[f].size) > newsize ==> CutTo(old(S()), S(), f, newsize)
    {
      ghost var s := S();
      SetSizeShrinks(s, f, newsize);
      ShrinkRegular(s, FsBlocks.SetSize(s, f, newsize), types, f);
      server.FileSetSize(f, newsize);
    }

    /** file_remove, once the path has led to f. */
    method RemoveFile(f: nat)
      requires Valid() && f in server.files
      modifies this, server, server.bitmap
      ensures Valid() && (S(), types) == Removed(old(S()), old(types), f)
    {
      RemoveKeeps(S(), types, f);
      var before := S();
      hide Truncate, Placed, Inv, Value, Freed, Detach, DetachTypes, ClearName, Shaped;
      server.FileTruncate(f, 0);
      if IsDir(types, f) {
        DropStructFiles(Freed(before, S(), f));
      }
      DropName(f);
    }

    method DropStructFiles(bs: set<nat>)
      requires Shaped(S()) && types.Keys == server.files.Keys
      modifies this`types, server`files, server`blocks
      ensures S() == Detach(old(S()), old(types), bs) && types == DetachTypes(old(types), bs) && Shaped(S())
    {
      var detached := Detach(S(), types, bs);
      server.files, server.blocks := detached.files, detached.blocks;
      types := DetachTypes(types, bs);
    }

    /** f->f_name[0] is set to 0. */
    method DropName(f: nat)
      requires Shaped(S())
      modifies server`blocks
      ensures S() == ClearName(old(S()), f)
    {
      var b, i := BlockOf(f), f % FILE2BLK * FILE_WORDS;
      if f != ROOT && b < |server.blocks| {
        var words: seq<nat> := server.blocks[b][i := server.blocks[b][i] - server.blocks[b][i] % 256];
        server.blocks := server.blocks[b := words];
      }
    }

    /** file_get_block on a directory, as the search in it sees it. */
    method GetDirBlock(d: nat, i: nat, mem: bool, mem2: bool) returns (r: int, b: nat)
      requires Valid() && d in server.files && IsDir(types, d)
      requires GrowsCleanly(S(), d, i, true) && DirGrowsCleanly(S(), types, d, i, mem)
      modifies this, server, server.bitmap
      ensures Valid() && d in server.files && IsDir(types, d) && Kept(old(S()), S())
              && DirBlocks(S(), d) == old(DirBlocks(S(), d))
      ensures r >= 0 <==> Fits(old(S()), d, i, mem, mem2)
      ensures r >= 0 ==> b < NBlocks(S()) && b == Value(S(), SlotOf(d, i)) && b != 0
      ensures CleanFree(old(S())) ==> CleanFree(S())
      ensures Value(old(S()), SlotOf(d, i)) != 0 ==> r >= 0 && OnlyCached(old(S()), S()) && types == old(types)
      ensures r >= 0 && Value(old(S()), SlotOf(d, i)) == 0 && TakesUnused(old(S()), d, i, mem) ==> HasUnused(S(), b)
    {
      DirBlockGot(S(), types, d, i, mem, mem2);
      DirBlockFailed(S(), types, d, i, mem, mem2);
      MapBlockFits(S(), d, i, mem, mem2);
      hide Placed, Value, Inv, Unused, Test, GrowsCleanly, DirGrowsCleanly, MapBlock, GotBlock, CleanFree, Kept,
        OnlyCached, IsFree, Shaped, IsDir, DirBlocks, Cache, Fits, TakesUnused, HasUnused, Walk;
      r, b := GetBlock(d, i, mem, mem2);
    }

    /** The first unused struct File of a block. */
    method FindUnused(b: nat) returns (j: nat)
      requires Shaped(S()) && b < NBlocks(S())
      ensures j <= FILE2BLK && (j < FILE2BLK ==> Unused(S(), FileAt(b, j)))
      ensures forall k: nat :: k < j ==> !Unused(S(), FileAt(b, k))
      ensures j < FILE2BLK <==> HasUnused(S(), b)
    {
      j := 0;
      while j < FILE2BLK
        invariant j <= FILE2BLK
        invariant forall k: nat :: k < j ==> !Unused(S(), FileAt(b, k))
      {
        AddressOf(b, j, 0);
        if server.blocks[b][j * FILE_WORDS] % 256 == 0 {
          return;
        }
        j := j + 1;
      }
    }

    /** The loop of dir_alloc_file. */
    method SearchDir(d: nat, mem: Memory, mem2: Memory) returns (r: int, found: bool, f: nat)
      requires Valid() && d in server.files && IsDir(types, d) && Ready(S(), types, d, mem)
      modifies this, server, server.bitmap
      ensures Valid() && d in server.files && IsDir(types, d) && Kept(old(S()), S())
              && DirBlocks(S(), d) == old(DirBlocks(S(), d))
      ensures CleanFree(old(S())) ==> CleanFree(S())
      ensures var e := SearchEnd(old(S()), d, 0);
              if e == old(DirBlocks(S(), d)) then r >= 0 && !found && Alike(old(S()), S()) && types == old(types)
              else
                && (r >= 0 <==> Fits(old(S()), d, e, mem(e), mem2(e)))
                && (r >= 0 ==> found && Unused(S(), f) && InDir(S(), d, f) && BlockOf(f) == Value(S(), SlotOf(d, e))
                               && forall k: nat :: k < f % FILE2BLK ==> !Unused(S(), FileAt(BlockOf(f), k)))
    {
      ghost var s0, t, e := S(), types, SearchEnd(S(), d, 0);
      KeptSame(s0);
      r, found, f := 0, false, 0;
      var nblock := DirBlocks(S(), d);
      var i := 0;
      hide Placed, Value, Inv, Unused, Test, GrowsCleanly, DirGrowsCleanly, Ready, OnlyCached, CleanFree, Kept,
        IsFree, HasUnused, Shaped, IsDir, DirBlocks, WithSize, Fits, Walk, TakesUnused, SearchEnd, Alike, InDir;
      while i < nblock
        invariant i <= e && Valid() && d in server.files && IsDir(types, d) && DirBlocks(S(), d) == nblock
        invariant Kept(s0, S()) && Alike(s0, S()) && types == t && (CleanFree(s0) ==> CleanFree(S()))
      {
        ghost var s := S();
        ReadyAt(s0, s, types, d, i, mem, mem2(i));
        if Value(s0, SlotOf(d, i)) == 0 { ReadyHole(s0, s, types, d, mem); }
        var b;
        r, b := GetDirBlock(d, i, mem(i), mem2(i));
        KeptTwice(s0, s, S());
        if r < 0 {
          return;
        }
        var j := FindUnused(b);
        if Value(s, SlotOf(d, i)) != 0 {
          OnlyCachedAlike(s0, s, S());
          PassedIf(s0, S(), d, i);
        }
        if j < FILE2BLK {
          FoundInDir(S(), d, i, b, j);
          AddressOf(b, j, 0);
          return 0, true, FileAt(b, j);
        }
        i := i + 1;
      }
      r := 0;
    }

    /** strcpy(f->f_name, name) */
    method PutName(f: nat, name: seq<nat>)
      requires Shaped(S()) && BlockOf(f) < NBlocks(S()) && |name| == NAME_WORDS
      modifies server`blocks
      ensures S() == WithName(old(S()), f, name)
    {
      var b, i := BlockOf(f), f % FILE2BLK * FILE_WORDS;
      server.blocks := server.blocks[b := server.blocks[b][..i] + name + server.blocks[b][i + NAME_WORDS..]];
    }

    /** dir->f_size += BY2BLK */
    method AddSize(d: nat)
      requires Shaped(S()) && d in server.files
      modifies server`files
      ensures S() == WithSize(old(S()), d, old(server.files[d].size) + BY2BLK)
    {
      server.files := server.files[d := server.files[d].(size := server.files[d].size + BY2BLK)];
    }

    /** The rest of dir_alloc_file, after the directory has got its new size, which it keeps on failure. */
    method FirstOfNewBlock(d: nat, i: nat, mem: bool, mem2: bool) returns (r: int, f: nat)
      requires Valid() && d in server.files && IsDir(types, d)
      requires GrowsCleanly(S(), d, i, true) && DirGrowsCleanly(S(), types, d, i, mem)
      modifies this, server, server.bitmap
      ensures Valid() && Kept(old(S()), S()) && d in server.files && DirBlocks(S(), d) == old(DirBlocks(S(), d))
      ensures r >= 0 <==> Fits(old(S()), d, i, mem, mem2)
      ensures r >= 0 ==> InDir(S(), d, f) && f == FileAt(Value(S(), SlotOf(d, i)), 0)
      ensures CleanFree(old(S())) ==> CleanFree(S())
    {
      hide Placed, Value, Inv, Unused, Test, GrowsCleanly, DirGrowsCleanly, Ready, OnlyCached, CleanFree, Kept,
        IsFree, HasUnused, Shaped, IsDir, DirBlocks, WithSize, InDir, Fits, Walk, TakesUnused;
      f := 0;
      var b;
      r, b := GetDirBlock(d, i, mem, mem2);
      if r >= 0 {
        FoundInDir(S(), d, i, b, 0);
        f := FileAt(b, 0);
      }
    }

    /** dir_alloc_file; memory is there for the allocations of block i when mem(i) and mem2(i) say so. It succeeds
        exactly if the block where its search ends is there or fits. If that is the block behind the last, the
        directory has a block more afterwards, even if the block could not be had. */
    method DirAllocFile(d: nat, mem: Memory, mem2: Memory) returns (r: int, f: nat)
      requires Valid() && d in server.files && IsDir(types, d) && Ready(S(), types, d, mem)
      modifies this, server, server.bitmap
      ensures Valid() && Kept(old(S()), S()) && d in server.files && (CleanFree(old(S())) ==> CleanFree(S()))
      ensures var e, n := SearchEnd(old(S()), d, 0), old(DirBlocks(S(), d));
              && (r >= 0 <==> Fits(old(S()), d, e, mem(e), mem2(e)))
              && DirBlocks(S(), d) == (if e == n then n + 1 else n)
              && (r >= 0 ==> InDir(S(), d, f) && BlockOf(f) == Value(S(), SlotOf(d, e)))
              && (r >= 0 && e == n ==> f % FILE2BLK == 0)
              && (r >= 0 && e < n ==>
                    && Unused(S(), f)
                    && forall k: nat :: k < f % FILE2BLK ==> !Unused(S(), FileAt(BlockOf(f), k)))
    {
      ghost var s0 := S();
      hide Placed, Value, Inv, Unused, Test, GrowsCleanly, DirGrowsCleanly, Ready, OnlyCached, CleanFree, Kept,
        IsFree, HasUnused, Shaped, IsDir, DirBlocks, WithSize, InDir, Fits, Walk, TakesUnused, SearchEnd, Alike;
      var found;
      r, found, f := SearchDir(d, mem, mem2);
      if r < 0 || found {
        return;
      }
      ghost var s := S();
      var nblock := DirBlocks(S(), d);
      GrowSize(s, types, d);
      SizeAlike(s0, s, d, s.files[d].size + BY2BLK);
      AddSize(d);
      ghost var s2 := S();
      ReadyAt(s0, s2, types, d, nblock, mem, mem2(nblock));
      r, f := FirstOfNewBlock(d, nblock, mem(nblock), mem2(nblock));
      AddressOf(Value(S(), SlotOf(d, nblock)), 0, 0);
      KeptTwice(s0, s, s2);
      KeptTwice(s0, s2, S());
    }

    /** file_create, once the path has led to directory d. */
    method CreateFile(d: nat, name: seq<nat>, mem: Memory, mem2: Memory) returns (r: int, f: nat)
      requires Valid() && d in server.files && IsDir(types, d) && Ready(S(), types, d, mem)
      requires |name| == NAME_WORDS && name[0] % 256 != 0
      modifies this, server, server.bitmap
      ensures Valid() && Kept(old(S()), S()) && d in server.files && (CleanFree(old(S())) ==> CleanFree(S()))
      ensures var e, n := SearchEnd(old(S()), d, 0), old(DirBlocks(S(), d));
              && (r >= 0 <==> Fits(old(S()), d, e, mem(e), mem2(e)))
              && DirBlocks(S(), d) == (if e == n then n + 1 else n)
              && (r >= 0 ==> InDir(S(), d, f) && !Unused(S(), f) && BlockOf(f) == Value(S(), SlotOf(d, e)))
      ensures r >= 0 ==> BlockOf(f) < NBlocks(S()) && forall o :: 0 <= o < NAME_WORDS ==> NameWord(S(), f, o) == name[o]
    {
      ghost var s0 := S();
      hide Placed, Value, Inv, Unused, Test, GrowsCleanly, DirGrowsCleanly, Ready, OnlyCached, CleanFree, Kept,
        IsFree, HasUnused, Shaped, IsDir, DirBlocks, WithSize, InDir, Fits, Walk, TakesUnused, SearchEnd, Alike,
        NameWord;
      r, f := DirAllocFile(d, mem, mem2);
      if r < 0 {
        return;
      }
      ghost var s := S();
      WithNameKeeps(s, types, d, f, name);
      if CleanFree(s) { WithNameClean(s, d, f, name); }
      NameIsWritten(s, f, name, BlockOf(f), 0);
      PutName(f, name);
      KeptTwice(s0, s, S());
    }

    /** The struct Files of block b of file f, unless they are there already or f is no directory. */
    method TakeStructFiles(f: nat, b: nat)
      requires Shaped(S()) && b < NBlocks(S())
      modifies this, server`files
      ensures Shaped(S()) && (S(), types) == GotBlock(old(S()), old(types), f, b)
    {
      if IsDir(types, f) && FileAt(b, 0) !in server.files {
        types := AttachTypes(server.blocks[b], types, b);
        server.files := server.files + NewInodes(server.blocks[b], b);
      }
    }
  }
}
