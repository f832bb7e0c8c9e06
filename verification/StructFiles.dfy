/** Where the struct Files lie (fs/fs.c: file_get_block, dir_alloc_file, file_create, file_remove): in the
    blocks of directories. This adds to the server of module FileSystem the operations that make struct
    Files come and go, and the stores into data blocks.

    A struct File is named by its address: block number times FILE2BLK plus its index in the block. Its
    size and block pointers are in `files` and its type is in `types`; its name stays in the words of the
    block. The two come apart when a block becomes a directory block, and together again when it stops
    being one. */
module StructFiles {
  import opened Bitmap
  import opened Errors
  import opened FileSystem
  import opened FsBlocks
  import opened Options

  /** Words of a struct File, and where its fields are. */
  const FILE_WORDS: nat := 64
  const NAME_WORDS: nat := 32
  const SIZE_WORD: nat := NAME_WORDS
  const TYPE_WORD: nat := SIZE_WORD + 1
  const DIRECT_WORD: nat := TYPE_WORD + 1
  const INDIRECT_WORD: nat := DIRECT_WORD + NDIRECT

  const FTYPE_DIR: nat := 1

  /** The root's struct File is part of the super-block. */
  const ROOT: nat := FILE2BLK

  function FileAt(b: nat, k: nat): nat { b * FILE2BLK + k }

  function BlockOf(f: nat): nat { f / FILE2BLK }

  lemma AddressOf(b: nat, k: nat, f: nat)
    requires k < FILE2BLK
    ensures BlockOf(FileAt(b, k)) == b && FileAt(b, k) % FILE2BLK == k
    ensures FileAt(BlockOf(f), f % FILE2BLK) == f
  {
  }

  type Types = map<nat, nat>

  predicate IsDir(t: Types, f: nat) { f in t && t[f] == FTYPE_DIR }

  /* ---- Words and fields ---- */

  function InodeAt(words: seq<nat>, k: nat): (n: Inode)
    requires |words| == NINDIRECT && k < FILE2BLK
    ensures |n.direct| == NDIRECT
  {
    var w := k * FILE_WORDS;
    Inode(words[w + SIZE_WORD], words[w + DIRECT_WORD..w + DIRECT_WORD + NDIRECT], words[w + INDIRECT_WORD])
  }

  function TypeAt(words: seq<nat>, k: nat): nat
    requires |words| == NINDIRECT && k < FILE2BLK
  {
    words[k * FILE_WORDS + TYPE_WORD]
  }

  /** Word o of a struct File with these fields; old is what the block has there. */
  function FieldWord(n: Inode, t: nat, o: nat, old_: nat): nat
    requires |n.direct| == NDIRECT
  {
    if o == SIZE_WORD then n.size
    else if o == TYPE_WORD then t
    else if DIRECT_WORD <= o < DIRECT_WORD + NDIRECT then n.direct[o - DIRECT_WORD]
    else if o == INDIRECT_WORD then n.indirect
    else old_
  }

  /** Block b as memory has it, with the fields of its struct Files. */
  function Words(s: State, t: Types, b: nat): (words: seq<nat>)
    requires Shaped(s) && t.Keys == s.files.Keys && b < NBlocks(s)
    ensures |words| == NINDIRECT
  {
    seq(NINDIRECT, w requires 0 <= w < NINDIRECT =>
      var f := FileAt(b, w / FILE_WORDS);
      if f in s.files then FieldWord(s.files[f], t[f], w % FILE_WORDS, s.blocks[b][w]) else s.blocks[b][w])
  }

  lemma WordIndex(k: nat, o: nat)
    requires o < FILE_WORDS
    ensures (k * FILE_WORDS + o) / FILE_WORDS == k && (k * FILE_WORDS + o) % FILE_WORDS == o
  {
  }

  /** Reading the fields back from the words gives what was put there; names are not touched. */
  lemma WordsReadBack(s: State, t: Types, b: nat, k: nat, o: nat)
    requires Shaped(s) && t.Keys == s.files.Keys && b < NBlocks(s) && k < FILE2BLK && o < NAME_WORDS
    ensures FileAt(b, k) in s.files ==>
              InodeAt(Words(s, t, b), k) == s.files[FileAt(b, k)] && TypeAt(Words(s, t, b), k) == t[FileAt(b, k)]
    ensures Words(s, t, b)[k * FILE_WORDS + o] == s.blocks[b][k * FILE_WORDS + o]
  {
    WordIndex(k, o);
    WordIndex(k, SIZE_WORD);
    WordIndex(k, TYPE_WORD);
    WordIndex(k, INDIRECT_WORD);
    var f := FileAt(b, k);
    if f in s.files {
      var n := InodeAt(Words(s, t, b), k);
      forall i | 0 <= i < NDIRECT ensures n.direct[i] == s.files[f].direct[i] {
        WordIndex(k, DIRECT_WORD + i);
      }
    }
  }

  /* ---- The invariant ---- */

  /** A block that struct Files lie in is used, and no slot has it other than a data slot of a directory. */
  ghost predicate HomeOk(s: State, t: Types, b: nat)
    requires Shaped(s)
  {
    FIRST_BLOCK <= b < NBlocks(s) && !IsFree(s, b) && forall p :: Value(s, p) == b ==> !p.Indirect? && IsDir(t, p.f)
  }

  ghost predicate HomesOk(s: State, t: Types)
    requires Shaped(s)
  {
    forall f :: f in s.files && f != ROOT ==> HomeOk(s, t, BlockOf(f))
  }

  /** All struct Files in the blocks of directories are there. */
  ghost predicate EntriesOk(s: State, t: Types)
    requires Shaped(s)
  {
    forall p, k :: Value(s, p) != 0 && !p.Indirect? && IsDir(t, p.f) && 0 <= k < FILE2BLK ==>
        FileAt(Value(s, p), k) in s.files
  }

  ghost predicate Placed(s: State, t: Types)
    ensures Placed(s, t) ==> Inv(s) && t.Keys == s.files.Keys
  {
    Inv(s) && t.Keys == s.files.Keys && ROOT in s.files && HomesOk(s, t) && EntriesOk(s, t)
  }

  /* ---- Storing words ---- */

  function StoreWord(s: State, b: nat, i: nat, w: nat): (s': State)
    requires Shaped(s) && b < NBlocks(s) && i < NINDIRECT
    ensures Shaped(s')
  {
    var words: seq<nat> := s.blocks[b][i := w];
    s.(blocks := s.blocks[b := words])
  }

  ghost predicate NoIndirect(s: State, b: nat)
    requires Shaped(s)
  {
    forall f :: f in s.files ==> s.files[f].indirect != b
  }

  function StoreBlock(s: State, b: nat, words: seq<nat>): (s': State)
    requires Shaped(s) && b < NBlocks(s) && |words| == NINDIRECT
    ensures Shaped(s')
  {
    s.(blocks := s.blocks[b := words])
  }

  /** A store outside the indirect blocks changes no slot. */
  lemma StoreKeeps(s: State, t: Types, b: nat, words: seq<nat>)
    requires Placed(s, t) && b < NBlocks(s) && |words| == NINDIRECT && NoIndirect(s, b)
    ensures Placed(StoreBlock(s, b, words), t) && forall p :: Value(StoreBlock(s, b, words), p) == Value(s, p)
  {
    hide Test;
    var s' := StoreBlock(s, b, words);
    assert forall p :: Value(s', p) == Value(s, p);
    hide Value;
    assert forall c :: IsFree(s', c) == IsFree(s, c);
    SamePlaces(s, s', t);
  }

  lemma SamePlaces(s: State, s': State, t: Types)
    requires Placed(s, t) && Shaped(s') && NBlocks(s') == NBlocks(s) && s'.files.Keys == s.files.Keys
    requires forall p :: Value(s', p) == Value(s, p)
    requires forall c :: IsFree(s', c) == IsFree(s, c)
    ensures Placed(s', t)
  {
    hide Value, IsFree;
    forall f | f in s'.files && f != ROOT ensures HomeOk(s', t, BlockOf(f)) {
      assert HomeOk(s, t, BlockOf(f));
    }
  }

  /** A block in a data slot is no indirect block, and neither is the block of a struct File. */
  lemma DataIsNotIndirect(s: State, p: Slot)
    requires Inv(s) && Value(s, p) != 0 && !p.Indirect?
    ensures NoIndirect(s, Value(s, p)) && Value(s, p) < NBlocks(s)
  {
    forall f | f in s.files ensures s.files[f].indirect != Value(s, p) {
      assert Value(s, Indirect(f)) == s.files[f].indirect;
    }
  }

  lemma HomeIsNotIndirect(s: State, t: Types, f: nat)
    requires Placed(s, t) && f in s.files && f != ROOT
    ensures NoIndirect(s, BlockOf(f)) && BlockOf(f) < NBlocks(s)
  {
    hide Value, Test;
    assert HomeOk(s, t, BlockOf(f));
    forall g | g in s.files ensures s.files[g].indirect != BlockOf(f) {
      IndirectValue(s, g);
    }
  }

  lemma IndirectValue(s: State, g: nat)
    requires Shaped(s) && g in s.files
    ensures Value(s, Indirect(g)) == s.files[g].indirect
  {
  }

  /* ---- A block becomes a directory block ---- */

  /** The words of b are from now on the fields of its struct Files. */
  function Attach(s: State, b: nat): (s': State)
    requires Shaped(s) && b < NBlocks(s)
    ensures Shaped(s') && NBlocks(s') == NBlocks(s)
  {
    s.(files := s.files + NewInodes(s.blocks[b], b))
  }

  function NewInodes(words: seq<nat>, b: nat): map<nat, Inode>
    requires |words| == NINDIRECT
  {
    map f | f in NewFiles(b) :: InodeAt(words, f % FILE2BLK)
  }

  function AttachTypes(words: seq<nat>, t: Types, b: nat): Types
    requires |words| == NINDIRECT
  {
    t + map f | f in NewFiles(b) :: TypeAt(words, f % FILE2BLK)
  }

  function NewFiles(b: nat): (fs: set<nat>)
    ensures forall f: nat :: f in fs <==> BlockOf(f) == b
  {
    set f: nat | FileAt(b, 0) <= f < FileAt(b, FILE2BLK) && BlockOf(f) == b
  }

  /** The struct Files that the words of b spell hold no blocks. */
  predicate NoBlocksIn(words: seq<nat>)
    requires |words| == NINDIRECT
  {
    forall k :: 0 <= k < FILE2BLK ==>
      InodeAt(words, k).indirect == 0 && forall i :: 0 <= i < NDIRECT ==> InodeAt(words, k).direct[i] == 0
  }

  /** What the struct Files that the words of b spell hold are blocks of their own. */
  ghost predicate NewHarmless(s: State, b: nat)
    requires Shaped(s) && b < NBlocks(s)
  {
    var s' := Attach(s, b);
    forall p: Slot :: BlockOf(p.f) == b && Value(s', p) != 0 ==>
      FIRST_BLOCK <= Value(s', p) < NBlocks(s) && !IsFree(s, Value(s', p))
        && forall q :: q != p ==> Value(s', q) != Value(s', p)
  }

  lemma AttachValues(s: State, b: nat)
    requires Shaped(s) && b < NBlocks(s)
    ensures var s' := Attach(s, b);
            && (forall p: Slot :: BlockOf(p.f) != b ==> Value(s', p) == Value(s, p))
            && (forall c :: IsFree(s', c) == IsFree(s, c))
  {
    hide Test;
  }

  /** A block that has just been linked into a directory: the ownership invariant holds afterwards exactly
      when its struct Files hold blocks of their own, for example none at all. */
  lemma AttachKeeps(s: State, b: nat)
    requires Inv(s) && b < NBlocks(s) && forall f :: f in s.files ==> BlockOf(f) != b
    ensures Inv(Attach(s, b)) <==> NewHarmless(s, b)
  {
    AttachValues(s, b);
    var s' := Attach(s, b);
    NoFileNoSlot(s, b);
    hide Value, Test, IsFree, Attach;
    if NewHarmless(s, b) {
      forall p, q | Value(s', p) != 0 && Value(s', p) == Value(s', q) ensures p == q {
        if BlockOf(p.f) != b && BlockOf(q.f) != b {
          assert Value(s, p) == Value(s, q);
        }
      }
    }
  }

  lemma NoFileNoSlot(s: State, b: nat)
    requires Shaped(s) && forall f :: f in s.files ==> BlockOf(f) != b
    ensures forall p: Slot :: BlockOf(p.f) == b ==> Value(s, p) == 0
  {
  }

  lemma BlankIsHarmless(s: State, b: nat)
    requires Shaped(s) && b < NBlocks(s) && NoBlocksIn(s.blocks[b])
    ensures forall p: Slot :: BlockOf(p.f) == b ==> Value(Attach(s, b), p) == 0
    ensures NewHarmless(s, b)
  {
    var s' := Attach(s, b);
    forall p: Slot | BlockOf(p.f) == b ensures Value(s', p) == 0 {
      var k := p.f % FILE2BLK;
      assert s'.files[p.f] == InodeAt(s.blocks[b], k);
      assert InodeAt(s.blocks[b], k).indirect == 0;
    }
  }

  /** So a directory can take a used block that is in exactly one of its data slots. */
  lemma AttachPlaces(s: State, t: Types, p: Slot)
    requires Inv(s) && t.Keys == s.files.Keys && ROOT in s.files && HomesOk(s, t)
    requires Value(s, p) != 0 && !p.Indirect? && IsDir(t, p.f)
    requires NoBlocksIn(s.blocks[Value(s, p)]) && forall f :: f in s.files ==> BlockOf(f) != Value(s, p)
    requires forall q, k :: Value(s, q) != 0 && q != p && !q.Indirect? && IsDir(t, q.f) && 0 <= k < FILE2BLK ==>
               FileAt(Value(s, q), k) in s.files
    ensures Placed(Attach(s, Value(s, p)), AttachTypes(s.blocks[Value(s, p)], t, Value(s, p)))
  {
    var b := Value(s, p);
    var s', t' := Attach(s, b), AttachTypes(s.blocks[b], t, b);
    AttachKeeps(s, b);
    BlankIsHarmless(s, b);
    AttachValues(s, b);
    assert t'.Keys == s'.files.Keys;
    assert forall f :: f in s'.files <==> f in s.files || BlockOf(f) == b;
    assert forall f :: BlockOf(f) != b ==> (IsDir(t', f) <==> IsDir(t, f));
    hide Value, Test, IsFree, Attach, AttachTypes, NoBlocksIn, NewHarmless;
    AttachHomes(s, s', t, t', p);
    AttachEntries(s, s', t, t', p);
  }

  lemma AttachHomes(s: State, s': State, t: Types, t': Types, p: Slot)
    requires Inv(s) && Shaped(s') && NBlocks(s') == NBlocks(s) && HomesOk(s, t) && Value(s, p) != 0 && !p.Indirect?
             && IsDir(t, p.f)
    requires forall f :: f in s'.files <==> f in s.files || BlockOf(f) == Value(s, p)
    requires forall f :: BlockOf(f) != Value(s, p) ==> (IsDir(t', f) <==> IsDir(t, f))
    requires forall q: Slot :: Value(s', q) == if BlockOf(q.f) == Value(s, p) then 0 else Value(s, q)
    requires BlockOf(p.f) != Value(s, p) && forall c :: IsFree(s', c) == IsFree(s, c)
    ensures HomesOk(s', t')
  {
    hide Value, Test, IsFree;
    var b := Value(s, p);
    forall f | f in s'.files && f != ROOT ensures HomeOk(s', t', BlockOf(f)) {
      if BlockOf(f) != b {
        assert HomeOk(s, t, BlockOf(f));
      }
    }
  }

  lemma AttachEntries(s: State, s': State, t: Types, t': Types, p: Slot)
    requires Shaped(s) && Shaped(s')
    requires forall q, k :: Value(s, q) != 0 && q != p && !q.Indirect? && IsDir(t, q.f) && 0 <= k < FILE2BLK ==>
               FileAt(Value(s, q), k) in s.files
    requires forall f :: f in s'.files <==> f in s.files || BlockOf(f) == Value(s, p)
    requires forall f :: BlockOf(f) != Value(s, p) ==> (IsDir(t', f) <==> IsDir(t, f))
    requires forall q: Slot :: Value(s', q) == if BlockOf(q.f) == Value(s, p) then 0 else Value(s, q)
    ensures EntriesOk(s', t')
  {
    hide Value;
    forall q, k | Value(s', q) != 0 && !q.Indirect? && IsDir(t', q.f) && 0 <= k < FILE2BLK
      ensures FileAt(Value(s', q), k) in s'.files {
      if q == p {
        AddressOf(Value(s, p), k, 0);
      }
    }
  }

  /* ---- Growing a file ---- */

  /** Only free blocks have been taken, each for an empty slot. Used blocks keep their words, apart from
      indirect blocks. */
  ghost predicate Grown(s: State, s': State)
    requires Shaped(s) && Shaped(s')
  {
    && s'.files.Keys == s.files.Keys && NBlocks(s') == NBlocks(s)
    && (forall g :: g in s.files ==> s'.files[g].size == s.files[g].size)
    && (forall p :: Value(s', p) != Value(s, p) ==> Value(s, p) == 0 && IsFree(s, Value(s', p)))
    && (forall c :: IsFree(s', c) ==> IsFree(s, c))
    && (forall b :: 0 <= b < NBlocks(s) && !IsFree(s, b) && NoIndirect(s, b) ==> s'.blocks[b] == s.blocks[b])
  }

  lemma AllocGrown(s: State, mem: bool)
    requires Inv(s)
    ensures Grown(s, Alloc(s, mem).s)
  {
    AllocGives(s, mem);
    hide Test, ClearBit, SetBit, Value, Inv, NoIndirect, Shaped;
    FreeBlocksChange(s, mem);
  }

  /** alloc_block changes no used block. */
  lemma FreeBlocksChange(s: State, mem: bool)
    requires Shaped(s)
    ensures forall b :: 0 <= b < NBlocks(s) && !IsFree(s, b) ==> Alloc(s, mem).s.blocks[b] == s.blocks[b]
  {
    hide Test, ClearBit, SetBit, FirstFree;
  }

  lemma CacheGrown(s: State, b: nat)
    requires Shaped(s)
    ensures Grown(s, Cache(s, b))
  {
    CacheKeeps(s, b);
    hide Test;
    assert forall c :: IsFree(Cache(s, b), c) == IsFree(s, c);
  }

  lemma GrownTwice(s: State, s1: State, s2: State)
    requires Inv(s) && Shaped(s1) && Shaped(s2) && Grown(s, s1) && Grown(s1, s2)
    ensures Grown(s, s2)
  {
    forall b | 0 <= b < NBlocks(s) && !IsFree(s, b) && NoIndirect(s, b) ensures s2.blocks[b] == s.blocks[b] {
      forall f | f in s1.files ensures s1.files[f].indirect != b {
        IndirectValue(s, f);
        IndirectValue(s1, f);
      }
      assert NoIndirect(s1, b);
    }
    hide Value, Test, IsFree, NoIndirect;
  }

  lemma WalkGrown(s: State, f: nat, filebno: nat, alloc: bool, mem: bool)
    requires Inv(s) && f in s.files && GrowsCleanly(s, f, filebno, alloc)
    ensures Grown(s, Walk(s, f, filebno, alloc, mem).s)
  {
    hide Test, FirstFree, Alloc, Value, SetSlot, Grown, Inv;
    var w := Walk(s, f, filebno, alloc, mem);
    if filebno < NDIRECT || filebno >= NINDIRECT || (s.files[f].indirect == 0 && !alloc) {
      NothingGrown(s);
    } else if s.files[f].indirect != 0 {
      CacheGrown(s, s.files[f].indirect);
    } else {
      AllocGrown(s, mem);
      var o := Alloc(s, mem);
      if o.r >= 0 {
        AllocGives(s, mem);
        FillIndirect(o.s, f, o.r);
        IndirectValue(s, f);
        var s2 := SetSlot(o.s, Indirect(f), o.r);
        LinkGrown(s, o.s, s2, Indirect(f), o.r);
        CacheGrown(s2, o.r);
        GrownTwice(s, s2, w.s);
      }
    }
  }

  lemma NothingGrown(s: State)
    requires Shaped(s)
    ensures Grown(s, s)
  {
    hide Value, Test;
  }

  /** The block that was taken goes into the slot. */
  lemma LinkGrown(s: State, s1: State, s2: State, p: Slot, b: nat)
    requires Inv(s) && Shaped(s1) && Shaped(s2) && Grown(s, s1) && p.f in s.files && IsFree(s, b) && Value(s1, p) == 0
    requires forall q :: Value(s1, q) == Value(s, q)
    requires p.Direct? ==> p.i < NDIRECT
    requires p.Entry? ==> NDIRECT <= p.i < NINDIRECT && 0 < s1.files[p.f].indirect < NBlocks(s1)
    requires s2 == SetSlot(s1, p, b) && forall q :: Value(s2, q) == if q == p then b else Value(s1, q)
    ensures Grown(s, s2)
  {
    hide Test;
    assert forall c :: IsFree(s2, c) == IsFree(s1, c);
    forall c | 0 <= c < NBlocks(s) && !IsFree(s, c) && NoIndirect(s, c) ensures s2.blocks[c] == s.blocks[c] {
      if p.Entry? {
        IndirectValue(s, p.f);
        IndirectValue(s1, p.f);
      }
    }
    hide Value, IsFree;
  }

  /** file_map_block: what it takes, and the words of a new block. */
  lemma MapBlockGrown(s: State, f: nat, filebno: nat, alloc: bool, mem: bool, mem2: bool)
    requires Inv(s) && f in s.files && GrowsCleanly(s, f, filebno, alloc)
    ensures var s' := MapBlock(s, f, filebno, alloc, mem, mem2).s;
            var w := Walk(s, f, filebno, alloc, mem).s;
            var b := Value(s', SlotOf(f, filebno));
            && Grown(s, s')
            && (MapBlock(s, f, filebno, alloc, mem, mem2).r < 0 ==> b == Value(s, SlotOf(f, filebno)))
            && (Value(s, SlotOf(f, filebno)) == 0 && b != 0 ==>
                Walk(s, f, filebno, alloc, mem).r >= 0 && FirstFree(w, FIRST_BLOCK) == Some(b) && b < NBlocks(s)
                  && (b in w.cached ==> s'.blocks[b] == w.blocks[b])
                && (b !in w.cached ==> forall i :: 0 <= i < NINDIRECT ==> s'.blocks[b][i] == 0))
  {
    WalkKeeps(s, f, filebno, alloc, mem);
    WalkGrown(s, f, filebno, alloc, mem);
    hide Test, FirstFree, Alloc, Value, SetSlot, Walk, Grown, Inv;
    var w, p := Walk(s, f, filebno, alloc, mem), SlotOf(f, filebno);
    if w.r >= 0 && Value(w.s, p) == 0 && alloc {
      AllocGives(w.s, mem2);
      AllocGrown(w.s, mem2);
      var o := Alloc(w.s, mem2);
      GrownTwice(s, w.s, o.s);
      if o.r >= 0 {
        FillSlot(o.s, p, o.r);
        LinkGrown(w.s, o.s, SetSlot(o.s, p, o.r), p, o.r);
        GrownTwice(s, w.s, SetSlot(o.s, p, o.r));
        OtherBlockStays(w.s, o.s, p, o.r);
      }
    }
  }

  lemma OtherBlockStays(w: State, s: State, p: Slot, b: nat)
    requires Inv(w) && Shaped(s) && p.f in s.files && !p.Indirect? && b < NBlocks(s) && Value(s, Indirect(p.f)) != b
    requires p.Direct? ==> p.i < NDIRECT
    requires p.Entry? ==> p.i < NINDIRECT && s.files[p.f].indirect < NBlocks(s)
    ensures SetSlot(s, p, b).blocks[b] == s.blocks[b]
  {
  }

  /** Growing moves no struct File. */
  lemma GrownHomes(s: State, s': State, t: Types)
    requires Placed(s, t) && Shaped(s') && Grown(s, s')
    ensures HomesOk(s', t)
  {
    hide Value, Test, IsFree;
    forall f | f in s'.files && f != ROOT ensures HomeOk(s', t, BlockOf(f)) {
      assert HomeOk(s, t, BlockOf(f));
    }
  }

  /** A data block whose struct Files are not there yet has just been taken. */
  lemma NewBlockIsNoHome(s: State, t: Types, p: Slot, s': State)
    requires Placed(s, t) && Inv(s') && Grown(s, s') && Value(s', p) != 0 && !p.Indirect? && IsDir(t, p.f)
    ensures Value(s, p) == 0 <==> FileAt(Value(s', p), 0) !in s.files
    ensures Value(s, p) == 0 ==> forall f :: f in s.files ==> BlockOf(f) != Value(s', p)
  {
    var b := Value(s', p);
    hide Value, Test, IsFree, HomeOk;
    if Value(s, p) == 0 {
      forall f | f in s.files ensures BlockOf(f) != b {
        TakenIsNoHome(s, t, s', p, f);
      }
      AddressOf(b, 0, 0);
    } else {
      assert b == Value(s, p);
    }
  }

  lemma TakenIsNoHome(s: State, t: Types, s': State, p: Slot, f: nat)
    requires Placed(s, t) && Inv(s') && Grown(s, s') && Value(s', p) != Value(s, p) && f in s.files
    requires Value(s', p) != 0
    ensures BlockOf(f) != Value(s', p)
  {
    hide Value, Test, IsFree;
    if f != ROOT {
      assert HomeOk(s, t, BlockOf(f));
    }
  }

  /* ---- Shrinking a file ---- */

  /** The data blocks that truncating file f has freed. */
  function Freed(s: State, s1: State, f: nat): (bs: set<nat>)
    requires Shaped(s) && Shaped(s1)
    ensures forall b :: b in bs <==> exists i: nat ::
              i < NINDIRECT && Value(s, SlotOf(f, i)) == b && b != 0 && Value(s1, SlotOf(f, i)) == 0
  {
    set i: nat | i < NINDIRECT && Value(s, SlotOf(f, i)) != 0 && Value(s1, SlotOf(f, i)) == 0 :: Value(s, SlotOf(f, i))
  }

  /** The struct Files in the blocks of bs are words again. */
  function Detach(s: State, t: Types, bs: set<nat>): (s': State)
    requires Shaped(s) && t.Keys == s.files.Keys
    ensures Shaped(s') && NBlocks(s') == NBlocks(s)
  {
    State(s.bitmap,
          seq(NBlocks(s), b requires 0 <= b < NBlocks(s) => if b in bs then Words(s, t, b) else s.blocks[b]),
          s.cached, map f | f in s.files && (f == ROOT || BlockOf(f) !in bs) :: s.files[f])
  }

  function DetachTypes(t: Types, bs: set<nat>): Types
  {
    map f | f in t && (f == ROOT || BlockOf(f) !in bs) :: t[f]
  }

  lemma DetachValues(s: State, t: Types, bs: set<nat>)
    requires Inv(s) && t.Keys == s.files.Keys && forall b, p :: b in bs ==> Value(s, p) != b
    ensures var s' := Detach(s, t, bs);
            && (forall p :: Value(s', p) == if p.f == ROOT || BlockOf(p.f) !in bs then Value(s, p) else 0)
            && (forall c :: IsFree(s', c) == IsFree(s, c)) && Inv(s')
  {
    var s' := Detach(s, t, bs);
    forall f | f in s.files ensures s.files[f].indirect !in bs {
      IndirectValue(s, f);
    }
    hide Test, Words;
    forall p ensures Value(s', p) == if p.f == ROOT || BlockOf(p.f) !in bs then Value(s, p) else 0 {
    }
    hide Value;
    assert forall c :: IsFree(s', c) == IsFree(s, c);
  }

  /** Shrinking file f: slots are emptied, blocks of f are freed. */
  ghost predicate Shrunk(s: State, s': State, f: nat)
    requires Shaped(s) && Shaped(s')
  {
    && s'.files.Keys == s.files.Keys && NBlocks(s') == NBlocks(s)
    && (forall p :: Value(s', p) == Value(s, p) || (Value(s', p) == 0 && p.f == f))
    && (forall b :: IsFree(s', b) ==> IsFree(s, b) || exists p: Slot ::
        p.f == f && Value(s, p) == b && b != 0 && Value(s', p) == 0)
  }

  lemma TruncateShrinks(s: State, f: nat, newsize: nat)
    requires Inv(s) && f in s.files
    ensures Inv(Truncate(s, f, newsize)) && Shrunk(s, Truncate(s, f, newsize), f)
  {
    TruncateDoes(s, f, newsize);
    var s' := Truncate(s, f, newsize);
    var new_, old_ := NewBlocks(newsize), OldBlocks(s.files[f].size);
    TruncateSize(s, f, newsize);
    hide Truncate, Value, Test, IsFree, NewBlocks, OldBlocks;
    forall b | IsFree(s', b) ensures IsFree(s, b)
        || exists p: Slot :: p.f == f && Value(s, p) == b && b != 0 && Value(s', p) == 0 {
      if InRange(s, f, new_, old_, b) {
        var i: nat :| new_ <= i < old_ && Value(s, SlotOf(f, i)) == b;
        assert Value(s', SlotOf(f, i)) == 0;
      } else if !IsFree(s, b) {
        assert Value(s', Indirect(f)) == 0;
      }
    }
  }

  lemma TruncateSize(s: State, f: nat, newsize: nat)
    requires Inv(s) && f in s.files
    ensures NBlocks(Truncate(s, f, newsize)) == NBlocks(s)
  {
    var new_, old_ := NewBlocks(newsize), OldBlocks(s.files[f].size);
    ClearRangeDoes(s, f, new_, old_);
    hide ClearRange, Value, IsFree, Test, InRange, Inv;
  }

  /** Shrinking a file that is no directory. */
  lemma ShrinkRegular(s: State, s': State, t: Types, f: nat)
    requires Placed(s, t) && Inv(s') && Shrunk(s, s', f) && !IsDir(t, f)
    ensures Placed(s', t)
  {
    hide Value, IsFree, Test;
    forall g | g in s'.files && g != ROOT ensures HomeOk(s', t, BlockOf(g)) {
      assert HomeOk(s, t, BlockOf(g));
    }
    forall p, k | Value(s', p) != 0 && !p.Indirect? && IsDir(t, p.f) && 0 <= k < FILE2BLK
      ensures FileAt(Value(s', p), k) in s'.files {
      assert Value(s', p) == Value(s, p);
    }
  }

  lemma DataSlot(s: State, p: Slot)
    requires Shaped(s) && Value(s, p) != 0 && !p.Indirect?
    ensures p.i < NINDIRECT && p == SlotOf(p.f, p.i)
  {
  }

  /** Shrinking a directory: the struct Files in its freed blocks go. */
  lemma ShrinkDir(s: State, s1: State, t: Types, f: nat)
    requires Placed(s, t) && Inv(s1) && Shrunk(s, s1, f)
    ensures var bs := Freed(s, s1, f);
            && (forall b, p :: b in bs ==> Value(s1, p) != b)
            && Placed(Detach(s1, t, bs), DetachTypes(t, bs))
  {
    var bs := Freed(s, s1, f);
    hide Value, IsFree, Test, Detach, Freed, Words;
    forall b, p | b in bs ensures Value(s1, p) != b {
      var i: nat :| i < NINDIRECT && Value(s, SlotOf(f, i)) == b && b != 0 && Value(s1, SlotOf(f, i)) == 0;
      assert Value(s, p) == b ==> p == SlotOf(f, i);
    }
    DetachValues(s1, t, bs);
    var s2, t2 := Detach(s1, t, bs), DetachTypes(t, bs);
    DetachedFiles(s1, t, bs);
    forall p | Value(s, p) != 0 && !p.Indirect? && Value(s1, p) == 0 ensures Value(s, p) in bs {
      DataSlot(s, p);
    }
    hide DetachTypes;
    DetachHomes(s, s1, s2, t, t2, f, bs);
    DetachEntries(s, s1, s2, t, t2, f, bs);
  }

  lemma DetachedFiles(s: State, t: Types, bs: set<nat>)
    requires Shaped(s) && t.Keys == s.files.Keys
    ensures var s', t' := Detach(s, t, bs), DetachTypes(t, bs);
            && t'.Keys == s'.files.Keys
            && (forall f :: f in s'.files <==> f in s.files && (f == ROOT || BlockOf(f) !in bs))
            && (forall f :: f in s'.files ==> (IsDir(t', f) <==> IsDir(t, f)))
               && (forall f :: IsDir(t', f) ==> IsDir(t, f))
            && NBlocks(s') == NBlocks(s)
  {
  }

  lemma DetachHomes(s: State, s1: State, s2: State, t: Types, t2: Types, f: nat, bs: set<nat>)
    requires Placed(s, t) && Inv(s1) && Inv(s2) && Shrunk(s, s1, f) && NBlocks(s2) == NBlocks(s)
    requires forall p :: Value(s2, p) == if p.f == ROOT || BlockOf(p.f) !in bs then Value(s1, p) else 0
    requires forall c :: IsFree(s2, c) == IsFree(s1, c)
    requires forall g :: g in s2.files <==> g in s1.files && (g == ROOT || BlockOf(g) !in bs)
    requires forall g :: g in s2.files ==> (IsDir(t2, g) <==> IsDir(t, g))
    requires forall p :: Value(s, p) != 0 && !p.Indirect? && Value(s1, p) == 0 ==> Value(s, p) in bs
    ensures HomesOk(s2, t2)
  {
    hide Value, IsFree, Test;
    forall g | g in s2.files && g != ROOT ensures HomeOk(s2, t2, BlockOf(g)) {
      assert HomeOk(s, t, BlockOf(g));
      forall p | Value(s2, p) == BlockOf(g) ensures !p.Indirect? && IsDir(t2, p.f) {
        assert Value(s, p) == BlockOf(g);
        SlotOfFile(s2, p);
      }
    }
  }

  lemma SlotOfFile(s: State, p: Slot)
    requires Shaped(s) && Value(s, p) != 0
    ensures p.f in s.files
  {
  }

  lemma DetachEntries(s: State, s1: State, s2: State, t: Types, t2: Types, f: nat, bs: set<nat>)
    requires Placed(s, t) && Inv(s1) && Inv(s2) && Shrunk(s, s1, f)
    requires forall p :: Value(s2, p) == if p.f == ROOT || BlockOf(p.f) !in bs then Value(s1, p) else 0
    requires forall g :: g in s2.files <==> g in s1.files && (g == ROOT || BlockOf(g) !in bs)
    requires forall g :: IsDir(t2, g) ==> IsDir(t, g)
    requires forall b, p :: b in bs ==> Value(s1, p) != b
    ensures EntriesOk(s2, t2)
  {
    hide Value, IsFree, Test;
    forall p, k | Value(s2, p) != 0 && !p.Indirect? && IsDir(t2, p.f) && 0 <= k < FILE2BLK
      ensures FileAt(Value(s2, p), k) in s2.files {
      assert Value(s2, p) == Value(s1, p) == Value(s, p);
      AddressOf(Value(s, p), k, 0);
    }
  }

  /** Clearing the first byte of the name of f. */
  function ClearName(s: State, f: nat): (s': State)
    requires Shaped(s)
    ensures Shaped(s')
  {
    var b, i := BlockOf(f), f % FILE2BLK * FILE_WORDS;
    if f == ROOT || b >= NBlocks(s) then s else StoreWord(s, b, i, s.blocks[b][i] - s.blocks[b][i] % 256)
  }

  /** file_remove, once the path has led to f. */
  function Removed(s: State, t: Types, f: nat): (r: (State, Types))
    requires Inv(s) && t.Keys == s.files.Keys && f in s.files
  {
    var s1 := Truncate(s, f, 0);
    if IsDir(t, f) then
      (ClearName(Detach(s1, t, Freed(s, s1, f)), f), DetachTypes(t, Freed(s, s1, f)))
    else (ClearName(s1, f), t)
  }

  lemma RemoveKeeps(s: State, t: Types, f: nat)
    requires Placed(s, t) && f in s.files
    ensures var (s', t') := Removed(s, t, f); Placed(s', t')
    ensures var s1 := Truncate(s, f, 0);
            var s2 := if IsDir(t, f) then Detach(s1, t, Freed(s, s1, f)) else s1;
            forall p :: Value(Removed(s, t, f).0, p) == Value(s2, p)
  {
    TruncateShrinks(s, f, 0);
    var s1 := Truncate(s, f, 0);
    if f != ROOT { HomeIsNotIndirect(s, t, f); }
    hide Value, IsFree, Test, Truncate, Detach, DetachTypes, Freed, Placed, Inv;
    assert f != ROOT ==> NoIndirect(s1, BlockOf(f)) by { if f != ROOT { StillNoIndirect(s, s1, s1, f, BlockOf(f)); } }
    if IsDir(t, f) {
      var bs := Freed(s, s1, f);
      ShrinkDir(s, s1, t, f);
      var s2 := Detach(s1, t, bs);
      DetachFewer(s1, t, bs);
      if f != ROOT { StillNoIndirect(s, s1, s2, f, BlockOf(f)); }
      NameCleared(s2, DetachTypes(t, bs), f);
    } else {
      ShrinkRegular(s, s1, t, f);
      NameCleared(s1, t, f);
    }
  }

  lemma DetachFewer(s: State, t: Types, bs: set<nat>)
    requires Shaped(s) && t.Keys == s.files.Keys
    ensures var s' := Detach(s, t, bs);
            && NBlocks(s') == NBlocks(s) && forall g :: g in s'.files ==> g in s.files && s'.files[g] == s.files[g]
  {
  }

  lemma StillNoIndirect(s: State, s1: State, s2: State, f: nat, b: nat)
    requires Shaped(s) && Shaped(s1) && Shaped(s2) && Shrunk(s, s1, f) && NoIndirect(s, b) && b != 0
    requires forall g :: g in s2.files ==> g in s1.files && s2.files[g] == s1.files[g]
    ensures NoIndirect(s2, b)
  {
    forall g | g in s2.files ensures s2.files[g].indirect != b {
      IndirectValue(s, g);
      IndirectValue(s1, g);
    }
  }

  lemma NameCleared(s: State, t: Types, f: nat)
    requires Placed(s, t) && (f != ROOT ==> NoIndirect(s, BlockOf(f)))
    ensures Placed(ClearName(s, f), t) && forall p :: Value(ClearName(s, f), p) == Value(s, p)
  {
    hide Value, Placed;
    var b, i := BlockOf(f), f % FILE2BLK * FILE_WORDS;
    if f != ROOT && b < NBlocks(s) {
      StoreKeeps(s, t, b, s.blocks[b][i := s.blocks[b][i] - s.blocks[b][i] % 256]);
    }
  }

  /** Block number i of a file that file_truncate clears when the file is removed. */
  predicate Cleared(s: State, f: nat, i: nat)
    requires f in s.files
  {
    i < NINDIRECT && (i < OldBlocks(s.files[f].size) || i >= NDIRECT)
  }

  /** A slot that removing file f does not empty. */
  predicate Survives(s: State, f: nat, p: Slot)
    requires f in s.files
  {
    p.f != f || (p.Direct? && p.i >= OldBlocks(s.files[f].size))
  }

  /** A file whose struct File is in a block of directory d has a block that does not go with d itself. */
  ghost predicate FilesWithBlocks(s: State, d: nat)
    requires Shaped(s) && d in s.files
  {
    exists p, i: nat :: HasBlockIn(s, d, p, i)
  }

  predicate HasBlockIn(s: State, d: nat, p: Slot, i: nat)
    requires Shaped(s) && d in s.files
  {
    Value(s, p) != 0 && Survives(s, d, p) && Cleared(s, d, i) && Value(s, SlotOf(d, i)) == BlockOf(p.f)
  }

  /** file_remove does not look whether a directory is empty. It loses no block exactly if the file has no
      entries beyond its size and, for a directory, none of the files in it has a block. */
  lemma RemoveConserves(s: State, t: Types, f: nat)
    requires Placed(s, t) && f in s.files
    ensures NothingLost(s, Removed(s, t, f).0) <==>
              !BlockBeyond(s, f) && (IsDir(t, f) ==> !FilesWithBlocks(s, f))
  {
    BeyondInBytes(s, f);
    hide Placed, Removed, EntryBeyond, BlockBeyond, NothingLost, FilesWithBlocks, OldBlocks;
    RemoveLosesIf(s, t, f);
  }

  lemma RemoveLosesIf(s: State, t: Types, f: nat)
    requires Placed(s, t) && f in s.files
    ensures NothingLost(s, Removed(s, t, f).0) <==>
              !EntryBeyond(s, f, OldBlocks(s.files[f].size)) && (IsDir(t, f) ==> !FilesWithBlocks(s, f))
  {
    TruncateLosesIf(s, f, 0);
    TruncateShrinks(s, f, 0);
    RemoveKeeps(s, t, f);
    var s1 := Truncate(s, f, 0);
    var s' := Removed(s, t, f).0;
    ClearedSlots(s, f);
    if IsDir(t, f) {
      var bs := Freed(s, s1, f);
      ShrinkDir(s, s1, t, f);
      DetachValues(s1, t, bs);
      var s2 := Detach(s1, t, bs);
      NameFree(s2, f);
      hide Value, IsFree, Test, Truncate, Detach, DetachTypes, Freed, Placed, OldBlocks, Removed, ClearName,
        EntryBeyond, Cleared, Survives;
      WholeLoss(s, s1, s', f, bs);
      DroppedFiles(s, s1, t, f, bs);
    } else {
      NameFree(s1, f);
      hide Value, IsFree, Test, Truncate, Placed, ClearName, EntryBeyond;
      SameHeld(s1, s');
    }
  }

  lemma NameFree(s: State, f: nat)
    requires Shaped(s)
    ensures forall c :: IsFree(ClearName(s, f), c) == IsFree(s, c)
  {
    hide Test;
  }

  lemma ClearedSlots(s: State, f: nat)
    requires Inv(s) && f in s.files
    ensures forall i: nat :: i < NINDIRECT && Value(s, SlotOf(f, i)) != 0 ==>
              (Value(Truncate(s, f, 0), SlotOf(f, i)) == 0 <==> Cleared(s, f, i))
    ensures forall p :: Value(Truncate(s, f, 0), p) == if Survives(s, f, p) then Value(s, p) else 0
  {
    TruncateDoes(s, f, 0);
    hide Truncate, IsFree, Test, Value, OldBlocks;
  }

  lemma WholeLoss(s: State, s1: State, s': State, f: nat, bs: set<nat>)
    requires Inv(s) && Inv(s1) && Shaped(s') && Shrunk(s, s1, f)
    requires forall p :: Value(s', p) == if p.f == ROOT || BlockOf(p.f) !in bs then Value(s1, p) else 0
    requires forall c :: IsFree(s', c) == IsFree(s1, c)
    ensures NothingLost(s, s') <==>
              NothingLost(s, s1) && forall p: Slot :: p.f != ROOT && BlockOf(p.f) in bs ==> Value(s1, p) == 0
  {
    hide Value, IsFree, Test;
    forall p: Slot | p.f != ROOT && BlockOf(p.f) in bs && Value(s1, p) != 0 ensures !NothingLost(s, s') {
      DroppedIsLost(s, s1, s', f, bs, p);
    }
    FewerHeld(s1, s');
    forall b | Held(s, b) && !Held(s', b) && !IsFree(s', b) && Held(s1, b)
      ensures exists p: Slot :: p.f != ROOT && BlockOf(p.f) in bs && Value(s1, p) != 0 {
      var p :| Value(s1, p) == b;
      assert Value(s', p) != b;
    }
  }

  lemma FewerHeld(s: State, s': State)
    requires Shaped(s) && Shaped(s') && forall p :: Value(s', p) == 0 || Value(s', p) == Value(s, p)
    ensures forall b :: Held(s', b) ==> Held(s, b)
  {
    hide Value;
    forall b | Held(s', b) ensures Held(s, b) {
      var p :| Value(s', p) == b;
      assert Value(s, p) == b;
    }
  }

  lemma DroppedIsLost(s: State, s1: State, s': State, f: nat, bs: set<nat>, p: Slot)
    requires Inv(s) && Inv(s1) && Shaped(s') && Shrunk(s, s1, f)
    requires forall p :: Value(s', p) == if p.f == ROOT || BlockOf(p.f) !in bs then Value(s1, p) else 0
    requires forall c :: IsFree(s', c) == IsFree(s1, c)
    requires p.f != ROOT && BlockOf(p.f) in bs && Value(s1, p) != 0
    ensures Held(s, Value(s1, p)) && !Held(s', Value(s1, p)) && !IsFree(s', Value(s1, p))
  {
    hide Value, IsFree, Test;
    var b := Value(s1, p);
    assert Value(s, p) == b;
    forall q ensures Value(s', q) != b {
      assert Value(s1, q) == b ==> q == p;
    }
  }

  lemma DroppedFiles(s: State, s1: State, t: Types, f: nat, bs: set<nat>)
    requires Placed(s, t) && Inv(s1) && f in s.files && Shrunk(s, s1, f) && s1.files.Keys == s.files.Keys
    requires bs == Freed(s, s1, f)
    requires forall i: nat :: i < NINDIRECT && Value(s, SlotOf(f, i)) != 0 ==> (Value(s1, SlotOf(f, i)) == 0 <==>
                                                                                Cleared(s, f, i))
    requires forall p :: Value(s1, p) == if Survives(s, f, p) then Value(s, p) else 0
    ensures (forall p: Slot :: p.f != ROOT && BlockOf(p.f) in bs ==> Value(s1, p) == 0) <==> !FilesWithBlocks(s, f)
  {
    hide Value, IsFree, Test, OldBlocks, Survives, Freed;
    if FilesWithBlocks(s, f) {
      var p, i: nat :| HasBlockIn(s, f, p, i);
      SlotOfFile(s, p);
      assert p.f != ROOT ==> HomeOk(s, t, BlockOf(p.f));
      assert BlockOf(p.f) in bs;
    }
    forall p: Slot | p.f != ROOT && BlockOf(p.f) in bs && Value(s1, p) != 0 ensures FilesWithBlocks(s, f) {
      var i: nat :| i < NINDIRECT && Value(s, SlotOf(f, i)) == BlockOf(p.f) && BlockOf(p.f) != 0
        && Value(s1, SlotOf(f, i)) == 0;
      assert HasBlockIn(s, f, p, i);
    }
  }

  /* ---- The server ---- */

  /** The next block that is taken spells struct Files without blocks. */
  predicate BlankNext(s: State)
    requires Shaped(s)
  {
    var b := FirstFree(s, FIRST_BLOCK);
    b.Some? && b.value in s.cached ==> NoBlocksIn(s.blocks[b.value])
  }

  /** A block that is taken for a directory reads as unused struct Files do. */
  predicate DirGrowsCleanly(s: State, t: Types, f: nat, filebno: nat, mem: bool)
    requires Inv(s) && f in s.files
  {
    IsDir(t, f) && Value(s, SlotOf(f, filebno)) == 0 ==>
      var w := Walk(s, f, filebno, true, mem);
      w.r >= 0 ==> BlankNext(w.s)
  }

  /** A step that gives no directory a new data block. */
  lemma GrownPlaces(s: State, s': State, t: Types)
    requires Placed(s, t) && Inv(s') && Grown(s, s')
    requires forall p :: Value(s', p) != Value(s, p) && !p.Indirect? ==> !IsDir(t, p.f)
    ensures Placed(s', t)
  {
    GrownHomes(s, s', t);
    hide Value, Test, IsFree, HomesOk;
    forall p, k | Value(s', p) != 0 && !p.Indirect? && IsDir(t, p.f) && 0 <= k < FILE2BLK
      ensures FileAt(Value(s', p), k) in s'.files {
      assert Value(s', p) == Value(s, p);
    }
  }

  /** file_get_block, once its block number is known. */
  function GotBlock(s1: State, t: Types, f: nat, b: nat): (r: (State, Types))
    requires Shaped(s1) && b < NBlocks(s1)
  {
    if IsDir(t, f) && FileAt(b, 0) !in s1.files then (Attach(s1, b), AttachTypes(s1.blocks[b], t, b)) else (s1, t)
  }

  lemma GetBlockGrown(s: State, t: Types, f: nat, filebno: nat, mem: bool, mem2: bool)
    requires Placed(s, t) && f in s.files
    requires GrowsCleanly(s, f, filebno, true) && DirGrowsCleanly(s, t, f, filebno, mem)
    ensures var o := MapBlock(s, f, filebno, true, mem, mem2);
            var p := SlotOf(f, filebno);
            var b := Value(o.s, p);
            && Inv(o.s) && Grown(s, o.s)
            && (forall q :: Value(o.s, q) != Value(s, q) && !q.Indirect? ==> q == p && o.r >= 0)
            && (o.r >= 0 ==>
                && 0 < b < NBlocks(o.s) && (Value(s, p) != 0 ==> Value(s, p) == b)
                && (Value(s, p) == 0 && IsDir(t, f) ==> NoBlocksIn(o.s.blocks[b])))
  {
    var o, p := MapBlock(s, f, filebno, true, mem, mem2), SlotOf(f, filebno);
    MapBlockKeeps(s, f, filebno, true, mem, mem2);
    MapBlockGrown(s, f, filebno, true, mem, mem2);
    hide MapBlock, Walk, Test, IsFree, FirstFree, Placed, Grown, Value, HomesOk, EntriesOk;
    if o.r >= 0 {
      var b := Value(o.s, p);
      DataIsNotIndirect(o.s, p);
      if Value(s, p) == 0 && IsDir(t, f) {
        NewBlockIsBlank(Walk(s, f, filebno, true, mem).s, o.s.blocks[b], b);
      }
    }
  }

  lemma NewBlockIsBlank(w: State, words: seq<nat>, b: nat)
    requires Shaped(w) && |words| == NINDIRECT && FirstFree(w, FIRST_BLOCK) == Some(b) && b < NBlocks(w) && BlankNext(w)
    requires if b in w.cached then words == w.blocks[b] else forall i :: 0 <= i < NINDIRECT ==> words[i] == 0
    ensures NoBlocksIn(words)
  {
  }

  /** file_get_block keeps the struct Files in place. */
  lemma GetBlockPlaces(s: State, s1: State, t: Types, p: Slot)
    requires Placed(s, t) && p.f in s.files && Inv(s1) && Grown(s, s1) && !p.Indirect?
    requires forall q :: Value(s1, q) != Value(s, q) && !q.Indirect? ==> q == p
    requires 0 < Value(s1, p) < NBlocks(s1)
    requires Value(s, p) == 0 && IsDir(t, p.f) ==> NoBlocksIn(s1.blocks[Value(s1, p)])
    ensures IsDir(t, p.f) ==> (FileAt(Value(s1, p), 0) !in s.files <==> Value(s, p) == 0)
    ensures var (s2, t2) := GotBlock(s1, t, p.f, Value(s1, p));
            Placed(s2, t2) && Value(s2, p) == Value(s1, p)
  {
    hide Walk, Test, IsFree, FirstFree, Placed, Attach, AttachTypes, Value, Inv, NoBlocksIn, GotBlock, Grown;
    var b := Value(s1, p);
    if IsDir(t, p.f) {
      NewBlockIsNoHome(s, t, p, s1);
    }
    if IsDir(t, p.f) && Value(s, p) == 0 {
      NewDirBlock(s, s1, t, p);
    } else {
      KeptValue(s, s1, p);
      GrownPlaces(s, s1, t);
      OldBlock(s1, t, p.f, b);
    }
  }

  lemma KeptValue(s: State, s1: State, p: Slot)
    requires Shaped(s) && Shaped(s1) && Grown(s, s1)
    ensures Value(s, p) != 0 ==> Value(s1, p) == Value(s, p)
  {
  }

  lemma OldBlock(s1: State, t: Types, f: nat, b: nat)
    requires Shaped(s1) && b < NBlocks(s1) && (IsDir(t, f) ==> FileAt(b, 0) in s1.files)
    ensures GotBlock(s1, t, f, b) == (s1, t)
  {
  }

  lemma NewDirBlock(s: State, s1: State, t: Types, p: Slot)
    requires Placed(s, t) && p.f in s.files && Inv(s1) && Grown(s, s1) && !p.Indirect? && IsDir(t, p.f)
    requires forall q :: Value(s1, q) != Value(s, q) && !q.Indirect? ==> q == p
    requires Value(s, p) == 0 && 0 < Value(s1, p) < NBlocks(s1) && NoBlocksIn(s1.blocks[Value(s1, p)])
    requires FileAt(Value(s1, p), 0) !in s.files && forall f :: f in s.files ==> BlockOf(f) != Value(s1, p)
    ensures var (s2, t2) := GotBlock(s1, t, p.f, Value(s1, p));
            Placed(s2, t2) && Value(s2, p) == Value(s1, p)
  {
    var b := Value(s1, p);
    GrownHomes(s, s1, t);
    hide Value, Test, IsFree, HomesOk, NoBlocksIn, Inv, AttachTypes;
    AttachPlaces(s1, t, p);
    AttachValues(s1, b);
  }

  lemma GetBlockCached(s: State, s0: State, t: Types, p: Slot)
    requires Placed(s, t) && p.f in s.files && Inv(s0) && Grown(s, s0) && !p.Indirect?
    requires forall q :: Value(s0, q) != Value(s, q) && !q.Indirect? ==> q == p
    requires 0 < Value(s0, p) < NBlocks(s0)
    requires Value(s, p) == 0 && IsDir(t, p.f) ==> NoBlocksIn(s0.blocks[Value(s0, p)])
    ensures var s1 := Cache(s0, Value(s0, p));
            && Shaped(s1) && Value(s1, p) == Value(s0, p)
            && (var (s2, t2) := GotBlock(s1, t, p.f, Value(s0, p)); Placed(s2, t2) && Value(s2, p) == Value(s0, p))
  {
    var b := Value(s0, p);
    CacheKeeps(s0, b);
    CacheGrown(s0, b);
    GrownTwice(s, s0, Cache(s0, b));
    hide Value, Test, IsFree, Placed, Grown, Inv, NoBlocksIn, GotBlock;
    GetBlockPlaces(s, Cache(s0, b), t, p);
  }

  /** No free block in the cache has words that could pass for block numbers. */
  ghost predicate CleanFree(s: State)
    requires Shaped(s)
  {
    forall b, i :: FIRST_BLOCK <= b < NBlocks(s) && IsFree(s, b) && b in s.cached && NDIRECT <= i < NINDIRECT ==>
        s.blocks[b][i] == 0
  }

  /** Free blocks are left alone. */
  ghost predicate FreeSame(s: State, s': State)
    requires Shaped(s) && Shaped(s')
  {
    && NBlocks(s') == NBlocks(s)
    && (forall b :: FIRST_BLOCK <= b < NBlocks(s) && IsFree(s', b) ==>
          IsFree(s, b) && s'.blocks[b] == s.blocks[b] && (b in s'.cached ==> b in s.cached))
  }

  lemma StaysClean(s: State, s': State)
    requires Shaped(s) && Shaped(s') && CleanFree(s) && FreeSame(s, s')
    ensures CleanFree(s')
  {
    hide IsFree;
  }

  lemma CleanIsBlank(s: State)
    requires Shaped(s) && CleanFree(s)
    ensures NextReadsZero(s) && BlankNext(s)
  {
    hide IsFree;
  }

  lemma AllocFreeSame(s: State, mem: bool)
    requires Inv(s)
    ensures FreeSame(s, Alloc(s, mem).s)
  {
    AllocGives(s, mem);
    hide Test, ClearBit, SetBit, FirstFree, Inv, Value;
  }

  lemma WalkFreeSame(s: State, f: nat, filebno: nat, alloc: bool, mem: bool)
    requires Inv(s) && f in s.files
    ensures FreeSame(s, Walk(s, f, filebno, alloc, mem).s)
  {
    hide Test, FirstFree, Alloc, Value;
    if NDIRECT <= filebno < NINDIRECT {
      if s.files[f].indirect != 0 {
        IndirectIsBlock(s, f);
      } else if alloc {
        AllocFreeSame(s, mem);
        AllocGives(s, mem);
      }
    }
  }

  lemma MapBlockFreeSame(s: State, f: nat, filebno: nat, alloc: bool, mem: bool, mem2: bool)
    requires Inv(s) && f in s.files && GrowsCleanly(s, f, filebno, alloc)
    ensures FreeSame(s, MapBlock(s, f, filebno, alloc, mem, mem2).s)
  {
    WalkFreeSame(s, f, filebno, alloc, mem);
    WalkKeeps(s, f, filebno, alloc, mem);
    var w, p := Walk(s, f, filebno, alloc, mem), SlotOf(f, filebno);
    hide Test, IsFree, FirstFree, Alloc, Value, Walk, SetSlot, FreeSame, Inv, GrowsCleanly;
    if w.r >= 0 && Value(w.s, p) == 0 && alloc {
      AllocFreeSame(w.s, mem2);
      AllocGives(w.s, mem2);
      var o := Alloc(w.s, mem2);
      FreeSameTwice(s, w.s, o.s);
      if o.r >= 0 {
        SlotFreeSame(o.s, p, o.r);
        FreeSameTwice(s, o.s, SetSlot(o.s, p, o.r));
      }
    }
  }

  lemma FreeSameTwice(s: State, s1: State, s2: State)
    requires Shaped(s) && Shaped(s1) && Shaped(s2) && FreeSame(s, s1) && FreeSame(s1, s2)
    ensures FreeSame(s, s2)
  {
    hide IsFree;
  }

  lemma SlotFreeSame(s: State, p: Slot, v: nat)
    requires Inv(s) && p.f in s.files && !p.Indirect?
    requires p.Direct? ==> p.i < NDIRECT
    requires p.Entry? ==> NDIRECT <= p.i < NINDIRECT && 0 < s.files[p.f].indirect < NBlocks(s)
    ensures FreeSame(s, SetSlot(s, p, v))
  {
    hide Test;
    IndirectValue(s, p.f);
  }

  /* ---- Looking for an unused struct File ---- */

  /** f_name[0] is 0 */
  predicate Unused(s: State, f: nat)
    requires Shaped(s)
  {
    BlockOf(f) < NBlocks(s) && s.blocks[BlockOf(f)][f % FILE2BLK * FILE_WORDS] % 256 == 0
  }

  function DirBlocks(s: State, d: nat): nat
    requires d in s.files
  {
    s.files[d].size / BY2BLK
  }

  /** The blocks of a directory that are searched are those that end at or before its size. */
  lemma DirBlocksEnd(s: State, d: nat, i: nat)
    requires d in s.files
    ensures i < DirBlocks(s, d) <==> (i + 1) * BY2BLK <= s.files[d].size
  {
    var size := s.files[d].size;
    assert size == size / BY2BLK * BY2BLK + size % BY2BLK;
  }

  /** A struct File in block b is unused. */
  predicate HasUnused(s: State, b: nat)
    requires Shaped(s)
  {
    exists k: nat :: k < FILE2BLK && Unused(s, FileAt(b, k))
  }

  /** dir_alloc_file goes on behind block i: it is there, and all of its struct Files are in use. */
  predicate Passed(s: State, d: nat, i: nat)
    requires Shaped(s)
  {
    Value(s, SlotOf(d, i)) != 0 && !HasUnused(s, Value(s, SlotOf(d, i)))
  }

  /** The block where the search of dir_alloc_file ends: the first that is missing or has an unused struct File, or
      the one behind the last. */
  function SearchEnd(s: State, d: nat, i: nat): (e: nat)
    requires Shaped(s) && d in s.files && i <= DirBlocks(s, d)
    ensures i <= e <= DirBlocks(s, d) && forall k :: i <= k < e ==> Passed(s, d, k)
    ensures e < DirBlocks(s, d) ==> !Passed(s, d, e)
    decreases DirBlocks(s, d) - i
  {
    if i == DirBlocks(s, d) || !Passed(s, d, i) then i else SearchEnd(s, d, i + 1)
  }

  /** For each block of a directory, whether there is memory for it. */
  type Memory = nat -> bool

  /** The next block that is taken has an unused struct File. */
  predicate UnusedNext(s: State)
    requires Shaped(s)
  {
    var b := FirstFree(s, FIRST_BLOCK);
    b.Some? && b.value in s.cached ==> exists k: nat :: k < FILE2BLK && s.blocks[b.value][k * FILE_WORDS] % 256 == 0
  }

  /** The block that is taken for block i of d has one. */
  predicate TakesUnused(s: State, d: nat, i: nat, mem: bool)
    requires Inv(s) && d in s.files
  {
    var w := Walk(s, d, i, true, mem);
    w.r >= 0 ==> UnusedNext(w.s)
  }

  /** If dir_alloc_file has to take a block, that block reads as a block of a directory does. */
  ghost predicate Ready(s: State, t: Types, d: nat, mem: Memory)
    requires Inv(s) && d in s.files
  {
    var e := SearchEnd(s, d, 0);
    Value(s, SlotOf(d, e)) == 0 ==>
      && GrowsCleanly(s, d, e, true) && DirGrowsCleanly(s, t, d, e, mem(e))
      && (e < DirBlocks(s, d) ==> TakesUnused(s, d, e, mem(e)))
  }

  /** That is so whenever no free block in the cache has words that could pass for block numbers. */
  lemma CleanIsReady(s: State, t: Types, d: nat, mem: Memory)
    requires Placed(s, t) && d in s.files && CleanFree(s)
    ensures Ready(s, t, d, mem)
  {
    var e := SearchEnd(s, d, 0);
    CleanBlock(s, t, d, e, mem(e), true);
    WalkFreeSame(s, d, e, true, mem(e));
    hide Walk, FreeSame, SearchEnd, Value, GrowsCleanly, DirGrowsCleanly;
    StaysClean(s, Walk(s, d, e, true, mem(e)).s);
    CleanHasUnused(Walk(s, d, e, true, mem(e)).s);
  }

  lemma CleanHasUnused(s: State)
    requires Shaped(s) && CleanFree(s)
    ensures UnusedNext(s)
  {
    hide IsFree;
    var b := FirstFree(s, FIRST_BLOCK);
    if b.Some? && b.value in s.cached {
      assert s.blocks[b.value][1 * FILE_WORDS] % 256 == 0;
    }
  }

  /** Only used blocks have come into the cache. */
  ghost predicate OnlyCached(s: State, s': State)
    requires Shaped(s)
  {
    && s' == s.(cached := s'.cached) && s.cached <= s'.cached
    && forall b :: b in s'.cached ==> b in s.cached || !IsFree(s, b)
  }

  /** file_get_block on a block that is there. */
  lemma ExistingBlock(s: State, t: Types, d: nat, i: nat, mem: bool, mem2: bool)
    requires Placed(s, t) && d in s.files && IsDir(t, d) && Value(s, SlotOf(d, i)) != 0
    ensures GrowsCleanly(s, d, i, true) && DirGrowsCleanly(s, t, d, i, mem)
    ensures var o, b := MapBlock(s, d, i, true, mem, mem2), Value(s, SlotOf(d, i));
            && o.r >= 0 && b < NBlocks(o.s) && Shaped(Cache(o.s, b)) && Value(o.s, SlotOf(d, i)) == b
            && OnlyCached(s, Cache(o.s, b)) && GotBlock(Cache(o.s, b), t, d, b) == (Cache(o.s, b), t)
  {
    hide Test, FirstFree, Alloc, HomesOk;
    DataIsNotIndirect(s, SlotOf(d, i));
    assert FileAt(Value(s, SlotOf(d, i)), 0) in s.files;
    if s.files[d].indirect != 0 { IndirectIsBlock(s, d); }
  }

  /** file_get_block while all free blocks are clean. */
  lemma CleanBlock(s: State, t: Types, d: nat, i: nat, mem: bool, mem2: bool)
    requires Placed(s, t) && d in s.files && CleanFree(s)
    ensures GrowsCleanly(s, d, i, true) && DirGrowsCleanly(s, t, d, i, mem)
    ensures CleanFree(MapBlock(s, d, i, true, mem, mem2).s)
  {
    CleanIsBlank(s);
    WalkFreeSame(s, d, i, true, mem);
    var w := Walk(s, d, i, true, mem);
    hide MapBlock, Walk, CleanFree, FreeSame, NextReadsZero, BlankNext, Value;
    StaysClean(s, w.s);
    CleanIsBlank(w.s);
    MapBlockFreeSame(s, d, i, true, mem, mem2);
    StaysClean(s, MapBlock(s, d, i, true, mem, mem2).s);
  }

  /** What was in a slot is still there. */
  ghost predicate Kept(s: State, s': State)
    requires Shaped(s) && Shaped(s')
  {
    (forall p :: Value(s, p) != 0 ==> Value(s', p) == Value(s, p)) && NBlocks(s') == NBlocks(s)
    && (forall f :: f in s.files ==> f in s'.files)
  }

  lemma KeptTwice(s: State, s1: State, s2: State)
    requires Shaped(s) && Shaped(s1) && Shaped(s2) && Kept(s, s1) && Kept(s1, s2)
    ensures Kept(s, s2)
  {
    hide Value;
  }

  lemma KeptSame(s: State)
    requires Shaped(s)
    ensures Kept(s, s) && Alike(s, s)
  {
    hide Value, IsFree;
  }

  lemma GrownKept(s: State, s': State)
    requires Shaped(s) && Shaped(s') && Grown(s, s')
    ensures Kept(s, s')
  {
    hide Value, IsFree;
  }

  /** The new struct Files of a directory disturb nothing. */
  lemma TakenKept(s0: State, t: Types, d: nat, b: nat)
    requires Shaped(s0) && b < NBlocks(s0) && IsDir(t, d) && d in s0.files && t.Keys == s0.files.Keys
    requires FileAt(b, 0) !in s0.files ==> forall f :: f in s0.files ==> BlockOf(f) != b
    ensures var s1 := Cache(s0, b);
            var (s2, t2) := GotBlock(s1, t, d, b);
            && Shaped(s2) && Kept(s0, s2) && IsDir(t2, d) && d in s2.files && s2.files[d] == s0.files[d]
            && (CleanFree(s0) && !IsFree(s0, b) ==> CleanFree(s2)) && s2.blocks == s0.blocks
  {
    var s1 := Cache(s0, b);
    CacheKeeps(s0, b);
    if FileAt(b, 0) !in s0.files {
      AttachValues(s1, b);
      NoFileNoSlot(s1, b);
    }
    hide Value, Test;
    assert forall c :: IsFree(s1, c) == IsFree(s0, c);
  }

  /** strcpy(f->f_name, name) */
  function WithName(s: State, f: nat, name: seq<nat>): (s': State)
    requires Shaped(s) && BlockOf(f) < NBlocks(s) && |name| == NAME_WORDS
    ensures Shaped(s')
  {
    var b, i := BlockOf(f), f % FILE2BLK * FILE_WORDS;
    StoreBlock(s, b, s.blocks[b][..i] + name + s.blocks[b][i + NAME_WORDS..])
  }

  /** Word o of the name of struct File f. */
  function NameWord(s: State, f: nat, o: nat): nat
    requires Shaped(s) && BlockOf(f) < NBlocks(s) && o < NAME_WORDS
  {
    s.blocks[BlockOf(f)][f % FILE2BLK * FILE_WORDS + o]
  }

  /** The name is written into its own words and no others. */
  lemma NameIsWritten(s: State, f: nat, name: seq<nat>, b: nat, w: nat)
    requires Shaped(s) && BlockOf(f) < NBlocks(s) && |name| == NAME_WORDS && b < NBlocks(s) && w < NINDIRECT
    ensures forall o :: 0 <= o < NAME_WORDS ==> NameWord(WithName(s, f, name), f, o) == name[o]
    ensures FileAt(b, w / FILE_WORDS) != f || w % FILE_WORDS >= NAME_WORDS ==>
              WithName(s, f, name).blocks[b][w] == s.blocks[b][w]
  {
    AddressOf(b, w / FILE_WORDS, f);
    var i := f % FILE2BLK * FILE_WORDS;
    assert w == w / FILE_WORDS * FILE_WORDS + w % FILE_WORDS;
  }

  /** file_remove leaves the struct File unused; all other names, and the rest of this one, are as before. */
  lemma NameIsCleared(s: State, t: Types, f: nat, g: nat, o: nat)
    requires Placed(s, t) && f in s.files && g in s.files && f != ROOT && g != ROOT && o < NAME_WORDS
    ensures BlockOf(f) < NBlocks(s) && BlockOf(g) < NBlocks(s)
    ensures var s' := Removed(s, t, f).0;
            && Shaped(s') && NBlocks(s') == NBlocks(s) && Unused(s', f)
            && (g != f || o != 0 ==> NameWord(s', g, o) == NameWord(s, g, o))
  {
    HomeIsNotIndirect(s, t, f);
    HomeIsNotIndirect(s, t, g);
    var s1 := Truncate(s, f, 0);
    TruncateWords(s, f, 0);
    IndirectValue(s, f);
    assert s1.blocks[BlockOf(f)] == s.blocks[BlockOf(f)] && s1.blocks[BlockOf(g)] == s.blocks[BlockOf(g)];
    hide Value, IsFree, Truncate, Placed;
    if IsDir(t, f) {
      var s2 := Detach(s1, t, Freed(s, s1, f));
      DetachKeepsNames(s1, t, Freed(s, s1, f), g, o);
      DetachKeepsNames(s1, t, Freed(s, s1, f), f, 0);
      hide Detach, Freed;
      ClearedWord(s2, f, g, o);
    } else {
      ClearedWord(s1, f, g, o);
    }
  }

  lemma DetachKeepsNames(s: State, t: Types, bs: set<nat>, g: nat, o: nat)
    requires Shaped(s) && t.Keys == s.files.Keys && BlockOf(g) < NBlocks(s) && o < NAME_WORDS
    ensures NameWord(Detach(s, t, bs), g, o) == NameWord(s, g, o)
  {
    WordIndex(g % FILE2BLK, o);
    AddressOf(0, 0, g);
  }

  lemma ClearedWord(s: State, f: nat, g: nat, o: nat)
    requires Shaped(s) && BlockOf(f) < NBlocks(s) && BlockOf(g) < NBlocks(s) && f != ROOT && o < NAME_WORDS
    ensures var s' := ClearName(s, f);
            NBlocks(s') == NBlocks(s) && Unused(s', f) && (g != f || o != 0 ==> NameWord(s', g, o) == NameWord(s, g, o))
  {
    AddressOf(0, 0, f);
    AddressOf(0, 0, g);
    LowByteCleared(s.blocks[BlockOf(f)][f % FILE2BLK * FILE_WORDS]);
  }

  lemma LowByteCleared(w: nat)
    ensures w - w % 256 >= 0 && (w - w % 256) % 256 == 0
  {
  }

  lemma Named(s: State, f: nat, name: seq<nat>, g: nat)
    requires Shaped(s) && BlockOf(f) < NBlocks(s) && |name| == NAME_WORDS && name[0] % 256 != 0
    ensures !Unused(WithName(s, f, name), f)
    ensures g != f ==> (Unused(WithName(s, f, name), g) <==> Unused(s, g))
  {
    AddressOf(BlockOf(f), f % FILE2BLK, f);
    AddressOf(BlockOf(g), g % FILE2BLK, g);
  }

  lemma GrowSize(s: State, t: Types, d: nat)
    requires Placed(s, t) && d in s.files
    ensures var s' := WithSize(s, d, s.files[d].size + BY2BLK);
            Placed(s', t) && Kept(s, s') && DirBlocks(s', d) == DirBlocks(s, d) + 1 && (CleanFree(s) ==> CleanFree(s'))
  {
    var s' := WithSize(s, d, s.files[d].size + BY2BLK);
    WithSizeDoes(s, d, s.files[d].size + BY2BLK);
    hide Value, IsFree;
    SamePlaces(s, s', t);
  }

  /* ---- States that differ in what an allocation cannot see ---- */

  /** The same blocks are free, cached or not, and the same blocks are in slots. */
  ghost predicate Alike(s: State, s': State)
    requires Shaped(s) && Shaped(s')
  {
    && s'.bitmap == s.bitmap && s'.blocks == s.blocks && s'.files.Keys == s.files.Keys
    && (forall b :: IsFree(s, b) ==> (b in s'.cached <==> b in s.cached))
    && (forall f :: f in s.files ==>
          s'.files[f].direct == s.files[f].direct && s'.files[f].indirect == s.files[f].indirect)
  }

  lemma AlikeFacts(s: State, s': State)
    requires Shaped(s) && Shaped(s') && Alike(s, s')
    ensures forall p :: Value(s', p) == Value(s, p)
    ensures forall b :: IsFree(s', b) == IsFree(s, b)
    ensures forall f :: Unused(s', f) == Unused(s, f)
    ensures forall b :: FirstFree(s', b) == FirstFree(s, b)
    ensures s'.files.Keys == s.files.Keys && NBlocks(s') == NBlocks(s)
  {
    hide Test;
    assert forall b :: IsFree(s', b) == IsFree(s, b);
    forall b: nat ensures FirstFree(s', b) == FirstFree(s, b) {
      FirstFreeSame(s, s', b);
    }
  }

  lemma AlikeNext(s: State, s': State)
    requires Shaped(s) && Shaped(s') && Alike(s, s')
    ensures NextReadsZero(s') == NextReadsZero(s) && BlankNext(s') == BlankNext(s)
    ensures forall b, mem :: CanAlloc(s', b, mem) == CanAlloc(s, b, mem)
  {
    AlikeFacts(s, s');
    hide Test, Value, Unused, NoBlocksIn, IsFree, FirstFree;
  }

  lemma AlikeAlloc(s: State, s': State, mem: bool)
    requires Inv(s) && Inv(s') && Alike(s, s')
    ensures Alloc(s', mem).r == Alloc(s, mem).r && Alike(Alloc(s, mem).s, Alloc(s', mem).s)
  {
    AlikeFacts(s, s');
    AllocGives(s, mem);
    hide Test, Value, Unused, FirstFree, ClearBit, SetBit;
  }

  lemma AlikeWalk(s: State, s': State, f: nat, filebno: nat, mem: bool)
    requires Inv(s) && Inv(s') && Alike(s, s') && f in s.files
    ensures Walk(s', f, filebno, true, mem).r == Walk(s, f, filebno, true, mem).r
    ensures Alike(Walk(s, f, filebno, true, mem).s, Walk(s', f, filebno, true, mem).s)
  {
    AlikeAlloc(s, s', mem);
    AllocGives(s, mem);
    hide Test, Value, Alloc, IsFree, Inv, SetSlot;
    var o, o' := Alloc(s, mem), Alloc(s', mem);
    if s.files[f].indirect != 0 {
      AlikeCache(s, s', s.files[f].indirect);
    } else if o.r >= 0 {
      AlikeIndirect(o.s, o'.s, f, o.r);
      AlikeCache(SetSlot(o.s, Indirect(f), o.r), SetSlot(o'.s, Indirect(f), o.r), o.r);
    }
  }

  lemma AlikeCache(s: State, s': State, b: nat)
    requires Shaped(s) && Shaped(s') && Alike(s, s')
    ensures Alike(Cache(s, b), Cache(s', b))
  {
    CacheFree(s, b);
    hide IsFree;
  }

  lemma AlikeIndirect(s: State, s': State, f: nat, b: nat)
    requires Shaped(s) && Shaped(s') && Alike(s, s') && f in s.files
    ensures Alike(SetSlot(s, Indirect(f), b), SetSlot(s', Indirect(f), b))
  {
    IndirectFree(s, f, b);
    hide IsFree;
  }

  lemma AlikeGrowth(s: State, s': State, t: Types, d: nat, i: nat, mem: bool, mem2: bool)
    requires Inv(s) && Inv(s') && Alike(s, s') && d in s.files
    ensures GrowsCleanly(s', d, i, true) == GrowsCleanly(s, d, i, true)
    ensures DirGrowsCleanly(s', t, d, i, mem) == DirGrowsCleanly(s, t, d, i, mem)
    ensures Fits(s', d, i, mem, mem2) == Fits(s, d, i, mem, mem2)
  {
    AlikeFacts(s, s');
    AlikeNext(s, s');
    AlikeWalk(s, s', d, i, mem);
    AlikeNext(Walk(s, d, i, true, mem).s, Walk(s', d, i, true, mem).s);
    hide Test, Value, Unused, NoBlocksIn, IsFree, FirstFree, Walk, CanAlloc, NextReadsZero, BlankNext, Alike;
  }

  lemma SizeAlike(s0: State, s: State, d: nat, size: nat)
    requires Shaped(s0) && Shaped(s) && Alike(s0, s) && d in s.files
    ensures Shaped(WithSize(s, d, size)) && Alike(s0, WithSize(s, d, size))
  {
    hide IsFree;
  }

  lemma OnlyCachedAlike(s0: State, s: State, s': State)
    requires Shaped(s0) && Shaped(s) && Shaped(s') && Alike(s0, s) && OnlyCached(s, s')
    ensures Alike(s0, s') && s'.files == s.files
  {
    AlikeFacts(s0, s);
    hide Test, Value, Unused, FirstFree, IsFree;
  }

  /** In a directory without holes, dir_alloc_file fails exactly if all struct Files are in use and no block fits
      behind the last. */
  lemma WithoutHoles(s: State, d: nat, mem: Memory, mem2: Memory)
    requires Shaped(s) && d in s.files && forall i: nat :: i < DirBlocks(s, d) ==> Value(s, SlotOf(d, i)) != 0
    ensures var e, n := SearchEnd(s, d, 0), DirBlocks(s, d);
            && (e < n <==> exists i: nat :: i < n && HasUnused(s, Value(s, SlotOf(d, i))))
            && (Fits(s, d, e, mem(e), mem2(e)) <==> e < n || Fits(s, d, n, mem(n), mem2(n)))
  {
    hide Value, HasUnused;
    if i: nat :| i < DirBlocks(s, d) && HasUnused(s, Value(s, SlotOf(d, i))) {
      assert !Passed(s, d, i);
    }
  }

  lemma ReadyThere(s: State, t: Types, d: nat, i: nat, mem: Memory)
    requires Inv(s) && d in s.files && Ready(s, t, d, mem) && i <= SearchEnd(s, d, 0)
    ensures i < SearchEnd(s, d, 0) ==> Value(s, SlotOf(d, i)) != 0
    ensures Value(s, SlotOf(d, i)) == 0 ==> GrowsCleanly(s, d, i, true) && DirGrowsCleanly(s, t, d, i, mem(i))
  {
    hide Inv, Value, GrowsCleanly, DirGrowsCleanly, TakesUnused, HasUnused;
    assert i < SearchEnd(s, d, 0) ==> Passed(s, d, i);
  }

  /** A block of the directory up to the end of the search can be had cleanly. */
  lemma ReadyAt(s0: State, s: State, t: Types, d: nat, i: nat, mem: Memory, mem2: bool)
    requires Inv(s0) && Placed(s, t) && Alike(s0, s) && d in s0.files && IsDir(t, d) && Ready(s0, t, d, mem)
    requires i <= SearchEnd(s0, d, 0)
    ensures GrowsCleanly(s, d, i, true) && DirGrowsCleanly(s, t, d, i, mem(i))
    ensures Fits(s, d, i, mem(i), mem2) == Fits(s0, d, i, mem(i), mem2)
            && Value(s, SlotOf(d, i)) == Value(s0, SlotOf(d, i))
    ensures i < SearchEnd(s0, d, 0) ==> Value(s, SlotOf(d, i)) != 0
  {
    AlikeFacts(s0, s);
    AlikeGrowth(s0, s, t, d, i, mem(i), mem2);
    ReadyThere(s0, t, d, i, mem);
    hide Test, Value, Unused, IsFree, FirstFree, Walk, Alike, GrowsCleanly, DirGrowsCleanly, Fits, Placed, Inv, Ready,
      SearchEnd, IsDir;
    if Value(s, SlotOf(d, i)) != 0 { ExistingBlock(s, t, d, i, mem(i), true); }
  }

  /** Where the search ends at a hole, the new block has an unused struct File. */
  lemma ReadyHole(s0: State, s: State, t: Types, d: nat, mem: Memory)
    requires Inv(s0) && Inv(s) && Alike(s0, s) && d in s0.files && Ready(s0, t, d, mem)
    requires SearchEnd(s0, d, 0) < DirBlocks(s0, d) && Value(s0, SlotOf(d, SearchEnd(s0, d, 0))) == 0
    ensures TakesUnused(s, d, SearchEnd(s0, d, 0), mem(SearchEnd(s0, d, 0)))
  {
    var e := SearchEnd(s0, d, 0);
    AlikeWalk(s0, s, d, e, mem(e));
    var w0, w := Walk(s0, d, e, true, mem(e)).s, Walk(s, d, e, true, mem(e)).s;
    AlikeFacts(w0, w);
    hide Value, Unused, IsFree, FirstFree, Walk, GrowsCleanly, DirGrowsCleanly, SearchEnd;
  }

  /** The search goes on behind block i, which has come into the cache, exactly if it has not reached its end. */
  lemma PassedIf(s0: State, s: State, d: nat, i: nat)
    requires Shaped(s0) && Shaped(s) && Alike(s0, s) && d in s0.files && i <= SearchEnd(s0, d, 0)
             && i < DirBlocks(s0, d)
    requires Value(s0, SlotOf(d, i)) != 0
    ensures HasUnused(s, Value(s, SlotOf(d, i))) <==> i == SearchEnd(s0, d, 0)
  {
    AlikeFacts(s0, s);
    SameUnused(s0, s, Value(s0, SlotOf(d, i)));
    hide Value, HasUnused, FirstFree, IsFree, SearchEnd;
    assert i < SearchEnd(s0, d, 0) ==> Passed(s0, d, i);
  }

  lemma SameUnused(s0: State, s: State, b: nat)
    requires Shaped(s0) && Shaped(s) && Alike(s0, s)
    ensures HasUnused(s, b) <==> HasUnused(s0, b)
  {
    AlikeFacts(s0, s);
    hide Unused;
    if k: nat :| k < FILE2BLK && Unused(s0, FileAt(b, k)) {
      assert Unused(s, FileAt(b, k));
    }
    if k: nat :| k < FILE2BLK && Unused(s, FileAt(b, k)) {
      assert Unused(s0, FileAt(b, k));
    }
  }

  /** file_get_block on a directory has failed. */
  lemma DirBlockFailed(s: State, t: Types, d: nat, i: nat, mem: bool, mem2: bool)
    requires Placed(s, t) && d in s.files && IsDir(t, d) && GrowsCleanly(s, d, i, true)
             && DirGrowsCleanly(s, t, d, i, mem)
    ensures var o := MapBlock(s, d, i, true, mem, mem2);
            o.r < 0 ==>
              && Shaped(o.s) && d in o.s.files && Kept(s, o.s) && DirBlocks(o.s, d) == DirBlocks(s, d)
              && (CleanFree(s) ==> CleanFree(o.s)) && Value(s, SlotOf(d, i)) == 0
  {
    GetBlockGrown(s, t, d, i, mem, mem2);
    hide Placed, Inv, Unused, Test, GrowsCleanly, DirGrowsCleanly, MapBlock, CleanFree, Kept, OnlyCached, IsFree,
      GotBlock, Value;
    GrownKept(s, MapBlock(s, d, i, true, mem, mem2).s);
    if CleanFree(s) { CleanBlock(s, t, d, i, mem, mem2); }
    if Value(s, SlotOf(d, i)) != 0 { ExistingBlock(s, t, d, i, mem, mem2); }
  }

  /** file_get_block on a directory has succeeded. */
  lemma DirBlockGot(s: State, t: Types, d: nat, i: nat, mem: bool, mem2: bool)
    requires Placed(s, t) && d in s.files && IsDir(t, d) && GrowsCleanly(s, d, i, true)
             && DirGrowsCleanly(s, t, d, i, mem)
    ensures var o := MapBlock(s, d, i, true, mem, mem2);
            var b := Value(o.s, SlotOf(d, i));
            o.r >= 0 ==>
              && 0 < b < NBlocks(o.s) && Shaped(Cache(o.s, b))
              && var (s2, t2) := GotBlock(Cache(o.s, b), t, d, b);
                 && Shaped(s2) && Kept(s, s2) && IsDir(t2, d) && d in s2.files && DirBlocks(s2, d) == DirBlocks(s, d)
                    && b < NBlocks(s2)
                 && (CleanFree(s) ==> CleanFree(s2))
                 && (Value(s, SlotOf(d, i)) != 0 ==> OnlyCached(s, s2) && t2 == t)
                 && (Value(s, SlotOf(d, i)) == 0 && TakesUnused(s, d, i, mem) ==> HasUnused(s2, b))
  {
    var o := MapBlock(s, d, i, true, mem, mem2);
    var b := Value(o.s, SlotOf(d, i));
    GetBlockGrown(s, t, d, i, mem, mem2);
    hide Placed, Inv, Unused, Test, GrowsCleanly, DirGrowsCleanly, MapBlock, CleanFree, Kept, OnlyCached, IsFree,
      GotBlock, Value, IsDir, Shaped, NoBlocksIn;
    hide Grown, NoIndirect;
    if CleanFree(s) { CleanBlock(s, t, d, i, mem, mem2); }
    if o.r >= 0 {
      DirBlockTaken(s, o.s, t, d, SlotOf(d, i));
      if Value(s, SlotOf(d, i)) != 0 {
        ExistingBlock(s, t, d, i, mem, mem2);
      } else if TakesUnused(s, d, i, mem) {
        NewBlockHasUnused(s, t, d, i, mem, mem2);
      }
    }
  }

  /** The words of a new block are those that it had in the cache, or 0. */
  lemma NewBlockHasUnused(s: State, t: Types, d: nat, i: nat, mem: bool, mem2: bool)
    requires Inv(s) && d in s.files && GrowsCleanly(s, d, i, true) && Value(s, SlotOf(d, i)) == 0
    requires TakesUnused(s, d, i, mem)
    ensures var o := MapBlock(s, d, i, true, mem, mem2);
            o.r >= 0 ==> HasUnused(o.s, Value(o.s, SlotOf(d, i)))
  {
    MapBlockGrown(s, d, i, true, mem, mem2);
    MapBlockKeeps(s, d, i, true, mem, mem2);
    var o, w := MapBlock(s, d, i, true, mem, mem2), Walk(s, d, i, true, mem).s;
    hide MapBlock, Walk, Value, FirstFree, Grown;
    if o.r >= 0 {
      var b := Value(o.s, SlotOf(d, i));
      var k: nat :| k < FILE2BLK && o.s.blocks[b][k * FILE_WORDS] % 256 == 0;
      AddressOf(b, k, 0);
      assert Unused(o.s, FileAt(b, k));
    }
  }

  lemma DirBlockTaken(s: State, s0: State, t: Types, d: nat, p: Slot)
    requires Placed(s, t) && d in s.files && IsDir(t, d) && p.f == d && !p.Indirect? && Inv(s0) && Grown(s, s0)
    requires 0 < Value(s0, p) < NBlocks(s0)
    ensures d in s0.files && Shaped(Cache(s0, Value(s0, p)))
    ensures var (s2, t2) := GotBlock(Cache(s0, Value(s0, p)), t, d, Value(s0, p));
            && Shaped(s2) && Kept(s, s2) && IsDir(t2, d) && d in s2.files && DirBlocks(s2, d) == DirBlocks(s, d)
            && Value(s0, p) < NBlocks(s2) && (CleanFree(s0) ==> CleanFree(s2)) && s2.blocks == s0.blocks
  {
    GrownKept(s, s0);
    NewOrThere(s, s0, t, d, p);
    hide Placed, Inv, Test, CleanFree, Kept, IsFree, GotBlock, Value, IsDir;
    TakenKept(s0, t, d, Value(s0, p));
    KeptTwice(s, s0, GotBlock(Cache(s0, Value(s0, p)), t, d, Value(s0, p)).0);
  }

  lemma NewOrThere(s: State, s1: State, t: Types, d: nat, p: Slot)
    requires Placed(s, t) && Inv(s1) && Grown(s, s1) && Value(s1, p) != 0 && !p.Indirect? && IsDir(t, p.f) && p.f == d
    ensures FileAt(Value(s1, p), 0) !in s1.files ==> forall f :: f in s1.files ==> BlockOf(f) != Value(s1, p)
    ensures !IsFree(s1, Value(s1, p)) && t.Keys == s1.files.Keys
  {
    NewBlockIsNoHome(s, t, p, s1);
    hide Value, IsFree, Test;
  }

  /** Struct File f is in a block of directory d. */
  ghost predicate InDir(s: State, d: nat, f: nat)
    requires Shaped(s)
  {
    BlockOf(f) != 0 && exists i: nat :: Value(s, SlotOf(d, i)) == BlockOf(f)
  }

  lemma FoundInDir(s: State, d: nat, i: nat, b: nat, j: nat)
    requires Shaped(s) && Value(s, SlotOf(d, i)) == b != 0 && j < FILE2BLK
    ensures InDir(s, d, FileAt(b, j))
  {
    hide Value;
    AddressOf(b, j, 0);
  }

  /** The name goes into a block that is no indirect block. */
  lemma WithNameKeeps(s: State, t: Types, d: nat, f: nat, name: seq<nat>)
    requires Placed(s, t) && InDir(s, d, f) && |name| == NAME_WORDS && name[0] % 256 != 0
    ensures BlockOf(f) < NBlocks(s)
    ensures Placed(WithName(s, f, name), t) && Kept(s, WithName(s, f, name))
    ensures forall p :: Value(WithName(s, f, name), p) == Value(s, p)
    ensures d in s.files ==> DirBlocks(WithName(s, f, name), d) == DirBlocks(s, d)
    ensures !Unused(WithName(s, f, name), f) && InDir(WithName(s, f, name), d, f)
  {
    hide Value;
    var i: nat :| Value(s, SlotOf(d, i)) == BlockOf(f);
    DataIsNotIndirect(s, SlotOf(d, i));
    Named(s, f, name, f);
    hide Unused;
    var b, w := BlockOf(f), f % FILE2BLK * FILE_WORDS;
    StoreKeeps(s, t, b, s.blocks[b][..w] + name + s.blocks[b][w + NAME_WORDS..]);
    assert Value(WithName(s, f, name), SlotOf(d, i)) == BlockOf(f);
  }

  /** It is no free block either. */
  lemma WithNameClean(s: State, d: nat, f: nat, name: seq<nat>)
    requires Inv(s) && InDir(s, d, f) && |name| == NAME_WORDS && BlockOf(f) < NBlocks(s) && CleanFree(s)
    ensures CleanFree(WithName(s, f, name))
  {
    hide Value, Test;
    var i: nat :| Value(s, SlotOf(d, i)) == BlockOf(f);
    assert !IsFree(s, BlockOf(f));
    assert forall b :: IsFree(WithName(s, f, name), b) == IsFree(s, b);
  }

  lemma SetSizeShrinks(s: State, f: nat, newsize: nat)
    requires Inv(s) && f in s.files
    ensures Inv(FsBlocks.SetSize(s, f, newsize)) && Shrunk(s, FsBlocks.SetSize(s, f, newsize), f)
  {
    if s.files[f].size > newsize {
      TruncateShrinks(s, f, newsize);
    } else {
      WithSizeDoes(s, f, newsize);
      hide Value, IsFree;
    }
  }
}
