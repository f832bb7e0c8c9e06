/** Loading a program segment: elf_load_seg_64 of lib/elfloader.c with the mapper of kern/env.c. */
module ElfLoader {
  import opened Errors
  import opened Options
  import opened Sv39

  type Bytes = seq<bv8>

  function Min(a: nat, b: nat): nat { if a < b then a else b }
  function Max(a: nat, b: nat): nat { if a < b then b else a }

  function CeilDiv(x: nat): nat { (x + (PAGE_SIZE - 1)) / PAGE_SIZE }

  /** Bytes that the first, unaligned call brings in. */
  function Head(va: nat, filesz: nat): nat
  {
    if va % PAGE_SIZE == 0 then 0 else Min(filesz, PAGE_SIZE - va % PAGE_SIZE)
  }

  /** Calls of the mapper after the first, unaligned one: one every PAGE_SIZE bytes. */
  function Rounds(va: nat, filesz: nat, memsz: nat): nat
  {
    var m := Head(va, filesz);
    if Max(filesz, memsz) <= m then 0 else CeilDiv(Max(filesz, memsz) - m)
  }

  /** The pages that the mapper is called for, in order. */
  function CallPages(va: nat, filesz: nat, memsz: nat): seq<nat>
  {
    (if va % PAGE_SIZE != 0 then [va / PAGE_SIZE] else [])
    + seq(Rounds(va, filesz, memsz), k requires 0 <= k => (va + Head(va, filesz)) / PAGE_SIZE + k)
  }

  /** The pages that overlap [va, va + memsz). */
  function SegmentPages(va: nat, memsz: nat): seq<nat>
  {
    seq(if memsz == 0 then 0 else (va + memsz - 1) / PAGE_SIZE + 1 - va / PAGE_SIZE, k requires 0 <= k =>
        va / PAGE_SIZE + k)
  }

  lemma CeilDivIs(x: nat, q: nat)
    requires q * PAGE_SIZE < x + PAGE_SIZE && x <= q * PAGE_SIZE
    ensures CeilDiv(x) == q
  {
    Div4K(x + (PAGE_SIZE - 1), q, x + (PAGE_SIZE - 1) - q * PAGE_SIZE);
  }

  /** The mapper is called once for each page of the segment, in order, exactly if the segment starts on a
      page boundary, or its file part reaches the end of the first page, or it has no part beyond the file
      and is not empty. */
  lemma OncePerPage(va: nat, filesz: nat, memsz: nat)
    requires filesz <= memsz
    ensures CallPages(va, filesz, memsz) == SegmentPages(va, memsz) <==>
              va % PAGE_SIZE == 0 || filesz >= PAGE_SIZE - va % PAGE_SIZE || (filesz == memsz && memsz > 0)
  {
    var q, o := va / PAGE_SIZE, va % PAGE_SIZE;
    assert va == q * PAGE_SIZE + o;
    if o == 0 {
      AlignedPages(q, filesz, memsz);
    } else if filesz >= PAGE_SIZE - o {
      HeadPages(q, o, filesz, memsz);
    } else {
      ShortPages(q, o, filesz, memsz);
    }
  }

  lemma AlignedPages(q: nat, filesz: nat, memsz: nat)
    requires filesz <= memsz
    ensures CallPages(q * PAGE_SIZE, filesz, memsz) == SegmentPages(q * PAGE_SIZE, memsz)
  {
    var va := q * PAGE_SIZE;
    Div4K(va, q, 0);
    if memsz > 0 {
      LastPage(q, 0, memsz);
    }
  }

  /** The page of the last byte. */
  lemma LastPage(q: nat, o: nat, memsz: nat)
    requires o < PAGE_SIZE && memsz > 0
    ensures (q * PAGE_SIZE + o + memsz - 1) / PAGE_SIZE == q + CeilDiv(o + memsz) - 1
  {
    var y := o + memsz - 1;
    var n, r := y / PAGE_SIZE, y % PAGE_SIZE;
    assert y == n * PAGE_SIZE + r;
    Div4K(q * PAGE_SIZE + y, q + n, r);
    CeilDivIs(o + memsz, n + 1);
  }

  lemma HeadPages(q: nat, o: nat, filesz: nat, memsz: nat)
    requires 0 < o < PAGE_SIZE && PAGE_SIZE - o <= filesz <= memsz
    ensures CallPages(q * PAGE_SIZE + o, filesz, memsz) == SegmentPages(q * PAGE_SIZE + o, memsz)
  {
    var va := q * PAGE_SIZE + o;
    Div4K(va, q, o);
    var m := PAGE_SIZE - o;
    assert va + m == (q + 1) * PAGE_SIZE;
    Div4K(va + m, q + 1, 0);
    LastPage(q, o, memsz);
    var x := memsz - m;
    var n := CeilDiv(x);
    if x > 0 {
      var k, r := (x + (PAGE_SIZE - 1)) / PAGE_SIZE, (x + (PAGE_SIZE - 1)) % PAGE_SIZE;
      assert x + (PAGE_SIZE - 1) == k * PAGE_SIZE + r;
      CeilDivIs(o + memsz, n + 1);
    } else {
      CeilDivIs(o + memsz, 1);
    }
    var c, s := CallPages(va, filesz, memsz), SegmentPages(va, memsz);
    assert |c| == |s|;
    forall i | 0 <= i < |c| ensures c[i] == s[i] {
    }
  }

  lemma ShortPages(q: nat, o: nat, filesz: nat, memsz: nat)
    requires 0 < o < PAGE_SIZE && filesz < PAGE_SIZE - o && filesz <= memsz
    ensures CallPages(q * PAGE_SIZE + o, filesz, memsz) == SegmentPages(q * PAGE_SIZE + o, memsz) <==>
              filesz == memsz && memsz > 0
  {
    var va := q * PAGE_SIZE + o;
    Div4K(va, q, o);
    Div4K(va + filesz, q, o + filesz);
    var c, s := CallPages(va, filesz, memsz), SegmentPages(va, memsz);
    if filesz == memsz {
      if memsz > 0 {
        Div4K(va + memsz - 1, q, o + memsz - 1);
      }
    } else {
      CeilDivPositive(memsz - filesz);
      assert c[1] == q;
      assert |s| > 1 ==> s[1] == q + 1;
    }
  }

  lemma CeilDivPositive(x: nat)
    requires x > 0
    ensures CeilDiv(x) >= 1
  {
  }

  /* ---- Memory ---- */

  /** What byte a of the address space should be: the file's bytes, then zeros. */
  function Wanted(va: nat, bin: Bytes, a: nat): bv8
  {
    if va <= a < va + |bin| then bin[a - va] else 0
  }

  /** Page p holds what it should. */
  ghost predicate PageLoaded(pages: map<nat, Bytes>, va: nat, bin: Bytes, p: nat)
  {
    p in pages && |pages[p]| == PAGE_SIZE
    && forall j: nat :: j < PAGE_SIZE ==> pages[p][j] == Wanted(va, bin, p * PAGE_SIZE + j)
  }

  /** memcpy into a page */
  function CopyInto(page: Bytes, off: nat, src: Bytes): (r: Bytes)
    requires off + |src| <= |page|
    ensures |r| == |page|
    ensures forall j: nat :: j < |page| ==> r[j] == if off <= j < off + |src| then src[j - off] else page[j]
  {
    page[..off] + src + page[off + |src|..]
  }

  ghost predicate SameElsewhere(before: map<nat, Bytes>, after: map<nat, Bytes>, done: seq<nat>)
  {
    forall p :: p !in done ==> (p in after <==> p in before) && (p in after ==> after[p] == before[p])
  }

  /** What a call of the mapper makes of page p. */
  function Mapped(pages: map<nat, Bytes>, p: nat, off: nat, src: Option<Bytes>): map<nat, Bytes>
    requires p in pages ==> |pages[p]| == PAGE_SIZE
    requires src.Some? ==> off + |src.value| <= PAGE_SIZE
  {
    var was := if p in pages then pages[p] else ZeroBytes();
    pages[p := if src.Some? then CopyInto(was, off, src.value) else was]
  }

  /* ---- The rounds of the two loops ---- */

  lemma FirstLoaded(pages: map<nat, Bytes>, va: nat, bin: Bytes)
    requires va / PAGE_SIZE !in pages
    ensures PageLoaded(Mapped(pages, va / PAGE_SIZE, va % PAGE_SIZE,
                              Some(bin[..Min(|bin|, PAGE_SIZE - va % PAGE_SIZE)])), va, bin, va / PAGE_SIZE)
  {
    var q, o := va / PAGE_SIZE, va % PAGE_SIZE;
    assert va == q * PAGE_SIZE + o;
  }

  lemma NothingDone(pages: map<nat, Bytes>)
    ensures SameElsewhere(pages, pages, [])
  {
  }

  /** How many calls come before the rounds. */
  function First(va: nat): (n: nat)
    ensures va % PAGE_SIZE != 0 ==> n == 1
  {
    if va % PAGE_SIZE == 0 then 0 else 1
  }

  lemma PageOfRound(va: nat, filesz: nat, memsz: nat, k: nat)
    requires k < Rounds(va, filesz, memsz)
    ensures var all := CallPages(va, filesz, memsz);
            First(va) + k < |all| && all[First(va) + k] == (va + Head(va, filesz)) / PAGE_SIZE + k
  {
    hide Rounds;
  }

  lemma CallCount(va: nat, filesz: nat, memsz: nat)
    ensures |CallPages(va, filesz, memsz)| == First(va) + Rounds(va, filesz, memsz)
  {
    hide Rounds;
  }

  /** Round k of the loops is for page number k of the rounds. */
  lemma RoundPage(va: nat, filesz: nat, memsz: nat, k: nat, i: nat)
    requires i == Head(va, filesz) + k * PAGE_SIZE && i < Max(filesz, memsz)
    ensures k < Rounds(va, filesz, memsz)
    ensures (va + i) / PAGE_SIZE == (va + Head(va, filesz)) / PAGE_SIZE + k
    ensures (va + i) % PAGE_SIZE == (va + Head(va, filesz)) % PAGE_SIZE
  {
    var a := va + Head(va, filesz);
    var q, r := a / PAGE_SIZE, a % PAGE_SIZE;
    assert a == q * PAGE_SIZE + r;
    Div4K(va + i, q + k, r);
    var x := Max(filesz, memsz) - Head(va, filesz);
    var n, t := (x + (PAGE_SIZE - 1)) / PAGE_SIZE, (x + (PAGE_SIZE - 1)) % PAGE_SIZE;
    assert x + (PAGE_SIZE - 1) == n * PAGE_SIZE + t;
  }

  lemma AllRounds(va: nat, filesz: nat, memsz: nat, k: nat, i: nat)
    requires i == Head(va, filesz) + k * PAGE_SIZE && i >= Max(filesz, memsz)
    ensures k >= Rounds(va, filesz, memsz)
  {
    var m := Head(va, filesz);
    if Max(filesz, memsz) > m {
      var x := Max(filesz, memsz) - m;
      var n, t := (x + (PAGE_SIZE - 1)) / PAGE_SIZE, (x + (PAGE_SIZE - 1)) % PAGE_SIZE;
      assert x + (PAGE_SIZE - 1) == n * PAGE_SIZE + t;
    }
  }

  /** While there are bytes left in the file, the rounds are aligned. */
  lemma AlignedRound(va: nat, filesz: nat)
    requires Head(va, filesz) < filesz
    ensures (va + Head(va, filesz)) % PAGE_SIZE == 0
  {
    var q, o := va / PAGE_SIZE, va % PAGE_SIZE;
    assert va == q * PAGE_SIZE + o;
    if o != 0 {
      Div4K(va + (PAGE_SIZE - o), q + 1, 0);
    }
  }

  /** A round of the second loop is for a page behind the file's bytes, or for the page of the first call. */
  lemma RoundBehindFile(va: nat, filesz: nat, k: nat, i: nat)
    requires i == Head(va, filesz) + k * PAGE_SIZE && i >= filesz
    ensures (va + i) / PAGE_SIZE * PAGE_SIZE >= va + filesz
            || ((va + i) / PAGE_SIZE == va / PAGE_SIZE && va % PAGE_SIZE != 0)
  {
    var q, o := va / PAGE_SIZE, va % PAGE_SIZE;
    assert va == q * PAGE_SIZE + o;
    var m := Head(va, filesz);
    if o == 0 {
      Div4K(va + i, q + k, 0);
    } else if m == PAGE_SIZE - o {
      Div4K(va + i, q + 1 + k, 0);
    } else {
      Div4K(va + i, q + k, o + m);
      if k >= 1 {
        assert (q + k) * PAGE_SIZE >= (q + 1) * PAGE_SIZE;
      }
    }
  }

  /** A page that is fresh, or loaded already, is loaded after the round that copies its part of the file. */
  lemma FileRoundLoads(before: map<nat, Bytes>, va: nat, bin: Bytes, i: nat)
    requires i < |bin| && (va + i) % PAGE_SIZE == 0
    requires var p := (va + i) / PAGE_SIZE; p in before ==> PageLoaded(before, va, bin, p)
    ensures var p := (va + i) / PAGE_SIZE;
            PageLoaded(Mapped(before, p, 0, Some(bin[i..i + Min(|bin| - i, PAGE_SIZE)])), va, bin, p)
  {
    var p := (va + i) / PAGE_SIZE;
    assert va + i == p * PAGE_SIZE;
    FilePage(before, va, bin, i, p);
  }

  lemma FilePage(before: map<nat, Bytes>, va: nat, bin: Bytes, i: nat, p: nat)
    requires i < |bin| && va + i == p * PAGE_SIZE && (p in before ==> PageLoaded(before, va, bin, p))
    ensures PageLoaded(Mapped(before, p, 0, Some(bin[i..i + Min(|bin| - i, PAGE_SIZE)])), va, bin, p)
  {
    hide CopyInto, Wanted;
    var n := Min(|bin| - i, PAGE_SIZE);
    var src := bin[i..i + n];
    var was := if p in before then before[p] else ZeroBytes();
    var page := CopyInto(was, 0, src);
    forall j: nat | j < PAGE_SIZE ensures page[j] == Wanted(va, bin, p * PAGE_SIZE + j) {
      FileByte(va, bin, i, p, j);
      assert j < n ==> src[j] == bin[i + j];
    }
  }

  lemma FileByte(va: nat, bin: Bytes, i: nat, p: nat, j: nat)
    requires i < |bin| && va + i == p * PAGE_SIZE && j < PAGE_SIZE
    ensures Wanted(va, bin, p * PAGE_SIZE + j) == if j < Min(|bin| - i, PAGE_SIZE) then bin[i + j] else 0
  {
  }

  lemma ZeroRoundLoads(before: map<nat, Bytes>, va: nat, bin: Bytes, i: nat)
    requires var p := (va + i) / PAGE_SIZE;
             if p in before then PageLoaded(before, va, bin, p) else p * PAGE_SIZE >= va + |bin|
    ensures var p := (va + i) / PAGE_SIZE; PageLoaded(Mapped(before, p, 0, None), va, bin, p)
  {
  }

  /** A round keeps the pages loaded that were. */
  lemma StayLoaded(before: map<nat, Bytes>, after: map<nat, Bytes>, va: nat, bin: Bytes, all: seq<nat>, done: nat)
    requires done < |all| && (forall k :: 0 <= k < done ==> PageLoaded(before, va, bin, all[k]))
    requires PageLoaded(after, va, bin, all[done])
             && forall p :: p != all[done] ==> (p in after <==> p in before) && (p in after ==> after[p] == before[p])
    ensures forall k :: 0 <= k < done + 1 ==> PageLoaded(after, va, bin, all[k])
  {
    hide Wanted;
    forall k | 0 <= k < done + 1 ensures PageLoaded(after, va, bin, all[k]) {
      if all[k] != all[done] {
        assert PageLoaded(before, va, bin, all[k]);
      }
    }
  }

  lemma SameElsewhereNext(pages: map<nat, Bytes>, before: map<nat, Bytes>, after: map<nat, Bytes>, all: seq<nat>,
                          done: nat)
    requires done < |all| && SameElsewhere(pages, before, all[..done])
    requires forall p :: p != all[done] ==> (p in after <==> p in before) && (p in after ==> after[p] == before[p])
    ensures SameElsewhere(pages, after, all[..done + 1])
  {
    assert all[..done + 1] == all[..done] + [all[done]];
  }

  /** Frames that alloc_page_user takes at most for a page: two tables, one table of the window, and the page
      (FramesToReach of module UserSteps). */
  const FRAMES_PER_PAGE: nat := 4

  /** The address space that is being loaded; free is the number of frames left. */
  class Loader {
    var pages: map<nat, Bytes>
    var free: nat
    /** The pages that the mapper was called for. */
    ghost var calls: seq<nat>

    ghost predicate Valid()
      reads this
    {
      forall p :: p in pages ==> |pages[p]| == PAGE_SIZE
    }

    /** load_icode_mapper: a cleared page if there is none, then the bytes at the place of va in it. tables is the
        number of tables that are missing for the page. */
    method LoadIcodeMapper(va: nat, src: Option<Bytes>, tables: nat) returns (r: int)
      requires Valid() && (src.Some? ==> va % PAGE_SIZE + |src.value| <= PAGE_SIZE)
      modifies this
      ensures Valid() && calls == old(calls) + [va / PAGE_SIZE]
      ensures r == if va / PAGE_SIZE in old(pages) || old(free) > tables then 0 else -E_NO_MEM
      ensures free == if va / PAGE_SIZE in old(pages) then old(free) else if r == 0 then old(free) - 1 - tables else 0
      ensures r != 0 ==> pages == old(pages)
      ensures r == 0 ==> pages == Mapped(old(pages), va / PAGE_SIZE, va % PAGE_SIZE, src)
    {
      var p := va / PAGE_SIZE;
      calls := calls + [p];
      if p !in pages {
        if free <= tables {
          free := 0;
          return -E_NO_MEM;
        }
        free := free - 1 - tables;
        pages := pages[p := ZeroBytes()];
      }
      if src.Some? {
        pages := pages[p := CopyInto(pages[p], va % PAGE_SIZE, src.value)];
      }
      return 0;
    }

    /** elf_load_seg_64. On success every page that it went through holds the file's bytes where the
        segment has them and zeros elsewhere, if none of them was mapped before. */
    method ElfLoadSeg64(va: nat, bin: Bytes, memsz: nat) returns (r: int)
      requires Valid()
      requires forall p :: p in CallPages(va, |bin|, memsz) ==> p !in pages
      modifies this
      ensures Valid()
      ensures r == 0 ==> calls == old(calls) + CallPages(va, |bin|, memsz)
      ensures r == 0 ==> forall p :: p in CallPages(va, |bin|, memsz) ==> PageLoaded(pages, va, bin, p)
      ensures forall p :: p !in CallPages(va, |bin|, memsz) ==>
                (p in pages <==> p in old(pages)) && (p in pages ==> pages[p] == old(pages)[p])
      ensures r == 0 || r == -E_NO_MEM
      ensures old(free) >= FRAMES_PER_PAGE * |CallPages(va, |bin|, memsz)| ==> r == 0
    {
      hide CopyInto, PageLoaded, Rounds, CeilDiv, Wanted, SameElsewhere, CallPages, Progress;
      var binSize, offset := |bin|, va % PAGE_SIZE;
      ghost var all := CallPages(va, binSize, memsz);
      ghost var pages0, calls0, free0 := pages, calls, free;
      Start(va, bin, memsz);
      if offset != 0 {
        FirstCall(va, bin, memsz);
        FirstLoaded(pages, va, bin);
        r := MapRound(va, Some(bin[..Min(binSize, PAGE_SIZE - offset)]), bin, va, all, 0, pages0, calls0, free0);
        if r != 0 {
          return;
        }
      }
      var i := if offset != 0 then Min(binSize, PAGE_SIZE - offset) else 0;
      ghost var done;
      CallCount(va, binSize, memsz);
      r, i, done := FileRounds(va, bin, i, memsz, pages0, calls0, free0);
      if r != 0 {
        return;
      }
      r, i, done := ZeroRounds(va, bin, i, memsz, done, pages0, calls0, free0);
      if r != 0 {
        return;
      }
      AllRounds(va, binSize, memsz, done - First(va), i);
      ProgressDone(pages0, calls0, free0, va, bin, all);
    }

    lemma Start(va: nat, bin: Bytes, memsz: nat)
      ensures Progress(pages, calls, free, va, bin, CallPages(va, |bin|, memsz), 0)
    {
      NothingDone(pages);
      var all := CallPages(va, |bin|, memsz);
      assert all[..0] == [];
      assert calls == calls + [];
    }

    /** The first loop: the rest of the file. */
    method FileRounds(va: nat, bin: Bytes, i0: nat, ghost memsz: nat,
                      ghost pages0: map<nat, Bytes>, ghost calls0: seq<nat>, ghost free0: nat)
      returns (r: int, i: nat, ghost done: nat)
      requires Valid() && i0 == Head(va, |bin|) && First(va) <= |CallPages(va, |bin|, memsz)|
      requires forall p :: p in CallPages(va, |bin|, memsz) ==> p !in pages0
      requires Progress(pages0, calls0, free0, va, bin, CallPages(va, |bin|, memsz), First(va))
      modifies this
      ensures Valid() && (r == 0 || r == -E_NO_MEM)
      ensures r == 0 ==> i >= |bin| && First(va) <= done <= |CallPages(va, |bin|, memsz)|
                         && i == Head(va, |bin|) + (done - First(va)) * PAGE_SIZE
                         && Progress(pages0, calls0, free0, va, bin, CallPages(va, |bin|, memsz), done)
      ensures r != 0 ==> Stopped(pages0, free0, CallPages(va, |bin|, memsz))
    {
      hide CopyInto, PageLoaded, Rounds, CeilDiv, Wanted, SameElsewhere, CallPages, Progress, Stopped, Mapped, Head,
        First;
      ghost var all := CallPages(va, |bin|, memsz);
      i, done := i0, First(va);
      while i < |bin|
        invariant Valid() && i >= Head(va, |bin|) && First(va) <= done <= |all|
        invariant i == Head(va, |bin|) + (done - First(va)) * PAGE_SIZE
        invariant Progress(pages0, calls0, free0, va, bin, all, done)
        decreases if i < |bin| then |bin| - i else 0
      {
        RoundPage(va, |bin|, memsz, done - First(va), i);
        PageOfRound(va, |bin|, memsz, done - First(va));
        AlignedRound(va, |bin|);
        ListedPage(pages0, all, done);
        ProgressPages(pages0, calls0, free0, va, bin, all, done);
        NextPage(pages0, pages, va, bin, all, done);
        FileRoundLoads(pages, va, bin, i);
        r := MapRound(va + i, Some(bin[i..i + Min(|bin| - i, PAGE_SIZE)]), bin, va, all, done, pages0, calls0, free0);
        if r != 0 {
          return;
        }
        done := done + 1;
        i := i + PAGE_SIZE;
      }
      r := 0;
    }

    /** The second loop: pages behind the file's bytes. */
    method ZeroRounds(va: nat, ghost bin: Bytes, i0: nat, memsz: nat, ghost done0: nat,
                      ghost pages0: map<nat, Bytes>, ghost calls0: seq<nat>, ghost free0: nat)
      returns (r: int, i: nat, ghost done: nat)
      requires Valid() && i0 >= |bin| && First(va) <= done0 <= |CallPages(va, |bin|, memsz)|
      requires i0 == Head(va, |bin|) + (done0 - First(va)) * PAGE_SIZE
      requires forall p :: p in CallPages(va, |bin|, memsz) ==> p !in pages0
      requires Progress(pages0, calls0, free0, va, bin, CallPages(va, |bin|, memsz), done0)
      modifies this
      ensures Valid() && (r == 0 || r == -E_NO_MEM)
      ensures r == 0 ==> i >= |bin| && i >= memsz && First(va) <= done <= |CallPages(va, |bin|, memsz)|
                         && i == Head(va, |bin|) + (done - First(va)) * PAGE_SIZE
                         && Progress(pages0, calls0, free0, va, bin, CallPages(va, |bin|, memsz), done)
      ensures r != 0 ==> Stopped(pages0, free0, CallPages(va, |bin|, memsz))
    {
      hide CopyInto, PageLoaded, Rounds, CeilDiv, Wanted, SameElsewhere, CallPages, Progress, Stopped, Head, First;
      ghost var all := CallPages(va, |bin|, memsz);
      i, done := i0, done0;
      while i < memsz
        invariant Valid() && i >= |bin| && First(va) <= done <= |all|
        invariant i == Head(va, |bin|) + (done - First(va)) * PAGE_SIZE
        invariant Progress(pages0, calls0, free0, va, bin, all, done)
        decreases if i < memsz then memsz - i else 0
      {
        RoundPage(va, |bin|, memsz, done - First(va), i);
        PageOfRound(va, |bin|, memsz, done - First(va));
        RoundBehindFile(va, |bin|, done - First(va), i);
        ListedPage(pages0, all, done);
        ProgressPages(pages0, calls0, free0, va, bin, all, done);
        FirstCall(va, bin, memsz);
        ZeroOrLoaded(pages0, pages, va, bin, all, done, i);
        ZeroRoundLoads(pages, va, bin, i);
        r := MapRound(va + i, None, bin, va, all, done, pages0, calls0, free0);
        if r != 0 {
          return;
        }
        done := done + 1;
        i := i + PAGE_SIZE;
      }
      r := 0;
    }

    /** A call of the mapper has failed for want of a frame. */
    ghost predicate Stopped(pages0: map<nat, Bytes>, free0: nat, all: seq<nat>)
      reads this
    {
      && free0 < FRAMES_PER_PAGE * |all|
      && forall p :: p !in all ==> (p in pages <==> p in pages0) && (p in pages ==> pages[p] == pages0[p])
    }

    /** One call of the mapper from one of the loops; how many tables are missing is left open. */
    method MapRound(a: nat, src: Option<Bytes>, ghost bin: Bytes, ghost va: nat, ghost all: seq<nat>, ghost done: nat,
                    ghost pages0: map<nat, Bytes>, ghost calls0: seq<nat>, ghost free0: nat)
      returns (r: int)
      requires Valid() && (src.Some? ==> a % PAGE_SIZE + |src.value| <= PAGE_SIZE)
      requires done < |all| && all[done] == a / PAGE_SIZE && Progress(pages0, calls0, free0, va, bin, all, done)
      requires PageLoaded(Mapped(pages, a / PAGE_SIZE, a % PAGE_SIZE, src), va, bin, a / PAGE_SIZE)
      modifies this
      ensures Valid() && (r == 0 || r == -E_NO_MEM)
      ensures r == 0 ==> Progress(pages0, calls0, free0, va, bin, all, done + 1)
      ensures r != 0 ==> Stopped(pages0, free0, all)
    {
      hide CopyInto, PageLoaded, Wanted;
      ghost var before := pages;
      var tables: nat := *;
      r := LoadIcodeMapper(a, src, Min(tables, FRAMES_PER_PAGE - 1));
      if r == 0 {
        MoreProgress(pages0, calls0, free0, before, va, bin, all, done);
      } else {
        assert forall p :: p in all[..done] ==> p in all;
      }
    }

    lemma ProgressPages(pages0: map<nat, Bytes>, calls0: seq<nat>, free0: nat, va: nat, bin: Bytes, all: seq<nat>,
                        done: nat)
      requires done <= |all| && Progress(pages0, calls0, free0, va, bin, all, done)
      ensures SameElsewhere(pages0, pages, all[..done])
              && forall k :: 0 <= k < done ==> PageLoaded(pages, va, bin, all[k])
    {
    }

    lemma ProgressDone(pages0: map<nat, Bytes>, calls0: seq<nat>, free0: nat, va: nat, bin: Bytes, all: seq<nat>)
      requires Progress(pages0, calls0, free0, va, bin, all, |all|)
      ensures calls == calls0 + all && forall p :: p in all ==> PageLoaded(pages, va, bin, p)
      ensures forall p :: p !in all ==> (p in pages <==> p in pages0) && (p in pages ==> pages[p] == pages0[p])
    {
      hide PageLoaded;
      assert all[..|all|] == all;
    }

    /** The first done calls have been made, and their pages are loaded. */
    ghost predicate Progress(pages0: map<nat, Bytes>, calls0: seq<nat>, free0: nat, va: nat, bin: Bytes,
                             all: seq<nat>, done: nat)
      requires done <= |all|
      reads this
    {
      && calls == calls0 + all[..done]
      && (forall k :: 0 <= k < done ==> PageLoaded(pages, va, bin, all[k]))
      && SameElsewhere(pages0, pages, all[..done])
      && free + FRAMES_PER_PAGE * done >= free0
    }

    lemma MoreProgress(pages0: map<nat, Bytes>, calls0: seq<nat>, free0: nat, before: map<nat, Bytes>,
                       va: nat, bin: Bytes, all: seq<nat>, done: nat)
      requires done < |all| && calls == calls0 + all[..done] + [all[done]]
      requires forall k :: 0 <= k < done ==> PageLoaded(before, va, bin, all[k])
      requires SameElsewhere(pages0, before, all[..done]) && free + FRAMES_PER_PAGE * (done + 1) >= free0
      requires PageLoaded(pages, va, bin, all[done])
      requires forall p :: p != all[done] ==> (p in pages <==> p in before) && (p in pages ==> pages[p] == before[p])
      ensures Progress(pages0, calls0, free0, va, bin, all, done + 1)
    {
      hide PageLoaded;
      StayLoaded(before, pages, va, bin, all, done);
      SameElsewhereNext(pages0, before, pages, all, done);
      assert all[..done + 1] == all[..done] + [all[done]];
    }
  }

  lemma FirstCall(va: nat, bin: Bytes, memsz: nat)
    ensures va % PAGE_SIZE != 0 ==>
              CallPages(va, |bin|, memsz) != [] && CallPages(va, |bin|, memsz)[0] == va / PAGE_SIZE
  {
  }

  lemma ZeroOrLoaded(pages0: map<nat, Bytes>, pages: map<nat, Bytes>, va: nat, bin: Bytes, all: seq<nat>, done: nat,
                     i: nat)
    requires done < |all| && SameElsewhere(pages0, pages, all[..done]) && all[done] !in pages0
    requires forall k :: 0 <= k < done ==> PageLoaded(pages, va, bin, all[k])
    requires all[done] == (va + i) / PAGE_SIZE
    requires (va + i) / PAGE_SIZE * PAGE_SIZE >= va + |bin|
             || ((va + i) / PAGE_SIZE == va / PAGE_SIZE && 0 < done && all[0] == va / PAGE_SIZE)
    ensures all[done] in pages ==> PageLoaded(pages, va, bin, all[done])
    ensures all[done] !in pages ==> all[done] * PAGE_SIZE >= va + |bin|
  {
    hide Wanted, PageLoaded;
    NextPage(pages0, pages, va, bin, all, done);
    assert 0 < done ==> all[0] == all[..done][0];
  }

  /** A page of the list was not mapped at the start. */
  lemma ListedPage(pages: map<nat, Bytes>, all: seq<nat>, done: nat)
    requires done < |all| && forall p :: p in all ==> p !in pages
    ensures all[done] !in pages
  {
  }

  /** The next page is fresh, unless it is loaded already. */
  lemma NextPage(pages0: map<nat, Bytes>, pages: map<nat, Bytes>, va: nat, bin: Bytes, all: seq<nat>, done: nat)
    requires done < |all| && SameElsewhere(pages0, pages, all[..done]) && all[done] !in pages0
    requires forall k :: 0 <= k < done ==> PageLoaded(pages, va, bin, all[k])
    ensures all[done] in pages ==> PageLoaded(pages, va, bin, all[done])
    ensures all[done] !in pages ==> all[done] !in all[..done]
  {
    hide Wanted;
    if all[done] in all[..done] {
      var k :| 0 <= k < done && all[k] == all[done];
      assert PageLoaded(pages, va, bin, all[k]);
    }
  }

  /** So when the mapper is called once per page, all of [va, va + memsz) is mapped and holds the file's bytes
      followed by zeros. */
  lemma SegmentInMemory(pages: map<nat, Bytes>, va: nat, bin: Bytes, memsz: nat, k: nat)
    requires |bin| <= memsz && k < memsz && CallPages(va, |bin|, memsz) == SegmentPages(va, memsz)
    requires forall p :: p in CallPages(va, |bin|, memsz) ==> PageLoaded(pages, va, bin, p)
    ensures var a := va + k;
            && a / PAGE_SIZE in pages && |pages[a / PAGE_SIZE]| == PAGE_SIZE
            && pages[a / PAGE_SIZE][a % PAGE_SIZE] == if k < |bin| then bin[k] else 0
  {
    hide CallPages;
    var a := va + k;
    var p, j := a / PAGE_SIZE, a % PAGE_SIZE;
    assert a == p * PAGE_SIZE + j;
    PageInSegment(va, memsz, k);
    var s := SegmentPages(va, memsz);
    assert s[p - va / PAGE_SIZE] == p;
    assert p in s;
  }

  lemma PageInSegment(va: nat, memsz: nat, k: nat)
    requires k < memsz
    ensures va / PAGE_SIZE <= (va + k) / PAGE_SIZE <= (va + memsz - 1) / PAGE_SIZE
  {
  }

  /** A segment that starts inside a page and whose file part ends there: the second loop counts its pages
      from the end of the file part instead of the start of a page. It reaches the last page of the
      segment exactly if both counts are the same. */
  lemma ShortFileReachesEnd(va: nat, filesz: nat, memsz: nat)
    requires va % PAGE_SIZE != 0 && filesz < PAGE_SIZE - va % PAGE_SIZE && filesz < memsz
    ensures (va + memsz - 1) / PAGE_SIZE in CallPages(va, filesz, memsz)
            <==> CeilDiv(memsz - filesz) >= CeilDiv(va % PAGE_SIZE + memsz)
  {
    var q, o := va / PAGE_SIZE, va % PAGE_SIZE;
    assert va == q * PAGE_SIZE + o;
    Div4K(va + filesz, q, o + filesz);
    LastPage(q, o, memsz);
    CeilDivPositive(memsz - filesz);
    CeilDivPositive(o + memsz);
    hide CeilDiv;
    var c, n, last := CallPages(va, filesz, memsz), CeilDiv(memsz - filesz), q + CeilDiv(o + memsz) - 1;
    assert |c| == n + 1 && c[0] == q && forall k :: 1 <= k <= n ==> c[k] == q + k - 1;
    if last <= q + n - 1 {
      assert c[last - q + 1] == last;
    }
  }

  /** For example, a page of zeros that starts in the middle of a page. */
  lemma LastPageMissed()
    ensures CallPages(0x1800, 0, 0x1000) == [1, 1] && SegmentPages(0x1800, 0x1000) == [1, 2]
  {
  }
}
