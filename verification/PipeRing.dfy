/** The ring buffer of a pipe (user/lib/pipe.c) and the loops of pipe_read and pipe_write on it. Module
    PipeRun has their interleavings. */
module PipeRing {

  const BY2PIPE: nat := 32

  /** struct Pipe */
  datatype Ring = Ring(rpos: nat, wpos: nat, buf: seq<bv8>)

  predicate Valid(p: Ring) { |p.buf| == BY2PIPE && p.rpos < BY2PIPE && p.wpos < BY2PIPE }

  /** The waiting conditions of pipe_read and pipe_write. */
  predicate IsEmpty(p: Ring) { p.wpos == p.rpos }
  predicate IsFull(p: Ring) { p.wpos + 1 == p.rpos || (p.wpos == BY2PIPE - 1 && p.rpos == 0) }

  function Wrap(i: nat): nat { if i == BY2PIPE then 0 else i }

  function Put(p: Ring, b: bv8): Ring
    requires Valid(p)
  {
    p.(buf := p.buf[p.wpos := b], wpos := Wrap(p.wpos + 1))
  }

  function Take(p: Ring): Ring
  {
    p.(rpos := Wrap(p.rpos + 1))
  }

  /** The bytes between the read and the write position. */
  function Buffered(p: Ring): seq<bv8>
    requires Valid(p)
  {
    if p.rpos <= p.wpos then p.buf[p.rpos..p.wpos] else p.buf[p.rpos..] + p.buf[..p.wpos]
  }

  lemma BufferedBytes(p: Ring)
    requires Valid(p)
    ensures IsEmpty(p) <==> Buffered(p) == []
    ensures |Buffered(p)| <= BY2PIPE - 1
    ensures IsFull(p) <==> |Buffered(p)| == BY2PIPE - 1
  {
  }

  lemma PutAppends(p: Ring, b: bv8)
    requires Valid(p) && !IsFull(p)
    ensures Valid(Put(p, b)) && Buffered(Put(p, b)) == Buffered(p) + [b]
  {
    var q := Put(p, b);
    if p.rpos <= p.wpos {
      assert q.buf[p.rpos..p.wpos + 1] == p.buf[p.rpos..p.wpos] + [b];
    } else {
      assert q.buf[p.rpos..] == p.buf[p.rpos..];
      assert q.buf[..q.wpos] == p.buf[..p.wpos] + [b];
    }
  }

  lemma PutBytes(p: Ring, b: bv8)
    requires Valid(p)
    ensures Put(p, b) == Ring(p.rpos, Wrap(p.wpos + 1), p.buf[p.wpos := b])
  {
  }

  lemma TakeDropsFirst(p: Ring)
    requires Valid(p) && !IsEmpty(p)
    ensures Valid(Take(p)) && Buffered(p) == [p.buf[p.rpos]] + Buffered(Take(p))
  {
    if p.rpos > p.wpos {
      assert p.buf[p.rpos..] == [p.buf[p.rpos]] + p.buf[p.rpos + 1..];
    }
  }

  /** k byte moves of readers, and the bytes that they get. */
  function TakeN(p: Ring, k: nat): (q: Ring)
    requires p.rpos < BY2PIPE
    ensures q == p.(rpos := (p.rpos + k) % BY2PIPE)
    decreases k
  {
    if k == 0 then p else TakeN(Take(p), k - 1)
  }

  function BytesTaken(p: Ring, k: nat): (bytes: seq<bv8>)
    requires Valid(p)
    ensures |bytes| == k
    decreases k
  {
    if k == 0 then [] else [p.buf[p.rpos]] + BytesTaken(Take(p), k - 1)
  }

  lemma {:induction false} TakesPrefix(p: Ring, k: nat)
    requires Valid(p) && k <= |Buffered(p)|
    ensures BytesTaken(p, k) == Buffered(p)[..k] && Buffered(TakeN(p, k)) == Buffered(p)[k..]
    decreases k
  {
    if k > 0 {
      BufferedBytes(p);
      TakeDropsFirst(p);
      TakesPrefix(Take(p), k - 1);
      hide Buffered, Take;
      ConsPrefix(p.buf[p.rpos], Buffered(Take(p)), k);
    }
  }

  lemma ConsPrefix(b: bv8, s: seq<bv8>, k: nat)
    requires 0 < k <= |s| + 1
    ensures ([b] + s)[..k] == [b] + s[..k - 1] && ([b] + s)[k..] == s[k - 1..]
  {
  }

  /** The pipe page in memory. */
  class Pipe {
    var rpos: nat
    var wpos: nat
    const buf: array<bv8>

    function State(): Ring
      reads this, buf
    {
      Ring(rpos, wpos, buf[..])
    }

    /** A page of zero bytes, as sys_mem_alloc gives it. */
    constructor ()
      ensures Valid(State()) && IsEmpty(State()) && fresh(buf)
    {
      rpos, wpos := 0, 0;
      buf := new bv8[BY2PIPE](_ => 0);
    }

    /** The loop of pipe_write up to its end, or up to the point where it must wait. */
    method Write(vbuf: seq<bv8>) returns (i: nat)
      requires Valid(State())
      modifies this, buf
      ensures Valid(State()) && i <= |vbuf|
      ensures Buffered(State()) == old(Buffered(State())) + vbuf[..i]
      ensures i == |vbuf| || IsFull(State())
    {
      hide Buffered, Put;
      i := 0;
      assert vbuf[..0] == [];
      while i < |vbuf|
        invariant Valid(State()) && i <= |vbuf|
        invariant Buffered(State()) == old(Buffered(State())) + vbuf[..i]
      {
        if wpos + 1 == rpos || (wpos == BY2PIPE - 1 && rpos == 0) {
          return;
        }
        ghost var p := State();
        PutAppends(p, vbuf[i]);
        Associate(old(Buffered(State())), vbuf[..i], [vbuf[i]]);
        assert vbuf[..i + 1] == vbuf[..i] + [vbuf[i]];
        PutBytes(p, vbuf[i]);
        buf[wpos] := vbuf[i];
        wpos := wpos + 1;
        if wpos == BY2PIPE {
          wpos := 0;
        }
        assert State() == Put(p, vbuf[i]);
        i := i + 1;
      }
    }

    /** The loop of pipe_read up to its end, or up to the point where it must wait. */
    method Read(n: nat) returns (vbuf: seq<bv8>)
      requires Valid(State())
      modifies this
      ensures Valid(State()) && |vbuf| <= n
      ensures old(Buffered(State())) == vbuf + Buffered(State())
      ensures |vbuf| == n || IsEmpty(State())
    {
      hide Buffered;
      vbuf := [];
      while |vbuf| < n
        invariant Valid(State()) && |vbuf| <= n
        invariant old(Buffered(State())) == vbuf + Buffered(State())
        decreases n - |vbuf|
      {
        if wpos == rpos {
          return;
        }
        ghost var p := State();
        TakeDropsFirst(p);
        Associate(vbuf, [buf[rpos]], Buffered(Take(p)));
        vbuf := vbuf + [buf[rpos]];
        rpos := rpos + 1;
        if rpos == BY2PIPE {
          rpos := 0;
        }
        assert State() == Take(p);
      }
    }
  }

  lemma Associate<T>(a: seq<T>, b: seq<T>, c: seq<T>)
    ensures (a + b) + c == a + (b + c)
  {
  }

  /* ---- A byte move taken apart ---- */

  /** p_buf[p_wpos++] = b, before the wrap */
  function PutNoWrap(p: Ring, b: bv8): Ring
    requires Valid(p)
  {
    p.(buf := p.buf[p.wpos := b], wpos := p.wpos + 1)
  }

  /** The writer is interrupted between the increment and the wrap. That matters exactly at the last place of the
      buffer: there the reader finds the buffer not empty after it has taken all bytes and the new one, where it
      is empty after a whole move, and takes what is in place 0, a byte that has not been written. */
  lemma SplitWrapReadsStaleByte(p: Ring, b: bv8)
    requires Valid(p) && !IsFull(p)
    ensures p.wpos != BY2PIPE - 1 ==> PutNoWrap(p, b) == Put(p, b)
    ensures p.wpos == BY2PIPE - 1 ==>
              var n := |Buffered(p)| + 1;
              && (forall k :: 0 <= k < n ==> !IsEmpty(TakeN(PutNoWrap(p, b), k)) && !IsEmpty(TakeN(Put(p, b), k)))
              && (forall k :: 0 <= k <= n ==> TakeN(PutNoWrap(p, b), k).rpos == TakeN(Put(p, b), k).rpos)
              && IsEmpty(TakeN(Put(p, b), n)) && !IsEmpty(TakeN(PutNoWrap(p, b), n))
                 && TakeN(PutNoWrap(p, b), n).rpos == 0
              && PutNoWrap(p, b).buf[0] == p.buf[0]
    ensures (exists k: nat :: IsEmpty(TakeN(Put(p, b), k)) && !IsEmpty(TakeN(PutNoWrap(p, b), k))) <==>
              p.wpos == BY2PIPE - 1
  {
    if p.wpos == BY2PIPE - 1 {
      var n := |Buffered(p)| + 1;
      assert n == BY2PIPE - p.rpos;
      assert IsEmpty(TakeN(Put(p, b), n)) && !IsEmpty(TakeN(PutNoWrap(p, b), n));
    }
  }
}
