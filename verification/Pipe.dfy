/**
 The pipe of pipe.c: a ring of 512 bytes with two free-running 32-bit counters.

 Each method runs from taking the pipe's lock to giving it up, by return or by sleep, so an
 interleaving of readers, writers and closers is a sequence of these calls, and what `Valid` says
 holds between any two of them.
 */
module Pipe {

  type Byte = bv8

  /** unsigned int arithmetic */
  function Wrap(n: nat): nat {
    n % 0x1_0000_0000
  }

  /** The ring index of a byte does not feel the counters wrap, because 512 divides 2^32. */
  lemma WrapIndex(n: nat)
    ensures Wrap(n) % 512 == n % 512
  {
    var q := n / 0x1_0000_0000;
    assert n == 512 * (8388608 * q) + Wrap(n);
  }

  /** Two positions of the ring that are less than 512 apart are different. */
  lemma RingApart(j: nat, k: nat)
    requires j < k < j + 512
    ensures j % 512 != k % 512
  {
  }

  /** Wrapped counters at most 512 apart still tell full and empty. */
  lemma WrapTests(r: nat, w: nat)
    requires r <= w <= r + 512
    ensures Wrap(w) == Wrap(r) <==> w == r
    ensures Wrap(w) == Wrap(Wrap(r) + 512) <==> w == r + 512
  {
    var a, b := r / 0x1_0000_0000, w / 0x1_0000_0000;
    assert r == a * 0x1_0000_0000 + Wrap(r) && w == b * 0x1_0000_0000 + Wrap(w);
    assert a <= b <= a + 1;
  }

  lemma WrapNext(n: nat)
    ensures Wrap(Wrap(n) + 1) == Wrap(n + 1)
  {
  }

  /** The open flags, and how often the pipe's page has been given back. */
  datatype Ends = Ends(readopen: bool, writeopen: bool, frees: nat)

  /** The page is given back once, when neither end is open. */
  predicate EndsValid(e: Ends) {
    e.frees == if e.readopen || e.writeopen then 0 else 1
  }

  /** pipeclose */
  function CloseEnd(e: Ends, writable: bool): (r: Ends)
    requires EndsValid(e) && if writable then e.writeopen else e.readopen
    ensures EndsValid(r)
    ensures r.readopen == (e.readopen && writable) && r.writeopen == (e.writeopen && !writable)
  {
    var c := if writable then e.(writeopen := false) else e.(readopen := false);
    if !c.readopen && !c.writeopen then c.(frees := c.frees + 1) else c
  }

  datatype WriteOutcome = Wrote | WriteBlocked | WriteFailed

  datatype ReadOutcome = Read(bytes: seq<Byte>) | ReadBlocked | ReadFailed

  class Pipe {
    const data: array<Byte>
    var nread: nat
    var nwrite: nat
    var ends: Ends
    /** Every byte ever stored, and every byte ever read. */
    ghost var stored: seq<Byte>
    ghost var taken: seq<Byte>

    ghost predicate Valid()
      reads this, data
    {
      && data.Length == 512
      && EndsValid(ends)
      && nread == Wrap(|taken|) && nwrite == Wrap(|stored|)
      && |taken| <= |stored| <= |taken| + 512
      && taken == stored[..|taken|]
      && (forall k {:trigger stored[k]} :: |taken| <= k < |stored| ==> data[k % 512] == stored[k])
    }

    /** The part of pipealloc that fills in the page. */
    constructor ()
      ensures Valid() && fresh(data)
      ensures stored == [] && taken == [] && ends == Ends(true, true, 0)
    {
      data := new Byte[512];
      nread, nwrite := 0, 0;
      ends := Ends(true, true, 0);
      stored, taken := [], [];
    }

    /** pipewrite of addr[i..], until all is stored, the ring is full and it sleeps, or it fails. */
    method Write(addr: seq<Byte>, i: nat, killed: bool) returns (next: nat, r: WriteOutcome)
      requires Valid() && i <= |addr|
      modifies this`nwrite, this`stored, data
      ensures Valid()
      ensures i <= next <= |addr| && stored == old(stored) + addr[i..next]
      ensures r.Wrote? <==> next == |addr|
      ensures !r.Wrote? ==> |stored| == |taken| + 512
      ensures r.WriteFailed? <==> next < |addr| && (!ends.readopen || killed)
    {
      next := i;
      while next < |addr|
        invariant i <= next <= |addr|
        invariant Valid() && stored == old(stored) + addr[i..next]
      {
        WrapTests(|taken|, |stored|);
        if nwrite == Wrap(nread + 512) {
          return next, if !ends.readopen || killed then WriteFailed else WriteBlocked;
        }
        Put(addr[next]);
        next := next + 1;
      }
      r := Wrote;
    }

    method Put(b: Byte)
      requires Valid() && |stored| < |taken| + 512
      modifies this`nwrite, this`stored, data
      ensures Valid() && stored == old(stored) + [b]
    {
      WrapIndex(|stored|);
      WrapNext(|stored|);
      forall k | |taken| <= k < |stored| ensures k % 512 != |stored| % 512 {
        RingApart(k, |stored|);
      }
      data[nwrite % 512] := b;
      nwrite := Wrap(nwrite + 1);
      stored := stored + [b];
    }

    /** piperead of at most n bytes. It returns nothing for n > 0 only at end of file. */
    method Read(n: nat, killed: bool) returns (r: ReadOutcome)
      requires Valid()
      modifies this`nread, this`taken
      ensures Valid()
      ensures r.Read? ==> taken == old(taken) + r.bytes && |r.bytes| <= n
      ensures r.Read? ==> |r.bytes| == n || |taken| == |stored|
      ensures r.Read? && r.bytes == [] && n > 0 ==> |stored| == |taken| && !ends.writeopen
      ensures !r.Read? ==> taken == old(taken) && |taken| == |stored| && ends.writeopen
      ensures r.ReadFailed? <==> |old(taken)| == |stored| && ends.writeopen && killed
      ensures r.ReadBlocked? <==> |old(taken)| == |stored| && ends.writeopen && !killed
    {
      WrapTests(|taken|, |stored|);
      if nread == nwrite && ends.writeopen {
        return if killed then ReadFailed else ReadBlocked;
      }
      var bytes: seq<Byte> := [];
      var i := 0;
      while i < n
        invariant i == |bytes| <= n
        invariant Valid() && taken == old(taken) + bytes
        invariant |stored| > |old(taken)| || !ends.writeopen
      {
        WrapTests(|taken|, |stored|);
        if nread == nwrite {
          break;
        }
        var b := Take();
        bytes := bytes + [b];
        i := i + 1;
      }
      r := ReadOutcome.Read(bytes);
    }

    method Take() returns (b: Byte)
      requires Valid() && |taken| < |stored|
      modifies this`nread, this`taken
      ensures Valid() && taken == old(taken) + [b]
    {
      WrapIndex(|taken|);
      WrapNext(|taken|);
      b := data[nread % 512];
      assert b == stored[|taken|];
      nread := Wrap(nread + 1);
      taken := taken + [b];
    }

    /** pipeclose: the page goes back exactly when this was the last open end. */
    method Close(writable: bool) returns (freed: bool)
      requires Valid() && if writable then ends.writeopen else ends.readopen
      modifies this`ends
      ensures Valid()
      ensures ends == CloseEnd(old(ends), writable)
      ensures freed <==> old(ends.frees) == 0 && ends.frees == 1
    {
      if writable {
        ends := ends.(writeopen := false);
      } else {
        ends := ends.(readopen := false);
      }
      freed := !ends.readopen && !ends.writeopen;
      if freed {
        ends := ends.(frees := ends.frees + 1);
      }
    }
  }
}
