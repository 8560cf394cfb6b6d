/**
 The buffer cache of bio.c over the in-memory disk of memide.c: NBUF buffers on a doubly
 linked ring in order of use, kept in place in arrays of links.  A method is one critical
 section of bcache.lock, or the work of a process that holds the buffer's sleep lock.
 */
module Bio {

  import opened Params

  const HEAD: nat := 30 // the list head's index among the links
  const DISKDEV: nat := 1

  type Data = seq<int>

  datatype Buf = Buf(dev: nat, blockno: nat, valid: bool, dirty: bool, refcnt: nat, locked: bool, data: Data)

  // ---- The ring ----

  /** The ring from the head round to the head. */
  function Cycle(ring: seq<nat>): seq<nat> {
    [HEAD] + ring + [HEAD]
  }

  ghost predicate LinkAt(next: seq<nat>, prev: seq<nat>, cyc: seq<nat>, p: nat)
    requires |next| == |prev| == NBUF + 1 && p + 1 < |cyc|
  {
    && cyc[p] <= NBUF && cyc[p + 1] <= NBUF
    && next[cyc[p]] == cyc[p + 1] && prev[cyc[p + 1]] == cyc[p]
  }

  ghost predicate Linked(next: seq<nat>, prev: seq<nat>, cyc: seq<nat>) {
    && |next| == |prev| == NBUF + 1
    && forall p {:trigger LinkAt(next, prev, cyc, p)} :: 0 <= p && p + 1 < |cyc| ==> LinkAt(next, prev, cyc, p)
  }

  ghost predicate Members(ring: seq<nat>) {
    && (forall i, j :: 0 <= i < j < |ring| ==> ring[i] != ring[j])
    && (forall i :: 0 <= i < |ring| ==> ring[i] < NBUF)
  }

  /** b->next->prev = b->prev; b->prev->next = b->next */
  lemma Unlink(next: seq<nat>, prev: seq<nat>, ring: seq<nat>, i: nat)
    requires Linked(next, prev, Cycle(ring)) && Members(ring) && i < |ring|
    ensures var b := ring[i];
            && b < NBUF && next[b] <= NBUF && prev[b] <= NBUF
            && Linked(next[prev[b] := next[b]], prev[next[b] := prev[b]], Cycle(Without(ring, i)))
  {
    var cyc, cyc' := Cycle(ring), Cycle(Without(ring, i));
    var b := ring[i];
    assert LinkAt(next, prev, cyc, i) && LinkAt(next, prev, cyc, i + 1);
    var next', prev' := next[prev[b] := next[b]], prev[next[b] := prev[b]];
    forall p | 0 <= p && p + 1 < |cyc'|
      ensures LinkAt(next', prev', cyc', p)
    {
      assert cyc'[p] == if p <= i then cyc[p] else cyc[p + 1];
      assert cyc'[p + 1] == if p + 1 <= i then cyc[p + 1] else cyc[p + 2];
      assert LinkAt(next, prev, cyc, p) && LinkAt(next, prev, cyc, p + 1);
    }
  }

  /** b->next = head.next; b->prev = &head; head.next->prev = b; head.next = b */
  lemma InsertFront(next: seq<nat>, prev: seq<nat>, ring: seq<nat>, b: nat)
    requires Linked(next, prev, Cycle(ring)) && Members(ring) && b < NBUF && b !in ring
    ensures next[HEAD] <= NBUF
    ensures Linked(next[b := next[HEAD]][HEAD := b], prev[b := HEAD][next[HEAD] := b], Cycle([b] + ring))
    ensures Members([b] + ring)
  {
    var cyc, cyc' := Cycle(ring), Cycle([b] + ring);
    assert LinkAt(next, prev, cyc, 0);
    var next', prev' := next[b := next[HEAD]][HEAD := b], prev[b := HEAD][next[HEAD] := b];
    forall p | 0 <= p && p + 1 < |cyc'|
      ensures LinkAt(next', prev', cyc', p)
    {
      if p >= 1 {
        assert cyc'[p + 1] == cyc[p];
        if p >= 2 {
          assert cyc'[p] == cyc[p - 1];
          assert LinkAt(next, prev, cyc, p - 1);
        }
      }
    }
  }

  // ---- The buffers ----

  /** Block blk is held by a buffer that log.c has modified and not yet committed. */
  ghost predicate Pinned(bufs: seq<Buf>, blk: nat) {
    exists b :: 0 <= b < |bufs| && bufs[b].dirty && bufs[b].blockno == blk
  }

  ghost predicate BufAt(bufs: seq<Buf>, latest: seq<Data>, b: nat)
    requires b < |bufs|
  {
    && (bufs[b].valid ==> bufs[b].dev == DISKDEV && bufs[b].blockno < |latest| && bufs[b].data == latest[bufs[b].blockno])
    && (bufs[b].dirty ==> bufs[b].valid)
    && (bufs[b].locked ==> bufs[b].refcnt > 0)
  }

  /** No block of a device has two buffers (unused buffers start as block 0 of device 0). */
  ghost predicate Unique(bufs: seq<Buf>) {
    forall b, c :: 0 <= b < c < |bufs| && bufs[b].dev != 0 ==>
      bufs[b].dev != bufs[c].dev || bufs[b].blockno != bufs[c].blockno
  }

  /** Valid buffers hold the latest contents; so does the disk, except for pinned blocks. */
  ghost predicate Coherent(bufs: seq<Buf>, disk: seq<Data>, latest: seq<Data>) {
    && |disk| == |latest|
    && (forall b {:trigger BufAt(bufs, latest, b)} :: 0 <= b < |bufs| ==> BufAt(bufs, latest, b))
    && (forall blk {:trigger Pinned(bufs, blk)} :: 0 <= blk < |disk| && !Pinned(bufs, blk) ==> disk[blk] == latest[blk])
  }

  /** A change of buffer b that neither adds nor drops a dirty block. */
  lemma CoherentChange(bufs: seq<Buf>, disk: seq<Data>, latest: seq<Data>, b: nat, x: Buf)
    requires Coherent(bufs, disk, latest) && b < |bufs|
    requires x.dirty == bufs[b].dirty && (x.dirty ==> x.blockno == bufs[b].blockno)
    requires BufAt(bufs[b := x], latest, b)
    ensures Coherent(bufs[b := x], disk, latest)
  {
    var bufs' := bufs[b := x];
    forall c | 0 <= c < |bufs'|
      ensures BufAt(bufs', latest, c)
    {
      assert BufAt(bufs, latest, c);
    }
    forall blk | 0 <= blk < |disk|
      ensures !Pinned(bufs', blk) ==> disk[blk] == latest[blk]
    {
      if Pinned(bufs, blk) {
        var c :| 0 <= c < |bufs| && bufs[c].dirty && bufs[c].blockno == blk;
        assert bufs'[c].dirty && bufs'[c].blockno == blk;
      }
    }
  }

  predicate Holds(buf: Buf, dev: nat, blockno: nat) {
    buf.dev == dev && buf.blockno == blockno
  }

  predicate Reusable(buf: Buf) {
    buf.refcnt == 0 && !buf.dirty
  }

  class Cache {
    const next: array<nat>
    const prev: array<nat>
    const bufs: array<Buf>
    var disk: seq<Data>
    ghost var ring: seq<nat>
    ghost var latest: seq<Data> // what each block holds, wherever it is

    ghost predicate RingValid()
      reads this, next, prev
    {
      && next.Length == prev.Length == NBUF + 1 && next != prev
      && Linked(next[..], prev[..], Cycle(ring)) && Members(ring)
      && |ring| == NBUF && (forall b :: 0 <= b < NBUF ==> b in ring)
    }

    ghost predicate Valid()
      reads this, next, prev, bufs
    {
      RingValid() && bufs.Length == NBUF && Unique(bufs[..]) && Coherent(bufs[..], disk, latest)
    }

    /** binit, on a disk with the given contents. */
    constructor (disk: seq<Data>)
      ensures Valid() && this.disk == disk && latest == disk
      ensures forall b :: 0 <= b < NBUF ==> Reusable(bufs[b]) && !bufs[b].valid
      ensures fresh(next) && fresh(prev) && fresh(bufs)
    {
      next := new nat[NBUF + 1](_ => HEAD);
      prev := new nat[NBUF + 1](_ => HEAD);
      bufs := new Buf[NBUF](_ => Buf(0, 0, false, false, 0, false, []));
      this.disk := disk;
      latest := disk;
      ring := [];
      new;
      assert LinkAt(next[..], prev[..], Cycle(ring), 0);
      var b := 0;
      while b < NBUF
        invariant 0 <= b <= NBUF && |ring| == b && this.disk == disk && latest == disk
        invariant Linked(next[..], prev[..], Cycle(ring)) && Members(ring)
        invariant forall c :: 0 <= c < b ==> c in ring
        invariant forall c :: c in ring ==> c < b
        invariant forall c :: 0 <= c < NBUF ==> bufs[c] == Buf(0, 0, false, false, 0, false, [])
      {
        ghost var n0: seq<nat>, p0: seq<nat> := next[..], prev[..];
        InsertFront(n0, p0, ring, b);
        next[b] := next[HEAD];
        prev[b] := HEAD;
        prev[next[HEAD]] := b;
        next[HEAD] := b;
        assert next[..] == n0[b := n0[HEAD]][HEAD := b] && prev[..] == p0[b := HEAD][n0[HEAD] := b];
        ring := [b] + ring;
        b := b + 1;
      }
      forall c | 0 <= c < NBUF
        ensures BufAt(bufs[..], latest, c)
      {
      }
    }

    /** bget's first loop: the buffer that holds the block, if any. */
    method FindCached(dev: nat, blockno: nat) returns (b: nat)
      requires Valid()
      ensures b <= NBUF
      ensures b < NBUF ==> Holds(bufs[b], dev, blockno)
      ensures b == NBUF ==> forall c :: 0 <= c < NBUF ==> !Holds(bufs[c], dev, blockno)
    {
      ghost var cyc := Cycle(ring);
      assert LinkAt(next[..], prev[..], cyc, 0);
      b := next[HEAD];
      ghost var p := 1;
      while b != HEAD
        invariant 1 <= p < |cyc| && b == cyc[p]
        invariant forall i :: 0 <= i < p - 1 ==> !Holds(bufs[ring[i]], dev, blockno)
        decreases |cyc| - p
      {
        assert b == ring[p - 1];
        if Holds(bufs[b], dev, blockno) {
          return;
        }
        assert LinkAt(next[..], prev[..], cyc, p);
        b := next[b];
        p := p + 1;
      }
      assert p == NBUF + 1;
      forall c | 0 <= c < NBUF
        ensures !Holds(bufs[c], dev, blockno)
      {
        assert c in ring;
      }
    }

    /** bget's second loop: from the least recently used end, a buffer that may be recycled. */
    method FindReusable() returns (b: nat, ghost i: nat)
      requires Valid()
      ensures b <= NBUF
      ensures b < NBUF ==> i < NBUF && ring[i] == b && Reusable(bufs[b]) && forall j :: i < j < NBUF ==> !Reusable(bufs[ring[j]])
      ensures b == NBUF ==> forall c :: 0 <= c < NBUF ==> !Reusable(bufs[c])
    {
      ghost var cyc := Cycle(ring);
      assert LinkAt(next[..], prev[..], cyc, NBUF);
      b := prev[HEAD];
      i := NBUF;
      while b != HEAD
        invariant 0 <= i <= NBUF && b == cyc[i]
        invariant forall j :: i <= j < NBUF ==> !Reusable(bufs[ring[j]])
        decreases i
      {
        assert b == ring[i - 1];
        if Reusable(bufs[b]) {
          i := i - 1;
          return;
        }
        assert LinkAt(next[..], prev[..], cyc, i - 1);
        b := prev[b];
        i := i - 1;
      }
      assert i == 0;
      forall c | 0 <= c < NBUF
        ensures !Reusable(bufs[c])
      {
        assert c in ring;
      }
    }

    /**
     bget, up to the release of bcache.lock: take a reference to the block's buffer, recycling
     the least recently used free one if the block has none.  NBUF is the panic "no buffers".
     */
    method Bget(dev: nat, blockno: nat) returns (b: nat, ghost hit: bool)
      requires Valid() && dev != 0
      modifies bufs
      ensures Valid() && b <= NBUF
      ensures hit <==> exists c :: 0 <= c < NBUF && Holds(old(bufs[..])[c], dev, blockno)
      ensures b == NBUF <==> !hit && forall c :: 0 <= c < NBUF ==> !Reusable(old(bufs[..])[c])
      ensures b < NBUF ==> Holds(bufs[b], dev, blockno)
      ensures b < NBUF && hit ==> bufs[..] == old(bufs[..])[b := old(bufs[..])[b].(refcnt := old(bufs[b]).refcnt + 1)]
      ensures b < NBUF && !hit ==>
                && Reusable(old(bufs[..])[b])
                && bufs[..] == old(bufs[..])[b := Buf(dev, blockno, false, false, 1, false, old(bufs[b]).data)]
                && exists i :: 0 <= i < NBUF && ring[i] == b && forall j :: i < j < NBUF ==> !Reusable(old(bufs[..])[ring[j]])
      ensures b == NBUF ==> bufs[..] == old(bufs[..])
    {
      ghost var was := bufs[..];
      b := FindCached(dev, blockno);
      hit := b != NBUF;
      if b != NBUF {
        var x := bufs[b].(refcnt := bufs[b].refcnt + 1);
        assert BufAt(was, latest, b);
        CoherentChange(was, disk, latest, b, x);
        bufs[b] := x;
        assert bufs[..] == was[b := x];
        return;
      }
      ghost var i;
      b, i := FindReusable();
      if b != NBUF {
        assert BufAt(was, latest, b);
        var x := Buf(dev, blockno, false, false, 1, false, bufs[b].data);
        CoherentChange(was, disk, latest, b, x);
        bufs[b] := x;
        assert bufs[..] == was[b := x];
      }
    }

    /** acquiresleep(&b->lock), by a process that holds a reference and finds the lock free. */
    method Lock(b: nat)
      requires Valid() && b < NBUF && bufs[b].refcnt > 0 && !bufs[b].locked
      modifies bufs
      ensures Valid() && bufs[..] == old(bufs[..])[b := old(bufs[b]).(locked := true)]
    {
      ghost var was := bufs[..];
      assert BufAt(was, latest, b);
      CoherentChange(was, disk, latest, b, was[b].(locked := true));
      bufs[b] := bufs[b].(locked := true);
      assert bufs[..] == was[b := was[b].(locked := true)];
    }

    /** bread, once the buffer is locked: its data are the latest contents of the block. */
    method Bread(b: nat) returns (ok: bool)
      requires Valid() && b < NBUF && bufs[b].locked
      modifies bufs
      ensures Valid()
      ensures ok <==> old(bufs[b]).valid || (old(bufs[b]).dev == DISKDEV && old(bufs[b]).blockno < |disk|)
      ensures ok ==> bufs[b].blockno < |latest| && bufs[b].data == latest[bufs[b].blockno]
      ensures ok ==> old(bufs[b]).blockno < |latest| && bufs[..] == old(bufs[..])[b := old(bufs[b]).(valid := true, data := latest[old(bufs[b]).blockno])]
      ensures !ok ==> bufs[..] == old(bufs[..])
    {
      ghost var was := bufs[..];
      assert BufAt(was, latest, b);
      if bufs[b].valid {
        assert was == was[b := was[b].(valid := true, data := latest[was[b].blockno])];
        return true;
      }
      if bufs[b].dev != DISKDEV || bufs[b].blockno >= |disk| {
        return false;
      }
      NotPinned(was, latest, b);
      var x := bufs[b].(valid := true, data := disk[bufs[b].blockno]);
      CoherentChange(was, disk, latest, b, x);
      bufs[b] := x;
      assert bufs[..] == was[b := x];
      return true;
    }

    /** A holder changes the data and log_write marks the buffer B_DIRTY: pinned until it is written. */
    method Pin(b: nat, data: Data)
      requires Valid() && b < NBUF && bufs[b].locked && bufs[b].valid
      modifies bufs, this`latest
      ensures Valid()
      ensures bufs[..] == old(bufs[..])[b := old(bufs[b]).(dirty := true, data := data)]
      ensures old(bufs[b]).blockno < |old(latest)| && latest == old(latest)[old(bufs[b]).blockno := data]
    {
      ghost var was := bufs[..];
      assert BufAt(was, latest, b);
      var x := bufs[b].(dirty := true, data := data);
      Stored(was, disk, latest, b, data, x, disk);
      bufs[b] := x;
      assert bufs[..] == was[b := x];
      latest := latest[was[b].blockno := data];
    }

    /** bwrite: the data go to disk and the buffer is clean. */
    method Bwrite(b: nat, data: Data)
      requires Valid() && b < NBUF && bufs[b].locked && bufs[b].valid
      modifies bufs, this`latest, this`disk
      ensures Valid()
      ensures bufs[..] == old(bufs[..])[b := old(bufs[b]).(dirty := false, data := data)]
      ensures old(bufs[b]).blockno < |old(latest)| && latest == old(latest)[old(bufs[b]).blockno := data]
      ensures disk == old(disk)[old(bufs[b]).blockno := data]
    {
      ghost var was := bufs[..];
      assert BufAt(was, latest, b);
      var blk := bufs[b].blockno;
      var x := bufs[b].(dirty := false, data := data);
      Stored(was, disk, latest, b, data, x, disk[blk := data]);
      bufs[b] := x;
      assert bufs[..] == was[b := x];
      disk := disk[blk := data];
      latest := latest[blk := data];
    }

    /** releasesleep(&b->lock) */
    method Unlock(b: nat)
      requires Valid() && b < NBUF && bufs[b].locked
      modifies bufs
      ensures Valid() && bufs[..] == old(bufs[..])[b := old(bufs[b]).(locked := false)]
    {
      ghost var was := bufs[..];
      assert BufAt(was, latest, b);
      CoherentChange(was, disk, latest, b, was[b].(locked := false));
      bufs[b] := bufs[b].(locked := false);
      assert bufs[..] == was[b := was[b].(locked := false)];
    }

    /** The critical section of brelse: drop a reference; at the last one the buffer becomes most recently used. */
    method Drop(b: nat)
      requires Valid() && b < NBUF && bufs[b].refcnt > 0 && (bufs[b].locked ==> bufs[b].refcnt > 1)
      modifies bufs, next, prev, this`ring
      ensures Valid() && bufs[..] == old(bufs[..])[b := old(bufs[b]).(refcnt := old(bufs[b]).refcnt - 1)]
      ensures bufs[b].refcnt > 0 ==> ring == old(ring)
      ensures bufs[b].refcnt == 0 ==> exists i :: 0 <= i < NBUF && old(ring)[i] == b && ring == [b] + Without(old(ring), i)
    {
      ghost var was := bufs[..];
      assert BufAt(was, latest, b);
      var x := bufs[b].(refcnt := bufs[b].refcnt - 1);
      CoherentChange(was, disk, latest, b, x);
      bufs[b] := x;
      assert bufs[..] == was[b := x];
      if bufs[b].refcnt == 0 {
        MoveToFront(b);
      }
    }

    /** brelse, when no other process comes in between its two steps. */
    method Brelse(b: nat)
      requires Valid() && b < NBUF && bufs[b].locked
      modifies bufs, next, prev, this`ring
      ensures Valid() && old(bufs[b]).refcnt > 0
      ensures bufs[..] == old(bufs[..])[b := old(bufs[b]).(locked := false, refcnt := old(bufs[b]).refcnt - 1)]
      ensures bufs[b].refcnt > 0 ==> ring == old(ring)
      ensures bufs[b].refcnt == 0 ==> exists i :: 0 <= i < NBUF && old(ring)[i] == b && ring == [b] + Without(old(ring), i)
    {
      assert BufAt(bufs[..], latest, b);
      Unlock(b);
      Drop(b);
    }

    method MoveToFront(b: nat)
      requires RingValid() && b < NBUF
      modifies next, prev, this`ring
      ensures RingValid()
      ensures exists i :: 0 <= i < NBUF && old(ring)[i] == b && ring == [b] + Without(old(ring), i)
    {
      assert b in ring;
      ghost var i :| 0 <= i < NBUF && ring[i] == b;
      ghost var n0: seq<nat>, p0: seq<nat> := next[..], prev[..];
      Unlink(n0, p0, ring, i);
      prev[next[b]] := prev[b];
      next[prev[b]] := next[b];
      assert next[..] == n0[p0[b] := n0[b]] && prev[..] == p0[n0[b] := p0[b]];
      ghost var rest := Without(ring, i);
      WithoutMembers(ring, i);
      ghost var n1: seq<nat>, p1: seq<nat> := next[..], prev[..];
      InsertFront(n1, p1, rest, b);
      next[b] := next[HEAD];
      prev[b] := HEAD;
      prev[next[HEAD]] := b;
      next[HEAD] := b;
      assert next[..] == n1[b := n1[HEAD]][HEAD := b] && prev[..] == p1[b := HEAD][n1[HEAD] := b];
      ring := [b] + rest;
    }
  }

  /** The only buffer of a block is not dirty: no buffer pins the block. */
  lemma NotPinned(bufs: seq<Buf>, latest: seq<Data>, b: nat)
    requires Unique(bufs) && b < |bufs| && bufs[b].dev == DISKDEV && !bufs[b].dirty
    requires forall c {:trigger BufAt(bufs, latest, c)} :: 0 <= c < |bufs| ==> BufAt(bufs, latest, c)
    ensures !Pinned(bufs, bufs[b].blockno)
  {
    forall c | 0 <= c < |bufs|
      ensures !(bufs[c].dirty && bufs[c].blockno == bufs[b].blockno)
    {
      assert BufAt(bufs, latest, c);
    }
  }

  lemma WithoutMembers(ring: seq<nat>, i: nat)
    requires Members(ring) && i < |ring| && forall b :: 0 <= b < NBUF ==> b in ring
    ensures Members(Without(ring, i)) && ring[i] !in Without(ring, i)
    ensures forall b :: 0 <= b < NBUF ==> b in [ring[i]] + Without(ring, i)
  {
    var r := Without(ring, i);
    assert forall j :: 0 <= j < |r| ==> r[j] == ring[if j < i then j else j + 1];
    forall b | 0 <= b < NBUF
      ensures b in [ring[i]] + r
    {
      assert b in ring;
      var j :| 0 <= j < |ring| && ring[j] == b;
      if j < i {
        assert r[j] == b;
      } else if j > i {
        assert r[j - 1] == b;
      }
    }
  }

  /** Storing data in buffer b, which stays valid, and making the disk agree unless b stays dirty. */
  lemma Stored(bufs: seq<Buf>, disk: seq<Data>, latest: seq<Data>, b: nat, data: Data, x: Buf, disk': seq<Data>)
    requires Unique(bufs) && Coherent(bufs, disk, latest) && b < |bufs| && bufs[b].valid && bufs[b].blockno < |latest|
    requires x == bufs[b].(dirty := x.dirty, data := data) && (x.locked ==> x.refcnt > 0) && bufs[b].dev == DISKDEV
    requires disk' == if x.dirty then disk else disk[bufs[b].blockno := data]
    ensures Unique(bufs[b := x]) && Coherent(bufs[b := x], disk', latest[bufs[b].blockno := data])
  {
    var bufs', latest' := bufs[b := x], latest[bufs[b].blockno := data];
    forall c | 0 <= c < |bufs'|
      ensures BufAt(bufs', latest', c)
    {
      assert BufAt(bufs, latest, c);
    }
    forall blk | 0 <= blk < |disk'|
      ensures !Pinned(bufs', blk) ==> disk'[blk] == latest'[blk]
    {
      if blk != bufs[b].blockno && Pinned(bufs, blk) {
        var c :| 0 <= c < |bufs| && bufs[c].dirty && bufs[c].blockno == blk;
        assert bufs'[c].dirty && bufs'[c].blockno == blk;
      } else if blk == bufs[b].blockno && x.dirty {
        assert bufs'[b].dirty && bufs'[b].blockno == blk;
      }
    }
  }
}
