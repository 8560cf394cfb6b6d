/**
 The processes that use the buffer cache of Bio: every reference to a buffer has a holder, and
 while a holder waits for the buffer's lock, or has it, the buffer stays with the holder's block
 whatever the others do.  So bread returns the latest contents of the block that was asked for.
 */
module BufferUsers {
  import opened Params
  import opened Bio

  /** A holder waits for the sleep lock, has it, or has given it up and is about to drop its reference. */
  datatype Stage = Waiting | Locking | Leaving

  /** A reference taken by bget(dev, blockno), to buffer b. */
  datatype Hold = Hold(b: nat, dev: nat, blockno: nat, stage: Stage)

  type Holds = map<nat, Hold>

  function Refs(held: Holds, b: nat): set<nat> {
    set h | h in held && held[h].b == b
  }

  /** Buffer b has as many references as holders, and is locked exactly if one of them has the lock. */
  ghost predicate CountedAt(bufs: seq<Buf>, held: Holds, b: nat)
    requires b < |bufs|
  {
    && bufs[b].refcnt == |Refs(held, b)|
    && (bufs[b].locked <==> exists h :: h in held && held[h].b == b && held[h].stage == Locking)
  }

  /** The buffer of holder h is that of its block. */
  ghost predicate StaysAt(bufs: seq<Buf>, held: Holds, h: nat)
    requires h in held
  {
    held[h].b < |bufs| && Bio.Holds(bufs[held[h].b], held[h].dev, held[h].blockno) && held[h].dev != 0
  }

  ghost predicate OneLocks(held: Holds, h: nat, k: nat) {
    h in held && k in held && held[h].b == held[k].b && held[h].stage == held[k].stage == Locking ==> h == k
  }

  ghost predicate Held(bufs: seq<Buf>, held: Holds) {
    && (forall b {:trigger CountedAt(bufs, held, b)} :: 0 <= b < |bufs| ==> CountedAt(bufs, held, b))
    && (forall h {:trigger StaysAt(bufs, held, h)} :: h in held ==> StaysAt(bufs, held, h))
    && (forall h, k {:trigger OneLocks(held, h, k)} :: OneLocks(held, h, k))
  }

  /** Holder k keeps its buffer and, if it has the lock, the buffer's data. */
  ghost predicate Keeps(bufs: seq<Buf>, held: Holds, bufs': seq<Buf>, held': Holds, k: nat) {
    k in held ==>
      && k in held' && held'[k] == held[k] && held[k].b < |bufs| && held[k].b < |bufs'|
      && (held[k].stage == Locking ==>
            bufs'[held[k].b].data == bufs[held[k].b].data && bufs'[held[k].b].valid == bufs[held[k].b].valid)
  }

  /** A step of holder h: all others keep theirs. */
  ghost predicate Others(bufs: seq<Buf>, held: Holds, bufs': seq<Buf>, held': Holds, h: nat) {
    forall k {:trigger Keeps(bufs, held, bufs', held', k)} :: k != h ==> Keeps(bufs, held, bufs', held', k)
  }

  datatype State = State(bufs: seq<Buf>, held: Holds)

  /** Over any run, a holder that takes no step keeps its buffer and the data it has locked. */
  lemma {:induction false} Undisturbed(states: seq<State>, actors: seq<nat>, k: nat)
    requires |states| == |actors| + 1 && k !in actors && Held(states[0].bufs, states[0].held)
    requires forall i :: 0 <= i < |actors| ==>
               Others(states[i].bufs, states[i].held, states[i + 1].bufs, states[i + 1].held, actors[i])
    ensures Keeps(states[0].bufs, states[0].held, states[|actors|].bufs, states[|actors|].held, k)
    decreases |actors|
  {
    if |actors| == 0 {
      assert k in states[0].held ==> StaysAt(states[0].bufs, states[0].held, k);
    } else {
      var n := |actors| - 1;
      Undisturbed(states[..n + 1], actors[..n], k);
      assert Others(states[n].bufs, states[n].held, states[n + 1].bufs, states[n + 1].held, actors[n]) && actors[n] in actors;
      assert Keeps(states[n].bufs, states[n].held, states[n + 1].bufs, states[n + 1].held, k);
    }
  }

  lemma Counted(held: Holds, h: nat, x: Hold, b: nat)
    requires h !in held
    ensures Refs(held[h := x], b) == if x.b == b then Refs(held, b) + {h} else Refs(held, b)
    ensures |Refs(held[h := x], b)| == |Refs(held, b)| + if x.b == b then 1 else 0
  {
    assert Refs(held[h := x], b) == if x.b == b then Refs(held, b) + {h} else Refs(held, b);
  }

  lemma Uncounted(held: Holds, h: nat, b: nat)
    requires h in held
    ensures |Refs(held - {h}, b)| == |Refs(held, b)| - if held[h].b == b then 1 else 0
  {
    assert Refs(held - {h}, b) == if held[h].b == b then Refs(held, b) - {h} else Refs(held, b);
  }

  lemma Recounted(held: Holds, h: nat, x: Hold, b: nat)
    requires h in held && x.b == held[h].b
    ensures Refs(held[h := x], b) == Refs(held, b)
  {
  }

  /** bget: a new holder, of a cached buffer or of one that nobody holds. */
  lemma Gotten(bufs: seq<Buf>, held: Holds, bufs': seq<Buf>, h: nat, b: nat, dev: nat, blockno: nat)
    requires Held(bufs, held) && h !in held && b < |bufs| && dev != 0
    requires |bufs'| == |bufs| && bufs' == bufs[b := bufs'[b]] && Bio.Holds(bufs'[b], dev, blockno)
    requires bufs'[b].refcnt == bufs[b].refcnt + 1 && bufs'[b].locked == bufs[b].locked
    requires bufs[b].refcnt > 0 ==> Bio.Holds(bufs[b], dev, blockno) && bufs'[b].data == bufs[b].data && bufs'[b].valid == bufs[b].valid
    ensures Held(bufs', held[h := Hold(b, dev, blockno, Waiting)])
    ensures Others(bufs, held, bufs', held[h := Hold(b, dev, blockno, Waiting)], h)
  {
    var held' := held[h := Hold(b, dev, blockno, Waiting)];
    forall c | 0 <= c < |bufs'|
      ensures CountedAt(bufs', held', c)
    {
      assert CountedAt(bufs, held, c);
      Counted(held, h, held'[h], c);
      if exists k :: k in held && held[k].b == c && held[k].stage == Locking {
        var k :| k in held && held[k].b == c && held[k].stage == Locking;
        assert k in held' && held'[k].b == c && held'[k].stage == Locking;
      }
    }
    forall k | k in held'
      ensures StaysAt(bufs', held', k)
      ensures k != h ==> held[k].b < |bufs| && (held[k].b == b ==> bufs[b].refcnt > 0)
    {
      if k != h {
        assert StaysAt(bufs, held, k) && CountedAt(bufs, held, held[k].b);
        assert k in Refs(held, held[k].b);
      }
    }
    forall k, j
      ensures OneLocks(held', k, j)
    {
      assert OneLocks(held, k, j);
    }
  }

  /** Holder h of buffer b takes the lock, changes the data under it, or gives it up. */
  ghost predicate Acts(bufs: seq<Buf>, held: Holds, h: nat, x: Buf, stage: Stage) {
    && h in held && held[h].b < |bufs|
    && var was := bufs[held[h].b];
       && x.dev == was.dev && x.blockno == was.blockno && x.refcnt == was.refcnt && x.locked == (stage == Locking)
       && (if held[h].stage == Locking then stage != Waiting else stage == Locking && !was.locked)
  }

  lemma Acted(bufs: seq<Buf>, held: Holds, h: nat, x: Buf, stage: Stage)
    requires Held(bufs, held) && Acts(bufs, held, h, x, stage)
    ensures Held(bufs[held[h].b := x], held[h := held[h].(stage := stage)])
    ensures Others(bufs, held, bufs[held[h].b := x], held[h := held[h].(stage := stage)], h)
  {
    var b := held[h].b;
    var bufs', held' := bufs[b := x], held[h := held[h].(stage := stage)];
    assert CountedAt(bufs, held, b);
    forall k | k in held && k != h && held[k].stage == Locking
      ensures held[k].b != b
    {
      assert OneLocks(held, h, k);
    }
    forall c | 0 <= c < |bufs'|
      ensures CountedAt(bufs', held', c)
    {
      assert CountedAt(bufs, held, c);
      Recounted(held, h, held'[h], c);
      LockKept(held, held', h, c);
    }
    forall k | k in held'
      ensures StaysAt(bufs', held', k)
    {
      assert StaysAt(bufs, held, k);
    }
    forall k, j
      ensures OneLocks(held', k, j)
    {
      assert OneLocks(held, k, j);
    }
  }

  /** Whether some holder has the lock of c, after a change of holder h. */
  lemma LockKept(held: Holds, held': Holds, h: nat, c: nat)
    requires h in held && h in held' && held' == held[h := held'[h]] && held'[h].b == held[h].b
    requires forall k :: k in held && k != h && held[k].stage == Locking ==> held[k].b != held[h].b
    ensures (exists k :: k in held' && held'[k].b == c && held'[k].stage == Locking) <==>
            if c == held[h].b then held'[h].stage == Locking else exists k :: k in held && held[k].b == c && held[k].stage == Locking
  {
    if exists k :: k in held && held[k].b == c && held[k].stage == Locking {
      var k :| k in held && held[k].b == c && held[k].stage == Locking;
      assert k in held' && (k != h ==> held'[k].b == c && held'[k].stage == Locking);
    }
    if exists k :: k in held' && held'[k].b == c && held'[k].stage == Locking {
      var k :| k in held' && held'[k].b == c && held'[k].stage == Locking;
      assert k in held && (k != h ==> held[k].b == c && held[k].stage == Locking);
    }
  }

  /** The last step of brelse. */
  lemma Left(bufs: seq<Buf>, held: Holds, h: nat)
    requires Held(bufs, held) && h in held && held[h].stage == Leaving && held[h].b < |bufs|
    ensures bufs[held[h].b].refcnt > 0 && (bufs[held[h].b].locked ==> bufs[held[h].b].refcnt > 1)
    ensures var x := bufs[held[h].b].(refcnt := bufs[held[h].b].refcnt - 1);
            Held(bufs[held[h].b := x], held - {h}) && Others(bufs, held, bufs[held[h].b := x], held - {h}, h)
  {
    var b := held[h].b;
    assert CountedAt(bufs, held, b);
    assert h in Refs(held, b);
    if bufs[b].locked {
      var k :| k in held && held[k].b == b && held[k].stage == Locking;
      assert {h, k} <= Refs(held, b);
      Pair(Refs(held, b), h, k);
    }
    var bufs', held' := bufs[b := bufs[b].(refcnt := bufs[b].refcnt - 1)], held - {h};
    forall c | 0 <= c < |bufs'|
      ensures CountedAt(bufs', held', c)
    {
      assert CountedAt(bufs, held, c);
      Uncounted(held, h, c);
      if exists k :: k in held && held[k].b == c && held[k].stage == Locking {
        var k :| k in held && held[k].b == c && held[k].stage == Locking;
        assert k in held' && held'[k].b == c && held'[k].stage == Locking;
      }
    }
    forall k | k in held
      ensures k in held' ==> StaysAt(bufs', held', k)
      ensures held[k].b < |bufs|
    {
      assert StaysAt(bufs, held, k);
    }
    forall k, j
      ensures OneLocks(held', k, j)
    {
      assert OneLocks(held, k, j);
    }
  }

  lemma Pair(s: set<nat>, h: nat, k: nat)
    requires h in s && k in s && h != k
    ensures |s| > 1
  {
    assert k in s - {h};
    assert |s - {h}| == |s| - 1;
  }

  /** Two holders of one block have one buffer, so at most one of them has the block locked. */
  lemma OneWriter(bufs: seq<Buf>, held: Holds, h: nat, k: nat)
    requires Unique(bufs) && Held(bufs, held) && h in held && k in held
    requires held[h].dev == held[k].dev && held[h].blockno == held[k].blockno
    ensures held[h].b == held[k].b
    ensures held[h].stage == held[k].stage == Locking ==> h == k
  {
    assert StaysAt(bufs, held, h) && StaysAt(bufs, held, k) && OneLocks(held, h, k);
  }

  class Users {
    const cache: Cache
    ghost var held: Holds

    ghost predicate Valid()
      reads this, cache, cache.next, cache.prev, cache.bufs
    {
      cache.Valid() && Held(cache.bufs[..], held)
    }

    constructor (cache: Cache)
      requires cache.Valid() && forall b :: 0 <= b < NBUF ==> cache.bufs[b].refcnt == 0
      ensures Valid() && this.cache == cache && held == map[]
    {
      this.cache := cache;
      held := map[];
      new;
      forall b | 0 <= b < NBUF
        ensures CountedAt(cache.bufs[..], held, b)
      {
        assert Refs(held, b) == {};
        assert BufAt(cache.bufs[..], cache.latest, b);
      }
    }

    /** bget up to the sleep lock, for holder h; NBUF is the panic "no buffers". */
    method Get(ghost h: nat, dev: nat, blockno: nat) returns (b: nat)
      requires Valid() && h !in held && dev != 0
      modifies this, cache.bufs
      ensures Valid() && b <= NBUF
      ensures held == if b < NBUF then old(held)[h := Hold(b, dev, blockno, Waiting)] else old(held)
      ensures Others(old(cache.bufs[..]), old(held), cache.bufs[..], held, h)
    {
      ghost var bufs := cache.bufs[..];
      ghost var hit;
      b, hit := cache.Bget(dev, blockno);
      if b < NBUF {
        if !hit {
          assert BufAt(bufs, cache.latest, b);
        }
        Gotten(bufs, held, cache.bufs[..], h, b, dev, blockno);
        held := held[h := Hold(b, dev, blockno, Waiting)];
      } else {
        StayAll(bufs, held, h);
      }
    }

    /** acquiresleep, when holder h finds the lock free. */
    method Lock(b: nat, ghost h: nat)
      requires Valid() && h in held && held[h].b == b && held[h].stage == Waiting && b < NBUF && !cache.bufs[b].locked
      modifies this, cache.bufs
      ensures Valid() && held == old(held)[h := old(held)[h].(stage := Locking)]
      ensures Others(old(cache.bufs[..]), old(held), cache.bufs[..], held, h)
    {
      ghost var bufs := cache.bufs[..];
      assert CountedAt(bufs, held, b) && h in Refs(held, b);
      Acted(bufs, held, h, bufs[b].(locked := true), Locking);
      cache.Lock(b);
      held := held[h := held[h].(stage := Locking)];
    }

    /** The rest of bread: the buffer has the latest contents of the block that h asked for. */
    method Read(b: nat, ghost h: nat) returns (ok: bool)
      requires Valid() && h in held && held[h].b == b && held[h].stage == Locking && b < NBUF
      modifies cache.bufs
      ensures Valid() && Others(old(cache.bufs[..]), held, cache.bufs[..], held, h)
      ensures held[h].dev == DISKDEV && held[h].blockno < |cache.disk| ==> ok
      ensures ok ==> cache.bufs[b].valid && held[h].blockno < |cache.latest| && cache.bufs[b].data == cache.latest[held[h].blockno]
    {
      ghost var bufs := cache.bufs[..];
      assert CountedAt(bufs, held, b) && StaysAt(bufs, held, h);
      ok := cache.Bread(b);
      assert held[h := held[h].(stage := Locking)] == held;
      Acted(bufs, held, h, cache.bufs[b], Locking);
      assert cache.bufs[..] == bufs[b := cache.bufs[b]];
    }

    /** log_write's pin (`now` false) or bwrite (`now` true) by the holder of the lock. */
    method Store(b: nat, ghost h: nat, data: Data, now: bool)
      requires Valid() && h in held && held[h].b == b && held[h].stage == Locking && b < NBUF && cache.bufs[b].valid
      modifies cache`latest, cache`disk, cache.bufs
      ensures Valid() && Others(old(cache.bufs[..]), held, cache.bufs[..], held, h)
      ensures held[h].blockno < |old(cache.latest)| && cache.latest == old(cache.latest)[held[h].blockno := data]
      ensures cache.bufs[b].data == data && cache.bufs[b].valid
    {
      ghost var bufs := cache.bufs[..];
      assert CountedAt(bufs, held, b) && StaysAt(bufs, held, h);
      if now {
        cache.Bwrite(b, data);
      } else {
        cache.Pin(b, data);
      }
      assert held[h := held[h].(stage := Locking)] == held;
      Acted(bufs, held, h, cache.bufs[b], Locking);
      assert cache.bufs[..] == bufs[b := cache.bufs[b]];
    }

    /** brelse's releasesleep. */
    method Unlock(b: nat, ghost h: nat)
      requires Valid() && h in held && held[h].b == b && held[h].stage == Locking && b < NBUF
      modifies this, cache.bufs
      ensures Valid() && held == old(held)[h := old(held)[h].(stage := Leaving)]
      ensures Others(old(cache.bufs[..]), old(held), cache.bufs[..], held, h)
    {
      ghost var bufs := cache.bufs[..];
      assert CountedAt(bufs, held, b);
      Acted(bufs, held, h, bufs[b].(locked := false), Leaving);
      cache.Unlock(b);
      held := held[h := held[h].(stage := Leaving)];
    }

    /** brelse's critical section: another holder may have the lock by then. */
    method Drop(b: nat, ghost h: nat)
      requires Valid() && h in held && held[h].b == b && held[h].stage == Leaving && b < NBUF
      modifies this, cache`ring, cache.bufs, cache.next, cache.prev
      ensures Valid() && held == old(held) - {h}
      ensures Others(old(cache.bufs[..]), old(held), cache.bufs[..], held, h)
    {
      ghost var bufs := cache.bufs[..];
      Left(bufs, held, h);
      cache.Drop(b);
      held := held - {h};
    }

    /** A holder that has read its block and kept the lock still has the latest contents. */
    lemma StillLatest(h: nat)
      requires Valid() && h in held && held[h].b < NBUF && cache.bufs[held[h].b].valid
      ensures held[h].blockno < |cache.latest| && cache.bufs[held[h].b].data == cache.latest[held[h].blockno]
    {
      assert StaysAt(cache.bufs[..], held, h) && BufAt(cache.bufs[..], cache.latest, held[h].b);
    }
  }

  lemma StayAll(bufs: seq<Buf>, held: Holds, h: nat)
    requires Held(bufs, held)
    ensures Others(bufs, held, bufs, held, h)
  {
    forall k | k in held
      ensures held[k].b < |bufs|
    {
      assert StaysAt(bufs, held, k);
    }
  }
}
