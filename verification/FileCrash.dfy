/**
 file.c over log.c: what a crash leaves of a filewrite.  The home blocks of the file system are
 those that the log protects, and every operation of filewrite logs each block it changes.
 */
module FileCrash {

  import opened Params
  import D = LogDisk
  import R = LogRun
  import S = FsState
  import F = Fs

  /** Home block b holds the same in two states of the file system. */
  ghost predicate SameAt(l: S.Layout, a: S.Image, c: S.Image, b: nat) {
    && |a.disk| == |c.disk| && |a.bitmap| == |c.bitmap| && |a.nodes| == |c.nodes|
    && (b < |a.disk| ==> a.disk[b] == c.disk[b])
    && (forall x :: 0 <= x < |a.bitmap| && l.BBlock(x) == b ==> a.bitmap[x] == c.bitmap[x])
    && (forall i :: 0 <= i < |a.nodes| && l.IBlock(i) == b ==> a.nodes[i] == c.nodes[i])
  }

  /** A block on disk depends on no more than its own part of the state, however that is laid out in words. */
  ghost predicate Local(l: S.Layout, encode: S.Image -> D.Disk) {
    && (forall a: S.Image :: |encode(a)| == |a.disk|)
    && (forall a: S.Image, c: S.Image, b: nat {:trigger SameAt(l, a, c, b), encode(a), encode(c)} ::
          SameAt(l, a, c, b) && b < |encode(a)| == |encode(c)| ==> encode(a)[b] == encode(c)[b])
  }

  /** The writes of one operation: the blocks it logged, the last time with what they held at its end. */
  ghost predicate Carries(ws: seq<R.Write>, logged: seq<nat>, final: D.Disk) {
    && |ws| == |logged| && (forall k :: 0 <= k < |ws| ==> ws[k].b == logged[k])
    && (forall k :: 0 <= k < |ws| && ws[k].b < |final| && (forall j :: k < j < |ws| ==> ws[j].b != ws[k].b) ==>
          ws[k].data == final[ws[k].b])
  }

  lemma {:induction false} ReplayNone(d: D.Disk, ws: seq<R.Write>, b: nat)
    requires b < |d| && forall k :: 0 <= k < |ws| ==> ws[k].b != b
    ensures R.Replay(d, ws)[b] == d[b]
    decreases |ws|
  {
    if ws != [] {
      ReplayNone(d, ws[..|ws| - 1], b);
      assert ws[|ws| - 1].b != b;
    }
  }

  /** The last write to a block decides. */
  lemma {:induction false} ReplayLast(d: D.Disk, ws: seq<R.Write>, b: nat, k: nat)
    requires b < |d| && k < |ws| && ws[k].b == b && forall j :: k < j < |ws| ==> ws[j].b != b
    ensures R.Replay(d, ws)[b] == ws[k].data
    decreases |ws|
  {
    if k < |ws| - 1 {
      ReplayLast(d, ws[..|ws| - 1], b, k);
      assert ws[|ws| - 1].b != b;
    }
  }

  lemma {:induction false} LastWrite(ws: seq<R.Write>, b: nat, k: nat) returns (m: nat)
    requires k < |ws| && ws[k].b == b
    ensures k <= m < |ws| && ws[m].b == b && forall j :: m < j < |ws| ==> ws[j].b != b
    decreases |ws| - k
  {
    if j :| k < j < |ws| && ws[j].b == b {
      m := LastWrite(ws, b, j);
    } else {
      m := k;
    }
  }

  lemma NotLogged(l: S.Layout, a: S.Image, c: S.Image, logged: seq<nat>, b: nat, ws: seq<R.Write>)
    requires S.Covered(l, a, c, logged) && |ws| == |logged| && (forall k :: 0 <= k < |ws| ==> ws[k].b == logged[k])
    requires forall k :: 0 <= k < |ws| ==> ws[k].b != b
    ensures SameAt(l, a, c, b)
  {
    assert b !in logged;
    if b < |a.disk| {
      assert S.BlockLogged(a, c, logged, b);
    }
    forall x | 0 <= x < |a.bitmap| && l.BBlock(x) == b
      ensures a.bitmap[x] == c.bitmap[x]
    {
      assert S.BitLogged(l, a, c, logged, x);
    }
    forall i | 0 <= i < |a.nodes| && l.IBlock(i) == b
      ensures a.nodes[i] == c.nodes[i]
    {
      assert S.NodeLogged(l, a, c, logged, i);
    }
  }

  lemma BlockCarried(fl: S.Layout, encode: S.Image -> D.Disk, a: S.Image, c: S.Image, ws: seq<R.Write>, logged: seq<nat>, d: D.Disk, b: nat)
    requires Local(fl, encode) && S.Covered(fl, a, c, logged) && Carries(ws, logged, encode(c)) && |d| == |encode(a)|
    requires b < |d| && d[b] == encode(a)[b]
    ensures |encode(c)| == |encode(a)| && R.Replay(d, ws)[b] == encode(c)[b]
  {
    if k :| 0 <= k < |ws| && ws[k].b == b {
      var m := LastWrite(ws, b, k);
      ReplayLast(d, ws, b, m);
    } else {
      ReplayNone(d, ws, b);
      NotLogged(fl, a, c, logged, b, ws);
    }
  }

  /** Replaying what an operation logged takes the home blocks from its first state to its last. */
  lemma OperationCarried(l: D.Layout, fl: S.Layout, encode: S.Image -> D.Disk, a: S.Image, c: S.Image, ws: seq<R.Write>, logged: seq<nat>, d: D.Disk)
    requires Local(fl, encode) && S.Covered(fl, a, c, logged) && Carries(ws, logged, encode(c)) && D.SameHome(l, d, encode(a))
    ensures D.SameHome(l, R.Replay(d, ws), encode(c))
  {
    forall b | 0 <= b < |d| && !l.InLog(b)
      ensures R.Replay(d, ws)[b] == encode(c)[b]
    {
      BlockCarried(fl, encode, a, c, ws, logged, d, b);
    }
  }

  /** So do the operations one after the other. */
  lemma {:induction false} OperationsCarried(l: D.Layout, fl: S.Layout, encode: S.Image -> D.Disk, snaps: seq<S.Image>,
                                             chunks: seq<seq<R.Write>>, ops: seq<seq<nat>>, d: D.Disk, m: nat)
    requires Local(fl, encode) && |snaps| == |ops| + 1 && m <= |chunks| <= |ops| && D.SameHome(l, d, encode(snaps[0]))
    requires forall k {:trigger ops[k]} :: 0 <= k < |ops| ==> S.Covered(fl, snaps[k], snaps[k + 1], ops[k])
    requires forall k {:trigger chunks[k]} :: 0 <= k < |chunks| ==> Carries(chunks[k], ops[k], encode(snaps[k + 1]))
    ensures D.SameHome(l, R.Replay(d, R.Flatten(chunks[..m])), encode(snaps[m]))
    decreases m
  {
    if m > 0 {
      OperationsCarried(l, fl, encode, snaps, chunks, ops, d, m - 1);
      assert chunks[..m][..m - 1] == chunks[..m - 1];
      R.ReplayConcat(d, R.Flatten(chunks[..m - 1]), chunks[m - 1]);
      OperationCarried(l, fl, encode, snaps[m - 1], snaps[m], chunks[m - 1], ops[m - 1], R.Replay(d, R.Flatten(chunks[..m - 1])));
    }
  }

  /** None of the writes of an operation that is still running is committed. */
  lemma RunningNotCommitted(l: D.Layout, d: D.Disk, run: seq<R.Event>, before: seq<seq<R.Write>>, part: seq<R.Write>, id: nat)
    requires D.ValidDisk(l, d) && R.IsRun(l, R.Boot(d), run) && part != [] && R.WrittenBy(part, id)
    requires var s := R.After(l, R.Boot(d), run);
             && s.mem.Up? && (exists i :: 0 <= i < |s.mem.active| && s.mem.active[i].id == id)
             && s.first <= |s.groups|
    ensures R.Flatten(R.After(l, R.Boot(d), run).groups[R.After(l, R.Boot(d), run).first..]) != R.Flatten(before + [part])
  {
    var s := R.After(l, R.Boot(d), run);
    var a, b := s.groups[..s.first], s.groups[s.first..];
    assert a + b == s.groups;
    R.FlattenConcat(a, b);
    if R.Flatten(b) == R.Flatten(before + [part]) {
      assert (before + [part])[..|before|] == before;
      R.WritesOfConcat(R.Flatten(a), R.Flatten(b), id);
      R.WritesOfConcat(R.Flatten(before), part, id);
      R.WritesOfAll(part, id);
      R.OperationsAreAtomic(l, d, run, id);
    }
  }

  /**
   Whenever the power fails during a filewrite that has the log for itself, recovery yields the home
   blocks of a state in which the file has the first m chunks of the data, and no more, for some m;
   no other file has changed.  `chunks` are the writes of the operations that have ended, `part`
   those of one that is still running; `snaps` and `ops` are what `Fs.FileSystem.FileWrite` gives.
   */
  lemma CrashKeepsWholeChunks(l: D.Layout, fl: S.Layout, encode: S.Image -> D.Disk, d: D.Disk, run: seq<R.Event>,
                              chunks: seq<seq<R.Write>>, ids: seq<nat>, part: seq<R.Write>, id: nat,
                              snaps: seq<S.Image>, ops: seq<seq<nat>>, i: nat, off: nat, src: seq<S.byte>) returns (m: nat)
    requires D.ValidDisk(l, d) && R.IsRun(l, R.Boot(d), run) && Local(fl, encode)
    requires |snaps| > 0 && F.Chunks(fl, snaps[0], snaps, ops, i, off, src) && |chunks| <= |ops|
    requires forall k {:trigger chunks[k]} :: 0 <= k < |chunks| ==> Carries(chunks[k], ops[k], encode(snaps[k + 1]))
    requires var s := R.After(l, R.Boot(d), run);
             && R.InTurn(chunks + [part], ids + [id]) && s.start <= |s.issued| && s.issued[s.start..] == R.Flatten(chunks + [part])
             && (forall k :: 0 <= k < |ids + [id]| ==> (ids + [id])[k] >= s.boot)
             && (part != [] ==> s.mem.Up? && exists i :: 0 <= i < |s.mem.active| && s.mem.active[i].id == id)
             && s.first <= |s.groups| && D.SameHome(l, R.Replay(D.Recovered(l, d), R.Flatten(s.groups[..s.first])), encode(snaps[0]))
    ensures m <= |chunks|
    ensures var s := R.After(l, R.Boot(d), run);
            D.ValidDisk(l, s.disk) && D.SameHome(l, D.Recovered(l, s.disk), encode(snaps[m]))
    ensures i < |snaps[0].nodes| == |snaps[m].nodes| && F.OthersSame(snaps[0].disk, snaps[0].nodes, snaps[m].disk, snaps[m].nodes, i)
    ensures off <= snaps[0].nodes[i].size ==>
              S.Content(snaps[m].disk, snaps[m].nodes[i])
              == F.Overwrite(S.Content(snaps[0].disk, snaps[0].nodes[i]), off, src[..if 1536 * m < |src| then 1536 * m else |src|])
  {
    var s := R.After(l, R.Boot(d), run);
    m := R.CrashKeepsWholeOperations(l, d, run, chunks + [part], ids + [id]);
    var all := chunks + [part];
    if m == |all| {
      assert all[..m] == all;
      if part != [] {
        RunningNotCommitted(l, d, run, chunks, part, id);
      }
      assert all[..|chunks|] == chunks;
      assert R.Flatten(chunks) + [] == R.Flatten(chunks);
      m := |chunks|;
    }
    assert all[..m] == chunks[..m];
    var up := R.Replay(D.Recovered(l, d), R.Flatten(s.groups[..s.first]));
    OperationsCarried(l, fl, encode, snaps, chunks, ops, up, m);
    assert F.ChunkAt(snaps[0], snaps[m], i, off, src, m);
    F.WritingContent(snaps[0].disk, snaps[0].nodes, snaps[m].disk, snaps[m].nodes, i, off, src, if 1536 * m < |src| then 1536 * m else |src|);
  }
}
