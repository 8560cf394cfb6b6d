/**
 log.c's commit on the buffer cache of bio.c, whose NBUF buffers are as many as the blocks that a
 transaction may keep dirty: when the commit finds the buffers that it needs.
 */
module CommitCache {

  import opened Params
  import opened Bio
  import opened LogDisk

  /** A buffer that bget may recycle. */
  ghost predicate Spare(bufs: seq<Buf>) {
    exists b :: 0 <= b < |bufs| && Reusable(bufs[b])
  }

  ghost predicate Cached(bufs: seq<Buf>, blk: nat) {
    exists b :: 0 <= b < |bufs| && Holds(bufs[b], DISKDEV, blk)
  }

  /** A dirty buffer holds blk. */
  ghost predicate DirtyAt(bufs: seq<Buf>, blk: nat) {
    exists b :: 0 <= b < |bufs| && Holds(bufs[b], DISKDEV, blk) && bufs[b].dirty
  }

  /** Nobody else uses the buffers of log blocks, or has locked a block of the list. */
  ghost predicate QuietAt(l: Layout, list: seq<nat>, buf: Buf) {
    buf.dev == DISKDEV ==>
      && (l.InLog(buf.blockno) ==> !buf.locked && Reusable(buf))
      && (buf.blockno in list ==> !buf.locked)
  }

  ghost predicate Quiet(l: Layout, list: seq<nat>, bufs: seq<Buf>) {
    forall b :: 0 <= b < |bufs| ==> QuietAt(l, list, bufs[b])
  }

  /** The blocks of the list from the k-th on are dirty. */
  ghost predicate DirtyFrom(list: seq<nat>, k: nat, bufs: seq<Buf>) {
    forall j :: k <= j < |list| ==> DirtyAt(bufs, list[j])
  }

  /** The buffer that bread returns for blk, from what it was before. */
  function Taken(buf: Buf, blk: nat, data: Data): Buf {
    if Holds(buf, DISKDEV, blk) then buf.(valid := true, refcnt := buf.refcnt + 1, locked := true, data := data)
    else Buf(DISKDEV, blk, true, false, 1, true, data)
  }

  /** bread of a block that nobody has locked; NBUF is the panic "no buffers". */
  method Get(c: Cache, blk: nat) returns (b: nat)
    requires c.Valid() && blk < |c.disk|
    requires forall x :: 0 <= x < NBUF && Holds(c.bufs[x], DISKDEV, blk) ==> !c.bufs[x].locked
    modifies c.bufs
    ensures c.Valid() && b <= NBUF
    ensures b == NBUF <==> !Cached(old(c.bufs[..]), blk) && !Spare(old(c.bufs[..]))
    ensures b < NBUF ==> c.bufs[..] == old(c.bufs[..])[b := Taken(old(c.bufs[..])[b], blk, c.latest[blk])]
    ensures b < NBUF ==> Holds(old(c.bufs[..])[b], DISKDEV, blk) || (!Cached(old(c.bufs[..]), blk) && Reusable(old(c.bufs[..])[b]))
    ensures forall x :: 0 <= x < NBUF && Holds(old(c.bufs[..])[x], DISKDEV, blk) ==> b == x
  {
    ghost var hit;
    b, hit := c.Bget(DISKDEV, blk);
    if b == NBUF {
      return;
    }
    c.Lock(b);
    var _ := c.Bread(b);
  }

  /** A reusable buffer has been given to blk and released. */
  ghost predicate Recycled(bufs: seq<Buf>, bufs': seq<Buf>, blk: nat, data: Data) {
    exists b :: 0 <= b < |bufs| && Reusable(bufs[b]) && bufs' == bufs[b := Buf(DISKDEV, blk, true, false, 0, false, data)]
  }

  /** The dirty buffer of blk has been written. */
  ghost predicate Cleaned(bufs: seq<Buf>, bufs': seq<Buf>, blk: nat, data: Data) {
    exists b :: 0 <= b < |bufs| && Holds(bufs[b], DISKDEV, blk) && bufs[b].dirty && bufs' == bufs[b := bufs[b].(dirty := false, data := data)]
  }

  lemma RecycledKeeps(l: Layout, list: seq<nat>, k: nat, bufs: seq<Buf>, bufs': seq<Buf>, blk: nat, data: Data)
    requires Recycled(bufs, bufs', blk, data) && Quiet(l, list, bufs) && DirtyFrom(list, k, bufs)
    ensures Quiet(l, list, bufs') && DirtyFrom(list, k, bufs') && Spare(bufs') && |bufs'| == |bufs|
  {
    var b :| 0 <= b < |bufs| && Reusable(bufs[b]) && bufs' == bufs[b := Buf(DISKDEV, blk, true, false, 0, false, data)];
    assert Reusable(bufs'[b]);
    forall j | k <= j < |list|
      ensures DirtyAt(bufs', list[j])
    {
      assert DirtyAt(bufs, list[j]);
      var x :| 0 <= x < |bufs| && Holds(bufs[x], DISKDEV, list[j]) && bufs[x].dirty;
      assert bufs'[x] == bufs[x];
    }
  }

  lemma CleanedKeeps(l: Layout, list: seq<nat>, k: nat, bufs: seq<Buf>, bufs': seq<Buf>, data: Data)
    requires k < |list| && Distinct(list) && !l.InLog(list[k])
    requires Cleaned(bufs, bufs', list[k], data) && Quiet(l, list, bufs) && DirtyFrom(list, k, bufs) && Spare(bufs)
    ensures Quiet(l, list, bufs') && DirtyFrom(list, k + 1, bufs') && Spare(bufs') && |bufs'| == |bufs|
  {
    var b :| 0 <= b < |bufs| && Holds(bufs[b], DISKDEV, list[k]) && bufs[b].dirty && bufs' == bufs[b := bufs[b].(dirty := false, data := data)];
    var s :| 0 <= s < |bufs| && Reusable(bufs[s]);
    assert Reusable(bufs'[s]);
    forall j | k + 1 <= j < |list|
      ensures DirtyAt(bufs', list[j])
    {
      assert DirtyAt(bufs, list[j]);
      var x :| 0 <= x < |bufs| && Holds(bufs[x], DISKDEV, list[j]) && bufs[x].dirty;
      assert bufs'[x] == bufs[x];
    }
  }

  /** The log region lies on the disk, and the list names other blocks, each once. */
  ghost predicate Listed(l: Layout, list: seq<nat>, size: nat) {
    && l.start + l.size <= size && |list| < l.size && Distinct(list)
    && forall k :: 0 <= k < |list| ==> list[k] < size && !l.InLog(list[k])
  }

  /** The buffers of log block blk and of the dirty block home. */
  method GetBoth(c: Cache, l: Layout, list: seq<nat>, blk: nat, home: nat) returns (b: nat, h: nat)
    requires c.Valid() && Listed(l, list, |c.disk|) && Quiet(l, list, c.bufs[..]) && DirtyAt(c.bufs[..], home)
    requires l.InLog(blk) && home in list
    modifies c.bufs
    ensures c.Valid() && b <= NBUF && (b < NBUF <==> Spare(old(c.bufs[..])))
    ensures b < NBUF ==>
              && h < NBUF && h != b && Reusable(old(c.bufs[..])[b]) && home < |c.latest|
              && Holds(old(c.bufs[..])[h], DISKDEV, home) && old(c.bufs[..])[h].dirty && !old(c.bufs[..])[h].locked
              && old(c.bufs[..])[h].valid && old(c.bufs[..])[h].data == c.latest[home]
              && c.bufs[..] == old(c.bufs[..])[b := Buf(DISKDEV, blk, true, false, 1, true, c.latest[blk])]
                                              [h := old(c.bufs[..])[h].(refcnt := old(c.bufs[..])[h].refcnt + 1, locked := true)]
  {
    ghost var was := c.bufs[..];
    h := NBUF;
    b := Get(c, blk);
    if b == NBUF {
      return;
    }
    assert QuietAt(l, list, was[b]);
    ghost var x :| 0 <= x < NBUF && Holds(was[x], DISKDEV, home) && was[x].dirty;
    assert QuietAt(l, list, was[x]) && BufAt(was, c.latest, x);
    assert c.bufs[..][x] == was[x];
    h := Get(c, home);
  }

  /** One round of write_log: home's data go to log block blk. */
  method CopyToLog(c: Cache, l: Layout, list: seq<nat>, blk: nat, home: nat) returns (ok: bool)
    requires c.Valid() && Listed(l, list, |c.disk|) && Quiet(l, list, c.bufs[..]) && DirtyAt(c.bufs[..], home)
    requires l.InLog(blk) && home in list
    modifies c, c.bufs, c.next, c.prev
    ensures c.Valid() && (ok <==> Spare(old(c.bufs[..])))
    ensures ok ==> Recycled(old(c.bufs[..]), c.bufs[..], blk, old(c.latest)[home])
    ensures ok ==> c.disk == old(c.disk)[blk := old(c.latest)[home]] && c.latest == old(c.latest)[blk := old(c.latest)[home]]
  {
    ghost var was := c.bufs[..];
    var to, from := GetBoth(c, l, list, blk, home);
    if to == NBUF {
      return false;
    }
    var data := c.bufs[from].data;
    c.Bwrite(to, data);
    c.Brelse(from);
    c.Brelse(to);
    assert c.bufs[..] == was[to := Buf(DISKDEV, blk, true, false, 0, false, data)];
    ok := true;
  }

  /** One round of install_trans: the data of log block blk go home. */
  method CopyHome(c: Cache, l: Layout, list: seq<nat>, blk: nat, home: nat) returns (ok: bool, ghost mid: seq<Buf>)
    requires c.Valid() && Listed(l, list, |c.disk|) && Quiet(l, list, c.bufs[..]) && DirtyAt(c.bufs[..], home)
    requires l.InLog(blk) && home in list
    modifies c, c.bufs, c.next, c.prev
    ensures c.Valid() && (ok <==> Spare(old(c.bufs[..])))
    ensures ok ==> Recycled(old(c.bufs[..]), mid, blk, old(c.latest)[blk]) && Cleaned(mid, c.bufs[..], home, old(c.latest)[blk])
    ensures ok ==> c.disk == old(c.disk)[home := old(c.latest)[blk]] && c.latest == old(c.latest)[home := old(c.latest)[blk]]
  {
    ghost var was := c.bufs[..];
    mid := was;
    var lbuf, dbuf := GetBoth(c, l, list, blk, home);
    if lbuf == NBUF {
      return false, mid;
    }
    var data := c.bufs[lbuf].data;
    c.Bwrite(dbuf, data);
    c.Brelse(lbuf);
    c.Brelse(dbuf);
    mid := was[lbuf := Buf(DISKDEV, blk, true, false, 0, false, data)];
    assert Holds(mid[dbuf], DISKDEV, home);
    assert c.bufs[..] == mid[dbuf := mid[dbuf].(dirty := false, data := data)];
    ok := true;
  }

  /** write_head: the header block, with whatever the in-memory header gives. */
  method PutHead(c: Cache, l: Layout, list: seq<nat>, head: Data) returns (ok: bool)
    requires c.Valid() && Listed(l, list, |c.disk|) && Quiet(l, list, c.bufs[..])
    modifies c, c.bufs, c.next, c.prev
    ensures c.Valid() && (ok <==> Spare(old(c.bufs[..])))
    ensures ok ==> Recycled(old(c.bufs[..]), c.bufs[..], l.start, head)
    ensures ok ==> c.disk == old(c.disk)[l.start := head] && c.latest == old(c.latest)[l.start := head]
  {
    ghost var was := c.bufs[..];
    var b := Get(c, l.start);
    if b == NBUF {
      return false;
    }
    assert QuietAt(l, list, was[b]);
    c.Bwrite(b, head);
    c.Brelse(b);
    assert c.bufs[..] == was[b := Buf(DISKDEV, l.start, true, false, 0, false, head)];
    ok := true;
  }

  /** Log blocks 1..k hold what the first k blocks of the list held; other blocks are as they were. */
  ghost predicate InLogSoFar(l: Layout, list: seq<nat>, k: nat, latest: seq<Data>, latest': seq<Data>) {
    && |latest'| == |latest| && Listed(l, list, |latest|) && k <= |list|
    && (forall j :: 0 <= j < k ==> latest'[l.start + 1 + j] == latest[list[j]])
    && (forall b :: 0 <= b < |latest| && !l.InLog(b) ==> latest'[b] == latest[b])
  }

  /** One more block is in the log. */
  lemma LoggedNext(l: Layout, list: seq<nat>, k: nat, latest: seq<Data>, latest1: seq<Data>, latest2: seq<Data>)
    requires InLogSoFar(l, list, k, latest, latest1) && k < |list|
    requires latest2 == latest1[l.start + 1 + k := latest1[list[k]]]
    ensures InLogSoFar(l, list, k + 1, latest, latest2) && latest1[list[k]] == latest[list[k]] && l.InLog(l.start + 1 + k)
  {
  }

  /** write_log */
  method WriteLog(c: Cache, l: Layout, list: seq<nat>) returns (ok: bool)
    requires c.Valid() && Listed(l, list, |c.disk|) && Quiet(l, list, c.bufs[..]) && DirtyFrom(list, 0, c.bufs[..]) && list != []
    modifies c, c.bufs, c.next, c.prev
    ensures c.Valid() && (ok <==> Spare(old(c.bufs[..])))
    ensures ok ==> Quiet(l, list, c.bufs[..]) && DirtyFrom(list, 0, c.bufs[..]) && Spare(c.bufs[..])
    ensures ok ==> InLogSoFar(l, list, |list|, old(c.latest), c.latest)
    ensures ok ==> |c.disk| == |old(c.disk)| && forall b :: 0 <= b < |c.disk| && !l.InLog(b) ==> c.disk[b] == old(c.disk)[b]
  {
    var tail := 0;
    while tail < |list|
      invariant 0 <= tail <= |list| && c.Valid() && |c.disk| == |old(c.disk)|
      invariant Quiet(l, list, c.bufs[..]) && DirtyFrom(list, 0, c.bufs[..]) && (Spare(c.bufs[..]) <==> Spare(old(c.bufs[..])))
      invariant tail > 0 ==> Spare(c.bufs[..])
      invariant InLogSoFar(l, list, tail, old(c.latest), c.latest)
      invariant forall b :: 0 <= b < |c.disk| && !l.InLog(b) ==> c.disk[b] == old(c.disk)[b]
    {
      ghost var was, latest := c.bufs[..], c.latest;
      assert DirtyAt(was, list[tail]);
      LoggedNext(l, list, tail, old(c.latest), latest, latest[l.start + 1 + tail := latest[list[tail]]]);
      ok := CopyToLog(c, l, list, l.start + 1 + tail, list[tail]);
      if !ok {
        return;
      }
      RecycledKeeps(l, list, 0, was, c.bufs[..], l.start + 1 + tail, old(c.latest)[list[tail]]);
      tail := tail + 1;
    }
    ok := true;
  }

  /** The first k blocks of the list are on disk as they were in the cache. */
  ghost predicate Installed(list: seq<nat>, k: nat, latest: seq<Data>, disk: seq<Data>, disk': seq<Data>) {
    && k <= |list| && |latest| == |disk| == |disk'|
    && forall b :: 0 <= b < |disk| ==> disk'[b] == if b in list[..k] then latest[b] else disk[b]
  }

  /** One round of install_trans. */
  method InstallNext(c: Cache, l: Layout, list: seq<nat>, tail: nat, ghost disk: seq<Data>)
    requires c.Valid() && Listed(l, list, |c.disk|) && tail < |list| && c.latest[l.start + 1 + tail] == c.latest[list[tail]]
    requires Quiet(l, list, c.bufs[..]) && DirtyFrom(list, tail, c.bufs[..]) && Spare(c.bufs[..])
    requires Installed(list, tail, c.latest, disk, c.disk)
    modifies c, c.bufs, c.next, c.prev
    ensures c.Valid() && c.latest == old(c.latest)
    ensures Quiet(l, list, c.bufs[..]) && DirtyFrom(list, tail + 1, c.bufs[..]) && Spare(c.bufs[..])
    ensures Installed(list, tail + 1, c.latest, disk, c.disk)
  {
    ghost var was := c.bufs[..];
    assert DirtyAt(was, list[tail]);
    var ok;
    ghost var mid;
    ok, mid := CopyHome(c, l, list, l.start + 1 + tail, list[tail]);
    RecycledKeeps(l, list, tail, was, mid, l.start + 1 + tail, c.latest[list[tail]]);
    CleanedKeeps(l, list, tail, mid, c.bufs[..], c.latest[list[tail]]);
    assert list[..tail + 1] == list[..tail] + [list[tail]];
  }

  /** install_trans */
  method InstallTrans(c: Cache, l: Layout, list: seq<nat>) returns (ok: bool)
    requires c.Valid() && Listed(l, list, |c.disk|) && Quiet(l, list, c.bufs[..]) && DirtyFrom(list, 0, c.bufs[..]) && Spare(c.bufs[..])
    requires forall k :: 0 <= k < |list| ==> c.latest[l.start + 1 + k] == c.latest[list[k]]
    modifies c, c.bufs, c.next, c.prev
    ensures c.Valid() && ok && Quiet(l, list, c.bufs[..]) && Spare(c.bufs[..]) && c.latest == old(c.latest)
    ensures Installed(list, |list|, old(c.latest), old(c.disk), c.disk)
  {
    var tail := 0;
    while tail < |list|
      invariant 0 <= tail <= |list| && c.Valid() && |c.disk| == |old(c.disk)| && c.latest == old(c.latest)
      invariant Quiet(l, list, c.bufs[..]) && DirtyFrom(list, tail, c.bufs[..]) && Spare(c.bufs[..])
      invariant Installed(list, tail, old(c.latest), old(c.disk), c.disk)
    {
      InstallNext(c, l, list, tail, old(c.disk));
      tail := tail + 1;
    }
    ok := true;
  }

  /**
   commit: it finds the buffers it needs if and only if there is nothing to commit, or some buffer
   is neither dirty nor in use when it starts.  Then the disk has the list's blocks as they were
   in the cache, and no other block outside the log has changed.
   */
  method Commit(c: Cache, l: Layout, list: seq<nat>, head: Data, empty: Data) returns (ok: bool)
    requires c.Valid() && Listed(l, list, |c.disk|) && Quiet(l, list, c.bufs[..]) && DirtyFrom(list, 0, c.bufs[..])
    modifies c, c.bufs, c.next, c.prev
    ensures c.Valid()
    ensures ok <==> list == [] || Spare(old(c.bufs[..]))
    ensures ok ==> |c.disk| == |old(c.disk)| && |c.latest| == |old(c.latest)|
    ensures ok ==> forall b :: 0 <= b < |c.disk| && !l.InLog(b) ==> c.latest[b] == old(c.latest)[b]
    ensures ok ==> forall b :: 0 <= b < |c.disk| && !l.InLog(b) ==> c.disk[b] == if b in list then old(c.latest)[b] else old(c.disk)[b]
  {
    if list == [] {
      return true;
    }
    ok := WriteLog(c, l, list);
    if !ok {
      return;
    }
    ghost var was := c.bufs[..];
    ok := PutHead(c, l, list, head);
    RecycledKeeps(l, list, 0, was, c.bufs[..], l.start, head);
    ok := InstallTrans(c, l, list);
    assert list[..|list|] == list;
    ok := PutHead(c, l, list, empty);
  }

  // ---- How many blocks a transaction may have ----

  /** The dirty buffers of the first k blocks of the list. */
  ghost function DirtyBufs(bufs: seq<Buf>, list: seq<nat>, k: nat): set<nat>
    requires k <= |list|
  {
    set b: nat | b < |bufs| && bufs[b].dirty && bufs[b].blockno in list[..k]
  }

  /** Block k of the list adds its one buffer. */
  lemma DirtyNext(bufs: seq<Buf>, list: seq<nat>, k: nat) returns (x: nat)
    requires Unique(bufs) && Distinct(list) && k < |list| && DirtyAt(bufs, list[k])
    requires forall b :: 0 <= b < |bufs| && bufs[b].dirty ==> bufs[b].dev == DISKDEV
    ensures x !in DirtyBufs(bufs, list, k) && DirtyBufs(bufs, list, k + 1) == DirtyBufs(bufs, list, k) + {x}
  {
    x :| 0 <= x < |bufs| && Holds(bufs[x], DISKDEV, list[k]) && bufs[x].dirty;
    assert list[..k + 1] == list[..k] + [list[k]];
    forall b: nat | b < |bufs| && bufs[b].dirty && b != x
      ensures bufs[b].blockno != list[k]
    {
      assert bufs[b].dev == DISKDEV;
    }
    assert list[k] !in list[..k];
  }

  lemma {:induction false} DirtyCount(bufs: seq<Buf>, list: seq<nat>, k: nat)
    requires Unique(bufs) && Distinct(list) && k <= |list| && DirtyFrom(list, 0, bufs)
    requires forall b :: 0 <= b < |bufs| && bufs[b].dirty ==> bufs[b].dev == DISKDEV
    ensures |DirtyBufs(bufs, list, k)| == k
  {
    if k == 0 {
      assert DirtyBufs(bufs, list, k) == {};
    } else {
      DirtyCount(bufs, list, k - 1);
      var x := DirtyNext(bufs, list, k - 1);
    }
  }

  ghost function Below(n: nat): (s: set<nat>)
    ensures |s| == n && forall b: nat :: b in s <==> b < n
  {
    if n == 0 then {} else Below(n - 1) + {n - 1}
  }

  lemma SpareCount(bufs: seq<Buf>, list: seq<nat>)
    requires Unique(bufs) && Distinct(list) && DirtyFrom(list, 0, bufs)
    requires forall b :: 0 <= b < |bufs| ==> bufs[b].refcnt == 0 && (bufs[b].dirty ==> bufs[b].dev == DISKDEV && bufs[b].blockno in list)
    ensures Spare(bufs) <==> |list| < |bufs|
  {
    DirtyCount(bufs, list, |list|);
    var all, dirty := Below(|bufs|), DirtyBufs(bufs, list, |list|);
    assert list[..|list|] == list;
    assert dirty <= all;
    if Spare(bufs) {
      var b: nat :| b < |bufs| && Reusable(bufs[b]);
      assert dirty <= all - {b};
      SubsetSize(dirty, all - {b});
    } else {
      assert all == dirty;
    }
  }

  /**
   While no buffer is in use, exactly a transaction of fewer than NBUF blocks leaves the buffer that
   a commit needs.  LOGSIZE is NBUF, so a log of LOGSIZE blocks, header included, is small enough,
   and a larger one is not.
   */
  lemma RoomForCommit(bufs: seq<Buf>, list: seq<nat>)
    requires |bufs| == NBUF && Unique(bufs) && Distinct(list) && DirtyFrom(list, 0, bufs)
    requires forall b :: 0 <= b < NBUF ==> bufs[b].refcnt == 0 && (bufs[b].dirty ==> bufs[b].dev == DISKDEV && bufs[b].blockno in list)
    ensures Spare(bufs) <==> |list| < LOGSIZE
  {
    SpareCount(bufs, list);
  }
}
