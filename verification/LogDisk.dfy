/**
 The on-disk redo log of log.c: the block writes that commit and recovery issue,
 in order, and what a disk that lost power after any number of them recovers to.
 One block write is atomic (memide.c).
 */
module LogDisk {

  import opened Params

  const WORDS: nat := 128 // BSIZE / sizeof(uint)

  /** A disk block, seen as its 128 words; the log header is {n, block[LOGSIZE]}. */
  type Block = b: seq<nat> | |b| == WORDS witness seq(WORDS, _ => 0)
  type Disk = seq<Block>

  datatype BlockWrite = BlockWrite(b: nat, data: Block)

  /** The superblock's logstart and nlog: a header block followed by size - 1 log blocks. */
  datatype Layout = Layout(start: nat, size: nat) {
    predicate InLog(b: nat) {
      start <= b < start + size
    }

    predicate Fits(d: Disk) {
      size > 0 && start + size <= |d|
    }
  }

  predicate Distinct(s: seq<nat>) {
    forall i, j :: 0 <= i < j < |s| ==> s[i] != s[j]
  }

  // ---- Disk writes ----

  function Put(d: Disk, w: BlockWrite): (r: Disk)
    ensures |r| == |d|
  {
    if w.b < |d| then d[w.b := w.data] else d
  }

  function Apply(d: Disk, ws: seq<BlockWrite>): (r: Disk)
    ensures |r| == |d|
  {
    if ws == [] then d else Put(Apply(d, ws[..|ws| - 1]), ws[|ws| - 1])
  }

  lemma ApplyConcat(d: Disk, a: seq<BlockWrite>, b: seq<BlockWrite>)
    ensures Apply(d, a + b) == Apply(Apply(d, a), b)
  {
    if b == [] {
      assert a + b == a;
    } else {
      ApplyConcat(d, a, b[..|b| - 1]);
      assert (a + b)[..|a + b| - 1] == a + b[..|b| - 1];
    }
  }

  /** Blocks outside the log region hold the same data. */
  ghost predicate SameHome(l: Layout, d: Disk, e: Disk) {
    |d| == |e| && forall x :: 0 <= x < |d| && !l.InLog(x) ==> d[x] == e[x]
  }

  // ---- The header block ----

  predicate ValidHead(b: Block) {
    b[0] <= LOGSIZE
  }

  function HeadList(b: Block): (r: seq<nat>)
    requires ValidHead(b)
  {
    b[1..1 + b[0]]
  }

  /** write_head: words past the n-th entry keep their old contents. */
  function HeadWith(b: Block, list: seq<nat>): (r: Block)
    requires |list| <= LOGSIZE
    ensures ValidHead(r) && HeadList(r) == list
  {
    [|list|] + list + b[1 + |list|..]
  }

  /** A list of home blocks that fits the log. */
  ghost predicate ValidList(l: Layout, d: Disk, list: seq<nat>) {
    && |list| <= LOGSIZE
    && |list| < l.size
    && Distinct(list)
    && (forall i :: 0 <= i < |list| ==> list[i] < |d| && !l.InLog(list[i]))
  }

  ghost predicate ValidDisk(l: Layout, d: Disk) {
    && l.Fits(d)
    && ValidHead(d[l.start])
    && ValidList(l, d, HeadList(d[l.start]))
  }

  /** Log block i. */
  function Slot(l: Layout, d: Disk, i: nat): Block
    requires l.Fits(d) && i + 1 < l.size
  {
    d[l.start + 1 + i]
  }

  // ---- Recovery ----

  /** install_trans: log block i goes to home block list[i]. */
  function Installs(l: Layout, d: Disk, list: seq<nat>): (ws: seq<BlockWrite>)
    requires l.Fits(d) && |list| < l.size
  {
    seq(|list|, i requires 0 <= i < |list| => BlockWrite(list[i], Slot(l, d, i)))
  }

  function HeadWrite(l: Layout, d: Disk, list: seq<nat>): BlockWrite
    requires l.Fits(d) && |list| <= LOGSIZE
  {
    BlockWrite(l.start, HeadWith(d[l.start], list))
  }

  /** recover_from_log: the writes it issues on disk `d`. */
  function RecoverWrites(l: Layout, d: Disk): (ws: seq<BlockWrite>)
    requires ValidDisk(l, d)
  {
    Installs(l, d, HeadList(d[l.start])) + [HeadWrite(l, d, [])]
  }

  function Recovered(l: Layout, d: Disk): (r: Disk)
    requires ValidDisk(l, d)
  {
    Apply(d, RecoverWrites(l, d))
  }

  /** A header list, its log blocks, and home blocks already partly installed: the installed result. */
  lemma {:induction false} InstallsAt(l: Layout, d: Disk, list: seq<nat>, k: nat)
    requires l.Fits(d) && ValidList(l, d, list) && k <= |list|
    ensures var e := Apply(d, Installs(l, d, list)[..k]);
            && (forall i :: 0 <= i < k ==> e[list[i]] == Slot(l, d, i))
            && (forall x :: 0 <= x < |d| && x !in list[..k] ==> e[x] == d[x])
  {
    var ws := Installs(l, d, list);
    if k > 0 {
      InstallsAt(l, d, list, k - 1);
      var e := Apply(d, ws[..k - 1]);
      assert ws[..k][..k - 1] == ws[..k - 1];
      assert Apply(d, ws[..k]) == e[list[k - 1] := Slot(l, d, k - 1)];
      forall x | 0 <= x < |d| && x !in list[..k]
        ensures e[x] == d[x] && x != list[k - 1]
      {
        assert list[..k][k - 1] == list[k - 1];
        assert x !in list[..k - 1];
      }
    }
  }

  lemma InstallsKeepLog(l: Layout, d: Disk, list: seq<nat>, k: nat)
    requires l.Fits(d) && ValidList(l, d, list) && k <= |list|
    ensures var e := Apply(d, Installs(l, d, list)[..k]);
            && (forall x :: 0 <= x < |d| && (l.InLog(x) || x !in list) ==> e[x] == d[x])
            && (forall i :: 0 <= i < |list| ==> Slot(l, e, i) == Slot(l, d, i))
  {
    InstallsAt(l, d, list, k);
    assert forall x :: x in list[..k] ==> x in list;
  }

  /** What recovery does to every block. */
  lemma RecoveredAt(l: Layout, d: Disk)
    requires ValidDisk(l, d)
    ensures var list := HeadList(d[l.start]);
            var r := Recovered(l, d);
            && |r| == |d|
            && ValidDisk(l, r)
            && HeadList(r[l.start]) == []
            && (forall i :: 0 <= i < |list| ==> r[list[i]] == Slot(l, d, i))
            && (forall x :: 0 <= x < |d| && !l.InLog(x) && x !in list ==> r[x] == d[x])
  {
    var list := HeadList(d[l.start]);
    var ws := Installs(l, d, list);
    InstallsAt(l, d, list, |list|);
    assert ws[..|list|] == ws && list[..|list|] == list;
    ApplyConcat(d, ws, [HeadWrite(l, d, [])]);
    assert Apply(Apply(d, ws), [HeadWrite(l, d, [])]) == Put(Apply(d, ws), HeadWrite(l, d, []));
  }

  /** Two disks with the same header list and log blocks, and equal elsewhere, recover alike. */
  lemma RecoverAlike(l: Layout, d: Disk, e: Disk)
    requires ValidDisk(l, d) && ValidDisk(l, e) && |d| == |e|
    requires HeadList(d[l.start]) == HeadList(e[l.start])
    requires forall i :: 0 <= i < |HeadList(d[l.start])| ==> Slot(l, d, i) == Slot(l, e, i)
    requires forall x :: 0 <= x < |d| && !l.InLog(x) && x !in HeadList(d[l.start]) ==> d[x] == e[x]
    ensures SameHome(l, Recovered(l, d), Recovered(l, e))
  {
    RecoveredAt(l, d);
    RecoveredAt(l, e);
    var list := HeadList(d[l.start]);
    forall x | 0 <= x < |d| && !l.InLog(x)
      ensures Recovered(l, d)[x] == Recovered(l, e)[x]
    {
      if x in list {
        var i :| 0 <= i < |list| && list[i] == x;
      }
    }
  }

  /**
   Losing power inside recovery, after any number of its writes, changes nothing:
   the disk stays valid and recovers to the same home blocks.
   */
  lemma RecoveryCrash(l: Layout, d: Disk, k: nat)
    requires ValidDisk(l, d) && k <= |RecoverWrites(l, d)|
    ensures var e := Apply(d, RecoverWrites(l, d)[..k]);
            ValidDisk(l, e) && SameHome(l, Recovered(l, e), Recovered(l, d))
  {
    var ws := RecoverWrites(l, d);
    var list := HeadList(d[l.start]);
    if k <= |list| {
      assert ws[..k] == Installs(l, d, list)[..k];
      InstallsKeepLog(l, d, list, k);
      RecoverAlike(l, Apply(d, ws[..k]), d);
    } else {
      assert ws[..k] == ws;
      RecoveredAt(l, d);
      var r := Recovered(l, d);
      RecoveredAt(l, r);
    }
  }

  /** Recovery is idempotent, and a recovered disk has an empty log. */
  lemma RecoveryIdempotent(l: Layout, d: Disk)
    requires ValidDisk(l, d)
    ensures ValidDisk(l, Recovered(l, d)) && HeadList(Recovered(l, d)[l.start]) == []
    ensures SameHome(l, Recovered(l, Recovered(l, d)), Recovered(l, d))
  {
    RecoveredAt(l, d);
    RecoveredAt(l, Recovered(l, d));
  }

  // ---- Commit ----

  /** write_log: logged block i, as the cache has it, goes to log block i. */
  function Copies(l: Layout, view: Disk, list: seq<nat>): (ws: seq<BlockWrite>)
    requires forall i :: 0 <= i < |list| ==> list[i] < |view|
  {
    seq(|list|, i requires 0 <= i < |list| => BlockWrite(l.start + 1 + i, view[list[i]]))
  }

  /** The writes of commit() before and including the header write. */
  function CommitPrefix(l: Layout, d: Disk, view: Disk, list: seq<nat>): (ws: seq<BlockWrite>)
    requires l.Fits(d) && ValidList(l, d, list) && |view| == |d|
  {
    Copies(l, view, list) + [HeadWrite(l, d, list)]
  }

  /** All the writes of commit(): copy to the log, write the header, install, clear the header. */
  function CommitWrites(l: Layout, d: Disk, view: Disk, list: seq<nat>): (ws: seq<BlockWrite>)
    requires l.Fits(d) && ValidList(l, d, list) && |view| == |d|
  {
    if list == [] then []
    else
      CommitPrefix(l, d, view, list)
      + RecoverTail(l, d, view, list)
  }

  /** After the header write commit() does just what recovery would do. */
  function RecoverTail(l: Layout, d: Disk, view: Disk, list: seq<nat>): (ws: seq<BlockWrite>)
    requires l.Fits(d) && ValidList(l, d, list) && |view| == |d|
  {
    var e := Apply(d, CommitPrefix(l, d, view, list));
    Installs(l, e, list) + [HeadWrite(l, e, [])]
  }

  /** The cache agrees with the disk except on the logged blocks. */
  ghost predicate DiffersOnlyOn(l: Layout, d: Disk, view: Disk, list: seq<nat>) {
    |view| == |d| && forall x :: 0 <= x < |d| && !l.InLog(x) && x !in list ==> view[x] == d[x]
  }

  lemma {:induction false} CopiesAt(l: Layout, d: Disk, view: Disk, list: seq<nat>, k: nat)
    requires l.Fits(d) && ValidList(l, d, list) && |view| == |d| && k <= |list|
    ensures var e := Apply(d, Copies(l, view, list)[..k]);
            && (forall i :: 0 <= i < k ==> Slot(l, e, i) == view[list[i]])
            && (forall x :: 0 <= x < |d| && !(l.start < x <= l.start + k) ==> e[x] == d[x])
  {
    var ws := Copies(l, view, list);
    if k > 0 {
      CopiesAt(l, d, view, list, k - 1);
      var e := Apply(d, ws[..k - 1]);
      assert ws[..k][..k - 1] == ws[..k - 1];
      assert Apply(d, ws[..k]) == e[l.start + k := view[list[k - 1]]];
    }
  }

  lemma PrefixDisk(l: Layout, d: Disk, view: Disk, list: seq<nat>)
    requires l.Fits(d) && ValidList(l, d, list) && |view| == |d|
    ensures var e := Apply(d, CommitPrefix(l, d, view, list));
            && ValidDisk(l, e)
            && HeadList(e[l.start]) == list
            && (forall i :: 0 <= i < |list| ==> Slot(l, e, i) == view[list[i]])
            && SameHome(l, e, d)
  {
    var ws := Copies(l, view, list);
    CopiesAt(l, d, view, list, |list|);
    assert ws[..|list|] == ws;
    ApplyConcat(d, ws, [HeadWrite(l, d, list)]);
    assert Apply(d, CommitPrefix(l, d, view, list)) == Put(Apply(d, ws), HeadWrite(l, d, list));
  }

  lemma PrefixAt(l: Layout, d: Disk, view: Disk, list: seq<nat>)
    requires l.Fits(d) && ValidList(l, d, list) && DiffersOnlyOn(l, d, view, list)
    ensures var e := Apply(d, CommitPrefix(l, d, view, list));
            && ValidDisk(l, e)
            && HeadList(e[l.start]) == list
            && RecoverWrites(l, e) == RecoverTail(l, d, view, list)
            && SameHome(l, Recovered(l, e), view)
  {
    PrefixDisk(l, d, view, list);
    var e := Apply(d, CommitPrefix(l, d, view, list));
    RecoveredAt(l, e);
    forall x | 0 <= x < |d| && !l.InLog(x)
      ensures Recovered(l, e)[x] == view[x]
    {
      if x in list {
        var i :| 0 <= i < |list| && list[i] == x;
      }
    }
  }

  /**
   Crash atomicity of one commit.  Whatever number k of its block writes reached the
   disk, the disk recovers to the old home blocks if the header write was not among
   them, and to all of the group's blocks if it was.
   */
  lemma {:induction false} CommitCrash(l: Layout, d: Disk, view: Disk, list: seq<nat>, k: nat)
    requires ValidDisk(l, d) && HeadList(d[l.start]) == []
    requires ValidList(l, d, list) && DiffersOnlyOn(l, d, view, list)
    requires k <= |CommitWrites(l, d, view, list)|
    ensures var e := Apply(d, CommitWrites(l, d, view, list)[..k]);
            && ValidDisk(l, e)
            && SameHome(l, Recovered(l, e), if k <= |list| then d else view)
  {
    var ws := CommitWrites(l, d, view, list);
    var e := Apply(d, ws[..k]);
    if k <= |list| {
      if list != [] {
        assert ws[..k] == Copies(l, view, list)[..k];
        CopiesAt(l, d, view, list, k);
      }
      RecoveredAt(l, e);
    } else {
      var prefix := CommitPrefix(l, d, view, list);
      var tail := RecoverTail(l, d, view, list);
      var j := k - |prefix|;
      assert ws[..k] == prefix + tail[..j];
      ApplyConcat(d, prefix, tail[..j]);
      PrefixAt(l, d, view, list);
      RecoveryCrash(l, Apply(d, prefix), j);
    }
  }

  /** A commit that runs to its end leaves an empty log and the group installed. */
  lemma CommitDone(l: Layout, d: Disk, view: Disk, list: seq<nat>)
    requires ValidDisk(l, d) && HeadList(d[l.start]) == []
    requires ValidList(l, d, list) && DiffersOnlyOn(l, d, view, list)
    ensures var e := Apply(d, CommitWrites(l, d, view, list));
            && ValidDisk(l, e)
            && HeadList(e[l.start]) == []
            && SameHome(l, e, view)
  {
    var ws := CommitWrites(l, d, view, list);
    if list != [] {
      var prefix := CommitPrefix(l, d, view, list);
      ApplyConcat(d, prefix, RecoverTail(l, d, view, list));
      PrefixAt(l, d, view, list);
      RecoveredAt(l, Apply(d, prefix));
    }
  }
}
