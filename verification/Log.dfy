/**
 log.c as a device with state: the in-memory header, the pinned (dirty) buffers, and the
 disk.  `power` is the number of block writes left before the machine stops; every method
 reports whether it got to its end.
 */
module Log {
  import opened LogDisk
  import opened Params
  import LogRun

  /** Of the writes `ws` issued on disk `d` with power `p`, as many as possible reached it. */
  ghost predicate Performed(d: Disk, ws: seq<BlockWrite>, p: nat, e: Disk, q: nat, up: bool) {
    var k := if p < |ws| then p else |ws|;
    e == Apply(d, ws[..k]) && q == p - k && up == (p >= |ws|)
  }

  lemma ApplyNext(d: Disk, ws: seq<BlockWrite>, i: nat)
    requires i < |ws|
    ensures Apply(d, ws[..i + 1]) == Put(Apply(d, ws[..i]), ws[i])
  {
    assert ws[..i + 1][..i] == ws[..i];
  }

  lemma PerformedThen(d: Disk, a: seq<BlockWrite>, p: nat, e: Disk, q: nat,
                      b: seq<BlockWrite>, f: Disk, r: nat, up: bool)
    requires Performed(d, a, p, e, q, true) && Performed(e, b, q, f, r, up)
    ensures Performed(d, a + b, p, f, r, up)
  {
    var k := if q < |b| then q else |b|;
    assert a[..|a|] == a;
    assert (a + b)[..|a| + k] == a + b[..k];
    ApplyConcat(d, a, b[..k]);
  }

  lemma PerformedShort(d: Disk, a: seq<BlockWrite>, p: nat, e: Disk, q: nat, b: seq<BlockWrite>)
    requires Performed(d, a, p, e, q, false)
    ensures Performed(d, a + b, p, e, q, false)
  {
    assert (a + b)[..p] == a[..p];
  }

  /** The copies leave the header block alone. */
  lemma HeadAfterCopies(l: Layout, d: Disk, view: Disk, list: seq<nat>)
    requires l.Fits(d) && |view| == |d| && ValidList(l, d, list)
    ensures HeadWrite(l, Apply(d, Copies(l, view, list)), list) == HeadWrite(l, d, list)
  {
    var ws := Copies(l, view, list);
    assert ws[..|list|] == ws;
    CopiesAt(l, d, view, list, |list|);
  }

  /** What a commit that may lose power leaves behind. */
  lemma CommitOutcome(l: Layout, d: Disk, view: Disk, list: seq<nat>, p: nat, e: Disk, q: nat, up: bool)
    requires ValidDisk(l, d) && HeadList(d[l.start]) == []
    requires ValidList(l, d, list) && DiffersOnlyOn(l, d, view, list)
    requires Performed(d, CommitWrites(l, d, view, list), p, e, q, up)
    ensures ValidDisk(l, e) && SameHome(l, Recovered(l, e), if p <= |list| then d else view)
  {
    var ws := CommitWrites(l, d, view, list);
    CommitCrash(l, d, view, list, if p < |ws| then p else |ws|);
  }

  /** The blocks as a reader of the buffer cache sees them. */
  ghost function Seen(d: Disk, cache: map<nat, Block>): (v: Disk)
    ensures |v| == |d|
    ensures forall x :: 0 <= x < |d| ==> v[x] == if x in cache then cache[x] else d[x]
  {
    seq(|d|, x requires 0 <= x < |d| => if x in cache then cache[x] else d[x])
  }

  /** Readers see the disk, except for the logged blocks. */
  lemma SeenDiffers(l: Layout, d: Disk, cache: map<nat, Block>, list: seq<nat>)
    requires l.Fits(d) && forall x :: x in cache ==> x in list
    ensures DiffersOnlyOn(l, d, Seen(d, cache), list)
  {
  }

  /** A dirtied buffer is what readers see from then on. */
  lemma SeenPut(d: Disk, cache: map<nat, Block>, b: nat, data: Block)
    requires b < |d|
    ensures Seen(d, cache[b := data]) == Put(Seen(d, cache), BlockWrite(b, data))
  {
  }

  lemma AbsorbValid(l: Layout, d: Disk, list: seq<nat>, b: nat)
    requires ValidList(l, d, list) && b < |d| && !l.InLog(b) && |list| < LOGSIZE && |list| < l.size - 1
    ensures ValidList(l, d, LogRun.Absorb(list, b))
    ensures forall x :: x in LogRun.Absorb(list, b) <==> x in list || x == b
  {
  }

  /** Of the writes that install `list` from disk d0, the first `tail` are done, and those buffers are clean. */
  ghost predicate Installing(l: Layout, d0: Disk, list: seq<nat>, p0: nat, cache0: map<nat, Block>,
                             disk: Disk, cache: map<nat, Block>, power: nat, tail: nat) {
    forall z: nat {:trigger Unfold(z)} :: Unfold(z) ==>
      && l.Fits(d0) && ValidList(l, d0, list) && tail <= |list| && tail <= p0 && power == p0 - tail
      && |disk| == |d0| && disk == Apply(d0, Installs(l, d0, list)[..tail])
      && (forall x :: x in cache ==> x in cache0)
      && (forall j :: 0 <= j < tail ==> list[j] !in cache)
  }

  lemma InstallingFacts(l: Layout, d0: Disk, list: seq<nat>, p0: nat, cache0: map<nat, Block>,
                        disk: Disk, cache: map<nat, Block>, power: nat, tail: nat)
    requires Installing(l, d0, list, p0, cache0, disk, cache, power, tail)
    ensures l.Fits(d0) && ValidList(l, d0, list) && tail <= |list| && tail <= p0 && power == p0 - tail
    ensures |disk| == |d0| && disk == Apply(d0, Installs(l, d0, list)[..tail])
    ensures forall x :: x in cache ==> x in cache0
    ensures tail == |list| ==> forall x :: x in cache ==> x !in list
  {
    assert Unfold(0);
  }

  lemma InstallingStarts(l: Layout, d: Disk, list: seq<nat>, p: nat, cache: map<nat, Block>)
    requires l.Fits(d) && ValidList(l, d, list)
    ensures Installing(l, d, list, p, cache, d, cache, p, 0)
  {
    assert Installs(l, d, list)[..0] == [];
  }

  lemma InstallingMore(l: Layout, d0: Disk, list: seq<nat>, p0: nat, cache0: map<nat, Block>,
                       disk1: Disk, cache1: map<nat, Block>, power1: nat,
                       disk2: Disk, cache2: map<nat, Block>, power2: nat, tail: nat)
    requires Installing(l, d0, list, p0, cache0, disk1, cache1, power1, tail) && tail < |list| && 0 < power1
    requires l.Fits(d0) && ValidList(l, d0, list) && tail + 1 < l.size && |disk1| == |d0|
    requires Slot(l, disk1, tail) == Slot(l, d0, tail) && power2 == power1 - 1
    requires disk2 == Put(disk1, BlockWrite(list[tail], Slot(l, disk1, tail))) && cache2 == cache1 - {list[tail]}
    ensures Installing(l, d0, list, p0, cache0, disk2, cache2, power2, tail + 1)
  {
    assert Unfold(0);
    ApplyNext(d0, Installs(l, d0, list), tail);
  }

  class LogDevice {
    const l: Layout
    var disk: Disk
    var cache: map<nat, Block>
    var n: nat
    var block: array<nat>
    var outstanding: nat
    var committing: bool
    var power: nat

    ghost function View(): (v: Disk)
      reads this
    {
      Seen(disk, cache)
    }

    ghost function List(): (r: seq<nat>)
      requires n <= block.Length
      reads this, block
    {
      block[..n]
    }

    /** The dirty buffers are the logged blocks. */
    ghost predicate Valid()
      reads this, block
    {
      && l.Fits(disk)
      && block.Length == LOGSIZE
      && n <= LOGSIZE
      && ValidList(l, disk, List())
      && (forall x :: x in cache <==> x in List())
    }

    constructor (l: Layout, disk: Disk, power: nat)
      requires l.Fits(disk)
      ensures Valid() && List() == [] && View() == disk
      ensures this.l == l && this.disk == disk && this.power == power
      ensures outstanding == 0 && !committing
      ensures fresh(block)
    {
      this.l := l;
      this.disk := disk;
      this.cache := map[];
      this.n := 0;
      this.block := new nat[LOGSIZE];
      this.outstanding := 0;
      this.committing := false;
      this.power := power;
    }

    method Bread(b: nat) returns (data: Block)
      requires b < |disk|
      ensures data == View()[b]
    {
      data := if b in cache then cache[b] else disk[b];
    }

    /** bwrite: one atomic block write, which also cleans the buffer. */
    method Bwrite(b: nat, data: Block) returns (up: bool)
      requires b < |disk|
      modifies this`disk, this`cache, this`power
      ensures up == (old(power) > 0)
      ensures up ==> power == old(power) - 1 && disk == Put(old(disk), BlockWrite(b, data)) && cache == old(cache) - {b}
      ensures !up ==> power == old(power) && disk == old(disk) && cache == old(cache)
    {
      if power == 0 {
        return false;
      }
      disk := disk[b := data];
      cache := cache - {b};
      power := power - 1;
      up := true;
    }

    /** One round of write_log. */
    method CopyToLog(tail: nat) returns (up: bool)
      requires Valid() && tail < n
      modifies this`disk, this`cache, this`power
      ensures Valid() && cache == old(cache) && |disk| == |old(disk)|
      ensures up == (old(power) > 0) && power == old(power) - (if up then 1 else 0)
      ensures disk == if up then Put(old(disk), BlockWrite(l.start + 1 + tail, old(View())[List()[tail]])) else old(disk)
    {
      assert List()[tail] == block[tail];
      var from := Bread(block[tail]);
      up := Bwrite(l.start + tail + 1, from);
      assert cache == old(cache);
    }

    /** That round as the tail-th of the writes that copy `view` and began on disk d0. */
    method CopyNext(tail: nat, ghost d0: Disk, ghost view: Disk) returns (up: bool)
      requires Valid() && tail < n && |d0| == |disk| && view == Seen(d0, cache)
      requires disk == Apply(d0, Copies(l, view, List())[..tail])
      modifies this`disk, this`cache, this`power
      ensures Valid() && cache == old(cache) && |disk| == |old(disk)|
      ensures up == (old(power) > 0) && power == old(power) - (if up then 1 else 0)
      ensures disk == if up then Apply(d0, Copies(l, view, List())[..tail + 1]) else old(disk)
    {
      ghost var ws := Copies(l, view, List());
      ApplyNext(d0, ws, tail);
      CopiesAt(l, d0, view, List(), tail);
      up := CopyToLog(tail);
    }

    method WriteLog() returns (up: bool)
      requires Valid()
      modifies this`disk, this`cache, this`power
      ensures Valid() && cache == old(cache)
      ensures Performed(old(disk), Copies(l, old(View()), List()), old(power), disk, power, up)
    {
      ghost var d0, p0, view := disk, power, View();
      ghost var ws := Copies(l, view, List());
      var tail := 0;
      assert ws[..0] == [];
      while tail < n
        invariant 0 <= tail <= n && Valid() && cache == old(cache) && |disk| == |d0|
        invariant tail <= p0 && power == p0 - tail && disk == Apply(d0, ws[..tail])
      {
        up := CopyNext(tail, d0, view);
        if !up {
          assert p0 == tail < |ws|;
          return;
        }
        tail := tail + 1;
      }
      assert ws[..n] == ws;
      up := true;
    }

    /** One round of install_trans. */
    method InstallBlock(tail: nat) returns (up: bool)
      requires l.Fits(disk) && tail < n <= block.Length && tail + 1 < l.size && block[tail] < |disk|
      requires forall x :: x in cache ==> !l.InLog(x)
      modifies this`disk, this`cache, this`power
      ensures up == (old(power) > 0) && power == old(power) - (if up then 1 else 0)
      ensures disk == if up then Put(old(disk), BlockWrite(block[tail], Slot(l, old(disk), tail))) else old(disk)
      ensures cache == if up then old(cache) - {block[tail]} else old(cache)
    {
      var lbuf := Bread(l.start + tail + 1);
      up := Bwrite(block[tail], lbuf);
    }

    /** That round as the tail-th of the writes that install from disk d0. */
    method InstallNext(tail: nat, ghost d0: Disk, ghost p0: nat, ghost cache0: map<nat, Block>) returns (up: bool)
      requires l.Fits(d0) && block.Length == LOGSIZE && tail < n <= LOGSIZE && ValidList(l, d0, List())
      requires (forall x :: x in cache0 ==> !l.InLog(x)) && Installing(l, d0, List(), p0, cache0, disk, cache, power, tail)
      modifies this`disk, this`cache, this`power
      ensures if up then Installing(l, d0, List(), p0, cache0, disk, cache, power, tail + 1)
              else p0 == tail && Installing(l, d0, List(), p0, cache0, disk, cache, power, tail)
    {
      ghost var list, disk1, cache1, power1 := List(), disk, cache, power;
      InstallingFacts(l, d0, list, p0, cache0, disk, cache, power, tail);
      InstallsKeepLog(l, d0, list, tail);
      assert list[tail] == block[tail];
      up := InstallBlock(tail);
      if up {
        InstallingMore(l, d0, list, p0, cache0, disk1, cache1, power1, disk, cache, power, tail);
      }
    }

    /** install_trans: every logged block goes home and its buffer becomes clean. */
    method InstallTrans() returns (up: bool)
      requires l.Fits(disk) && block.Length == LOGSIZE && n <= LOGSIZE
      requires ValidList(l, disk, List())
      requires forall x :: x in cache ==> !l.InLog(x)
      modifies this`disk, this`cache, this`power
      ensures |disk| == |old(disk)|
      ensures Performed(old(disk), Installs(l, old(disk), List()), old(power), disk, power, up)
      ensures forall x :: x in cache ==> x in old(cache)
      ensures up ==> forall x :: x in cache ==> x !in List()
    {
      ghost var d0, p0, cache0, list := disk, power, cache, List();
      var tail := 0;
      InstallingStarts(l, disk, list, power, cache);
      while tail < n
        invariant 0 <= tail <= n && List() == list && Installing(l, d0, list, p0, cache0, disk, cache, power, tail)
      {
        up := InstallNext(tail, d0, p0, cache0);
        if !up {
          InstallingFacts(l, d0, list, p0, cache0, disk, cache, power, tail);
          return;
        }
        tail := tail + 1;
      }
      InstallingFacts(l, d0, list, p0, cache0, disk, cache, power, tail);
      assert Installs(l, d0, list)[..n] == Installs(l, d0, list);
      up := true;
    }

    /** write_head: copy the in-memory list into the header block. */
    method WriteHead() returns (up: bool)
      requires l.Fits(disk) && block.Length == LOGSIZE && n <= LOGSIZE
      requires forall x :: x in cache ==> !l.InLog(x)
      modifies this`disk, this`cache, this`power
      ensures cache == old(cache) && |disk| == |old(disk)|
      ensures Performed(old(disk), [HeadWrite(l, old(disk), old(List()))], old(power), disk, power, up)
    {
      var hb := Bread(l.start);
      ghost var was := hb;
      hb := hb[0 := n];
      var i := 0;
      while i < n
        invariant 0 <= i <= n && |hb| == WORDS && hb[0] == n
        invariant forall j :: 0 <= j < i ==> hb[1 + j] == block[j]
        invariant forall j :: 1 + i <= j < WORDS ==> hb[j] == was[j]
      {
        hb := hb[1 + i := block[i]];
        i := i + 1;
      }
      assert hb == HeadWith(was, List());
      ghost var ws := [HeadWrite(l, disk, List())];
      assert ws[..0] == [] && ws[..1] == ws;
      ApplyNext(disk, ws, 0);
      up := Bwrite(l.start, hb);
      assert cache == old(cache);
    }

    /** read_head: load the header block into memory. */
    method ReadHead()
      requires ValidDisk(l, disk) && block.Length == LOGSIZE && l.start !in cache
      modifies this`n, block
      ensures n <= LOGSIZE && List() == HeadList(disk[l.start])
    {
      var hb := Bread(l.start);
      n := hb[0];
      var i := 0;
      while i < n
        invariant 0 <= i <= n && n == hb[0]
        invariant block[..i] == hb[1..1 + i]
      {
        block[i] := hb[1 + i];
        i := i + 1;
      }
    }

    /** recover_from_log, at boot: nothing is cached. */
    method RecoverFromLog() returns (up: bool)
      requires ValidDisk(l, disk) && block.Length == LOGSIZE && cache == map[]
      modifies this`disk, this`cache, this`power, this`n, block
      ensures Performed(old(disk), RecoverWrites(l, old(disk)), old(power), disk, power, up)
      ensures ValidDisk(l, disk) && SameHome(l, Recovered(l, disk), Recovered(l, old(disk)))
      ensures up ==> Valid() && List() == [] && View() == disk
    {
      ReadHead();
      up := InstallAndClear();
      RecoveryCrash(l, old(disk), if old(power) < |RecoverWrites(l, old(disk))| then old(power) else |RecoverWrites(l, old(disk))|);
    }

    /** commit: the log copies, the header, the installation and the cleared header. */
    method Commit() returns (up: bool)
      requires Valid()
      modifies this`disk, this`cache, this`power, this`n
      ensures Performed(old(disk), CommitWrites(l, old(disk), old(View()), old(List())), old(power), disk, power, up)
      ensures up ==> Valid() && List() == [] && View() == disk
    {
      if n == 0 {
        return true;
      }
      ghost var list, view := List(), View();
      ghost var prefix, tail := CommitPrefix(l, disk, view, list), RecoverTail(l, disk, view, list);
      up := CommitToLog();
      if !up {
        PerformedShort(old(disk), prefix, old(power), disk, power, tail);
        return;
      }
      ghost var d, p := disk, power;
      assert prefix[..|prefix|] == prefix;
      up := InstallAndClear();
      PerformedThen(old(disk), prefix, old(power), d, p, tail, disk, power, up);
    }

    /** The first half of commit: after it the transaction has committed. */
    method CommitToLog() returns (up: bool)
      requires Valid()
      modifies this`disk, this`cache, this`power
      ensures Valid() && cache == old(cache) && List() == old(List())
      ensures Performed(old(disk), CommitPrefix(l, old(disk), old(View()), old(List())), old(power), disk, power, up)
    {
      ghost var view, list := View(), List();
      ghost var ws, last := Copies(l, view, list), [HeadWrite(l, disk, list)];
      up := WriteLog();
      if !up {
        PerformedShort(old(disk), ws, old(power), disk, power, last);
        return;
      }
      ghost var d, p := disk, power;
      assert ws[..|ws|] == ws;
      HeadAfterCopies(l, old(disk), view, list);
      up := WriteHead();
      PerformedThen(old(disk), ws, old(power), d, p, last, disk, power, up);
    }

    /** The second half of commit, and recovery once the header has been read. */
    method InstallAndClear() returns (up: bool)
      requires l.Fits(disk) && block.Length == LOGSIZE && n <= LOGSIZE && ValidList(l, disk, List())
      requires forall x :: x in cache ==> x in List()
      modifies this`disk, this`cache, this`power, this`n
      ensures Performed(old(disk), Installs(l, old(disk), old(List())) + [HeadWrite(l, old(disk), [])], old(power), disk, power, up)
      ensures up ==> Valid() && List() == [] && View() == disk
    {
      ghost var ws, last := Installs(l, disk, List()), [HeadWrite(l, disk, [])];
      up := InstallTrans();
      if !up {
        PerformedShort(old(disk), ws, old(power), disk, power, last);
        return;
      }
      ghost var d, p := disk, power;
      InstallsKeepLog(l, old(disk), List(), n);
      assert ws[..n] == ws;
      assert cache == map[];
      n := 0;
      up := WriteHead();
      PerformedThen(old(disk), ws, old(power), d, p, last, disk, power, up);
    }

    /** One pass of begin_op's loop: the operation is admitted, or must sleep and try again. */
    method BeginOp() returns (admitted: bool)
      requires Valid()
      modifies this`outstanding
      ensures admitted == (!committing && LogRun.Admits(List(), old(outstanding)))
      ensures outstanding == old(outstanding) + if admitted then 1 else 0
    {
      if committing {
        return false;
      }
      if n + (outstanding + 1) * MAXOPBLOCKS > LOGSIZE {
        return false;
      }
      outstanding := outstanding + 1;
      return true;
    }

    /** log_write of a home block whose buffer now holds `data`; false is a panic. */
    method LogWrite(b: nat, data: Block) returns (ok: bool)
      requires Valid() && b < |disk| && !l.InLog(b)
      modifies this`cache, this`n, block
      ensures ok == (!LogRun.LogFull(l, old(List())) && outstanding >= 1)
      ensures ok ==> Valid() && List() == LogRun.Absorb(old(List()), b)
      ensures ok ==> View() == Put(old(View()), BlockWrite(b, data))
    {
      if n >= LOGSIZE || n >= l.size - 1 {
        return false;
      }
      if outstanding < 1 {
        return false;
      }
      var i := 0;
      while i < n
        invariant 0 <= i <= n
        invariant b !in block[..i]
      {
        if block[i] == b {
          break;
        }
        i := i + 1;
      }
      Pin(i, b, data);
      ok := true;
    }

    /** log.lh.block[i] = b.blockno, with the list one longer if that is its end. */
    method Append(i: nat, b: nat)
      requires block.Length == LOGSIZE && i <= n < LOGSIZE && b !in block[..i] && (i < n ==> block[i] == b)
      modifies this`n, block
      ensures n <= LOGSIZE && List() == LogRun.Absorb(old(List()), b)
    {
      ghost var list := List();
      assert i < n ==> list[i] == b;
      assert i == n ==> b !in list;
      block[i] := b;
      if i == n {
        n := n + 1;
        assert List() == list + [b];
      } else {
        assert List() == list;
      }
    }

    /** Put the block at place i of the list, extending it if that is its end, and keep the buffer dirty. */
    method Pin(i: nat, b: nat, data: Block)
      requires Valid() && b < |disk| && !l.InLog(b) && i <= n < LOGSIZE && n < l.size - 1
      requires b !in block[..i] && (i < n ==> block[i] == b)
      modifies this`cache, this`n, block
      ensures Valid() && List() == LogRun.Absorb(old(List()), b)
      ensures View() == Put(old(View()), BlockWrite(b, data))
    {
      ghost var list := List();
      AbsorbValid(l, disk, list, b);
      SeenPut(disk, cache, b, data);
      Append(i, b);
      cache := cache[b := data];
    }

    /** end_op: the last operation out commits. */
    method EndOp() returns (up: bool)
      requires Valid() && !committing && outstanding > 0
      modifies this`disk, this`cache, this`power, this`n, this`outstanding, this`committing
      ensures outstanding == old(outstanding) - 1
      ensures outstanding > 0 ==> up && disk == old(disk) && power == old(power) && cache == old(cache) && n == old(n) && !committing
      ensures outstanding == 0 ==>
                Performed(old(disk), CommitWrites(l, old(disk), old(View()), old(List())), old(power), disk, power, up)
      ensures outstanding == 0 && up ==> Valid() && List() == [] && View() == disk && !committing
      ensures outstanding == 0 && !up ==> committing
      ensures outstanding == 0 && old(ValidDisk(l, disk) && HeadList(disk[l.start]) == []) ==>
                && ValidDisk(l, disk)
                && SameHome(l, Recovered(l, disk), if old(power) <= old(n) then old(disk) else old(View()))
    {
      outstanding := outstanding - 1;
      if outstanding == 0 {
        up := CommitLast();
      } else {
        up := true;
      }
    }

    /** The commit of end_op, with log.committing set while it lasts. */
    method CommitLast() returns (up: bool)
      requires Valid() && !committing
      modifies this`disk, this`cache, this`power, this`n, this`committing
      ensures Performed(old(disk), CommitWrites(l, old(disk), old(View()), old(List())), old(power), disk, power, up)
      ensures if up then Valid() && List() == [] && View() == disk && !committing else committing
      ensures old(ValidDisk(l, disk) && HeadList(disk[l.start]) == []) ==>
                && ValidDisk(l, disk)
                && SameHome(l, Recovered(l, disk), if old(power) <= old(n) then old(disk) else old(View()))
    {
      ghost var d, view, list, p := disk, View(), List(), power;
      committing := true;
      up := Commit();
      if up {
        committing := false;
      }
      if ValidDisk(l, d) && HeadList(d[l.start]) == [] {
        SeenDiffers(l, d, old(cache), list);
        CommitOutcome(l, d, view, list, p, disk, power, up);
      }
    }
  }
}
