/**
 The device of Log takes the steps of LogRun: every history of begin_op, log_write, end_op and
 recovery on a LogDevice is a run of that machine, so what holds of all runs holds of the device.
 */
module Journal {
  import opened LogDisk
  import opened Log
  import opened Params
  import LogRun

  /** The run leads from the disk `origin` to state s. */
  ghost predicate Ran(l: Layout, origin: Disk, run: seq<LogRun.Event>, s: LogRun.State) {
    forall z: nat {:trigger Unfold(z)} :: Unfold(z) ==>
      LogRun.IsRun(l, LogRun.Boot(origin), run) && s == LogRun.After(l, LogRun.Boot(origin), run)
  }

  lemma RanMore(l: Layout, origin: Disk, run: seq<LogRun.Event>, s: LogRun.State, e: LogRun.Event)
    requires Ran(l, origin, run, s) && LogRun.Enabled(l, s, e)
    ensures Ran(l, origin, run + [e], LogRun.Next(l, s, e))
  {
    assert Unfold(0);
    RunMore(l, LogRun.Boot(origin), run, e);
  }

  class Journal {
    const dev: LogDevice
    const origin: Disk // the disk at the first power-on
    ghost var run: seq<LogRun.Event>
    ghost var s: LogRun.State

    /** The run so far leads to s, which has the device's disk. */
    ghost predicate Recorded()
      reads this, dev
    {
      ValidDisk(dev.l, origin) && Ran(dev.l, origin, run, s) && s.disk == dev.disk
    }

    /** The system is up, and memory is as s says. */
    ghost predicate Running()
      reads this, dev, dev.block
    {
      && Recorded() && dev.Valid() && !dev.committing
      && s.mem.Up? && s.mem.view == dev.View() && s.mem.list == dev.List() && |s.mem.active| == dev.outstanding
    }

    ghost predicate Halted()
      reads this, dev, dev.block
    {
      Recorded() && s.mem.Down?
    }

    /** Event e happened, and took the state from s0 to s. */
    ghost predicate Took(run0: seq<LogRun.Event>, s0: LogRun.State, e: LogRun.Event)
      reads this, dev
    {
      Recorded() && run == run0 + [e] && LogRun.Enabled(dev.l, s0, e) && s == LogRun.Next(dev.l, s0, e)
    }

    /** The machine is switched on. */
    constructor (dev: LogDevice)
      requires ValidDisk(dev.l, dev.disk)
      ensures Halted() && this.dev == dev && origin == dev.disk && run == []
    {
      this.dev := dev;
      origin := dev.disk;
      run := [];
      s := LogRun.Boot(dev.disk);
    }

    ghost method Take(e: LogRun.Event)
      requires ValidDisk(dev.l, origin) && Ran(dev.l, origin, run, s)
      requires LogRun.Enabled(dev.l, s, e) && LogRun.Next(dev.l, s, e).disk == dev.disk
      modifies this
      ensures Took(old(run), old(s), e)
    {
      RanMore(dev.l, origin, run, s, e);
      run := run + [e];
      s := LogRun.Next(dev.l, s, e);
    }

    /** Whenever power fails, recovery of the device's disk yields the committed groups, in order. */
    lemma Durable()
      requires Recorded()
      ensures ValidDisk(dev.l, dev.disk)
      ensures SameHome(dev.l, Recovered(dev.l, dev.disk), LogRun.Replay(Recovered(dev.l, origin), LogRun.Flatten(s.groups)))
    {
      assert Unfold(0);
      LogRun.CrashAtomicity(dev.l, origin, run);
    }

    /** Power fails at any moment between calls, or after one that lost it; memory is gone. */
    method PowerCycle(power: nat)
      requires Recorded()
      modifies this, dev`cache, dev`n, dev`outstanding, dev`committing, dev`power
      ensures Halted() && Took(old(run), old(s), LogRun.Crash) && s.groups == old(s).groups
      ensures dev.cache == map[] && dev.outstanding == 0 && !dev.committing && dev.power == power
    {
      dev.cache := map[];
      dev.n := 0;
      dev.outstanding := 0;
      dev.committing := false;
      dev.power := power;
      Take(LogRun.Crash);
    }

    /** recover_from_log at boot, with nothing cached; it may lose power itself. */
    method Recover() returns (up: bool)
      requires Halted() && dev.cache == map[] && dev.block.Length == LOGSIZE && dev.outstanding == 0 && !dev.committing
      modifies this, dev`disk, dev`cache, dev`power, dev`n, dev.block
      ensures exists k :: Took(old(run), old(s), LogRun.Recover(k))
      ensures if up then Running() else Halted()
    {
      Durable();
      ghost var ws := RecoverWrites(dev.l, dev.disk);
      ghost var k := if dev.power < |ws| then dev.power else |ws|;
      up := dev.RecoverFromLog();
      Take(LogRun.Recover(k));
    }

    /** One pass of begin_op: admitted exactly when the machine lets an operation begin. */
    method Begin() returns (admitted: bool)
      requires Running()
      modifies this, dev`outstanding
      ensures Running() && (admitted <==> LogRun.Enabled(dev.l, old(s), LogRun.Begin))
      ensures if admitted then Took(old(run), old(s), LogRun.Begin) else s == old(s) && run == old(run)
    {
      admitted := dev.BeginOp();
      if admitted {
        Take(LogRun.Begin);
      }
    }

    /** log_write by the i-th operation under way; false is the panic. */
    method Write(ghost i: nat, b: nat, data: Block) returns (ok: bool)
      requires Running() && i < |s.mem.active| && b < |dev.disk| && !dev.l.InLog(b)
      modifies this, dev`cache, dev`n, dev.block
      ensures Took(old(run), old(s), LogRun.LogWrite(i, b, data))
      ensures if ok then Running() else s.mem.Panicked?
    {
      ok := dev.LogWrite(b, data);
      Take(LogRun.LogWrite(i, b, data));
    }

    /** end_op of the i-th operation: the last one commits, and may lose power. */
    method End(ghost i: nat) returns (up: bool)
      requires Running() && i < |s.mem.active|
      modifies this, dev`disk, dev`cache, dev`power, dev`n, dev`outstanding, dev`committing
      ensures exists k :: Took(old(run), old(s), LogRun.End(i, k))
      ensures if up then Running() else Halted()
    {
      ghost var ws := CommitWrites(dev.l, dev.disk, dev.View(), dev.List());
      ghost var k := if dev.outstanding > 1 then 0 else if dev.power < |ws| then dev.power else |ws|;
      up := dev.EndOp();
      Take(LogRun.End(i, k));
    }
  }

  lemma {:induction false} RunMore(l: Layout, s: LogRun.State, run: seq<LogRun.Event>, e: LogRun.Event)
    requires LogRun.IsRun(l, s, run) && LogRun.Enabled(l, LogRun.After(l, s, run), e)
    ensures LogRun.IsRun(l, s, run + [e]) && LogRun.After(l, s, run + [e]) == LogRun.Next(l, LogRun.After(l, s, run), e)
    decreases |run|
  {
    if run == [] {
      assert run + [e] == [e];
      var t := LogRun.Next(l, s, e);
      assert [e][1..] == [] && LogRun.IsRun(l, t, []) && LogRun.After(l, t, []) == t;
    } else {
      RunMore(l, LogRun.Next(l, s, run[0]), run[1..], e);
      assert (run + [e])[1..] == run[1..] + [e];
    }
  }
}
