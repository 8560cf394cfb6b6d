/**
 The protocol of SleepWake on the process table of Proc: every run of the protocol, lock operation
 by lock operation, is a run of the table in which sleep, wakeup, kill and dispatch are the steps
 that the code of ProcTable takes. So the table loses no wakeup.
 */
module SleepTable {

  import opened Params
  import P = Proc
  import W = SleepWake

  /** A wakeup in progress has passed slot p. */
  predicate Passed(s: W.State, p: nat) {
    s.pt.Some? && s.pt.value < |s.pcs| && s.pcs[s.pt.value].Waker? && s.pcs[s.pt.value].scan.At? && p < s.pcs[s.pt.value].scan.i
  }

  /** Slot q of the table is where the protocol says: asleep on a, woken, or running. */
  predicate MatchAt(c: W.Pc, q: P.Proc, a: nat, passed: bool) {
    && q.act == P.Idle
    && (c.Asleep? ==> P.AsleepOn(q, P.Other(a)))
    && (c.Woken? ==> q.state == P.Runnable || (passed && P.AsleepOn(q, P.Other(a))))
    && (!c.Asleep? && !c.Woken? ==> q.state == P.Running)
  }

  /** The processes `who` take part; the table agrees with the protocol about each of them. */
  ghost predicate FitAt(s: W.State, t: P.Table, a: nat, who: set<nat>, p: nat)
    requires p < NPROC == |s.pcs|
  {
    && (if p in who then MatchAt(s.pcs[p], t[p], a, Passed(s, p)) else s.pcs[p].Idle?)
    && (Passed(s, p) ==> !s.pcs[p].Asleep?)
  }

  ghost predicate Match(s: W.State, t: P.Table, a: nat, who: set<nat>) {
    && |s.pcs| == NPROC && (forall p :: p in who ==> p < NPROC)
    && (forall p {:trigger FitAt(s, t, a, who, p)} :: 0 <= p < NPROC ==> FitAt(s, t, a, who, p))
  }

  /** The step of the table that an action of the protocol is, if it is one; a wakeup is one step, at its end. */
  function StepOf(s: W.State, e: W.Event, a: nat): seq<P.Event>
    requires e.p < |s.pcs|
  {
    match e.a
    case GoToSleep => [P.Sleep(e.p, a)]
    case Dispatch => [P.Dispatch(e.p)]
    case Kill => [P.Kill(e.p)]
    case DropPt => if s.pcs[e.p].Waker? then [P.Wakeup(a)] else []
    case _ => []
  }

  /** An action that is no step of the table. */
  lemma SilentAt(s: W.State, e: W.Event, cond: nat -> bool, t: P.Table, a: nat, who: set<nat>, p: nat)
    requires W.Inv(s, cond) && W.Enabled(s, e, cond) && e.p in who && Match(s, t, a, who) && StepOf(s, e, a) == [] && p < NPROC
    ensures FitAt(W.Next(s, e, cond), t, a, who, p)
  {
    assert FitAt(s, t, a, who, p) && FitAt(s, t, a, who, e.p);
    assert W.LocksAt(s, p) && W.LocksAt(s, e.p) && W.VersionAt(s, e.p, cond);
    if s.pt.Some? && s.pt.value < NPROC {
      assert W.LocksAt(s, s.pt.value);
    }
    if e.a.WakeStep? {
      assert FitAt(s, t, a, who, s.pcs[e.p].scan.i);
    }
  }

  /** An action that is a step. */
  lemma StepAt(s: W.State, e: W.Event, cond: nat -> bool, init: nat, t: P.Sys, a: nat, who: set<nat>, p: nat)
    requires W.Inv(s, cond) && W.Enabled(s, e, cond) && e.p in who && Match(s, t.procs, a, who) && StepOf(s, e, a) != [] && p < NPROC
    ensures P.Enabled(init, t, StepOf(s, e, a)[0]) && FitAt(W.Next(s, e, cond), P.Next(init, t, StepOf(s, e, a)[0]).procs, a, who, p)
  {
    assert FitAt(s, t.procs, a, who, p) && FitAt(s, t.procs, a, who, e.p);
    assert W.LocksAt(s, p) && W.LocksAt(s, e.p);
  }

  lemma SimStep(s: W.State, e: W.Event, cond: nat -> bool, init: nat, t: P.Sys, a: nat, who: set<nat>)
    requires W.Inv(s, cond) && W.Enabled(s, e, cond) && e.p in who && Match(s, t.procs, a, who)
    ensures var s' := W.Next(s, e, cond);
            if StepOf(s, e, a) == [] then Match(s', t.procs, a, who)
            else P.Enabled(init, t, StepOf(s, e, a)[0]) && Match(s', P.Next(init, t, StepOf(s, e, a)[0]).procs, a, who)
  {
    W.VersionStep(s, e, cond);
    if StepOf(s, e, a) == [] {
      forall p | 0 <= p < NPROC
        ensures FitAt(W.Next(s, e, cond), t.procs, a, who, p)
      {
        SilentAt(s, e, cond, t.procs, a, who, p);
      }
    } else {
      StepAt(s, e, cond, init, t, a, who, 0);
      forall p | 0 <= p < NPROC
        ensures FitAt(W.Next(s, e, cond), P.Next(init, t, StepOf(s, e, a)[0]).procs, a, who, p)
      {
        StepAt(s, e, cond, init, t, a, who, p);
      }
    }
  }

  // ---- Whole runs ----

  ghost predicate By(es: seq<W.Event>, who: set<nat>) {
    forall k :: 0 <= k < |es| ==> es[k].p in who
  }

  /** The steps of the table that a run of the protocol takes. */
  ghost function StepsOf(es: seq<W.Event>, cond: nat -> bool, a: nat): seq<P.Event>
    requires W.IsRun(NPROC, es, cond)
    decreases |es|
  {
    if es == [] then []
    else
      StepsOf(es[..|es| - 1], cond, a) + StepOf(W.After(NPROC, es[..|es| - 1], cond), es[|es| - 1], a)
  }

  /**
   From any state of the table in which the processes `who` are running, every run of the protocol
   by them is a run of the table, and the two agree at its end.
   */
  lemma {:induction false} Simulated(es: seq<W.Event>, cond: nat -> bool, init: nat, pre: seq<P.Event>, a: nat, who: set<nat>)
    requires W.IsRun(NPROC, es, cond) && By(es, who) && init < NPROC && P.IsRun(init, pre)
    requires forall p :: p in who ==> p < NPROC && P.Runs(P.After(init, pre).procs, p, P.Idle)
    ensures P.IsRun(init, pre + StepsOf(es, cond, a))
    ensures Match(W.After(NPROC, es, cond), P.After(init, pre + StepsOf(es, cond, a)).procs, a, who)
    decreases |es|
  {
    if es == [] {
      assert pre + [] == pre;
      var s, t := W.Start(NPROC), P.After(init, pre).procs;
      forall p | 0 <= p < NPROC
        ensures FitAt(s, t, a, who, p)
      {
      }
    } else {
      var front, e := es[..|es| - 1], es[|es| - 1];
      Simulated(front, cond, init, pre, a, who);
      W.RunInv(NPROC, front, cond);
      var s, run := W.After(NPROC, front, cond), pre + StepsOf(front, cond, a);
      SimStep(s, e, cond, init, P.After(init, run), a, who);
      var more := StepOf(s, e, a);
      assert pre + StepsOf(es, cond, a) == run + more;
      if more == [] {
        assert run + more == run;
      } else {
        assert more == [more[0]] && (run + more)[..|run + more| - 1] == run;
      }
    }
  }

  /**
   No lost wakeup in the table: whenever no wakeup is in progress, a process that the table has
   asleep on the channel has tested the condition after every change whose wakeup is finished, and
   found it false.
   */
  lemma TableLosesNoWakeup(es: seq<W.Event>, cond: nat -> bool, init: nat, pre: seq<P.Event>, a: nat, who: set<nat>, p: nat)
    requires W.IsRun(NPROC, es, cond) && By(es, who) && init < NPROC && P.IsRun(init, pre) && p in who
    requires forall q :: q in who ==> q < NPROC && P.Runs(P.After(init, pre).procs, q, P.Idle)
    requires W.After(NPROC, es, cond).pt == None
    ensures P.IsRun(init, pre + StepsOf(es, cond, a))
    ensures var s, t := W.After(NPROC, es, cond), P.After(init, pre + StepsOf(es, cond, a)).procs;
            && |s.pcs| == NPROC && (P.AsleepOn(t[p], P.Other(a)) <==> s.pcs[p].Asleep?)
            && (P.AsleepOn(t[p], P.Other(a)) ==> s.completed <= s.pcs[p].v <= s.version && !cond(s.pcs[p].v))
  {
    Simulated(es, cond, init, pre, a, who);
    W.RunInv(NPROC, es, cond);
    var s, t := W.After(NPROC, es, cond), P.After(init, pre + StepsOf(es, cond, a)).procs;
    assert FitAt(s, t, a, who, p) && W.VersionAt(s, p, cond);
  }
}
