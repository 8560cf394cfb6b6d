/**
 What the events of a run of proc.c say about each slot, without the process table: whether it is
 in use, has a CPU, sleeps or waits, has been killed, its parent, pid and priority. The table agrees
 with this after every run.
 */
module History {

  import opened Params
  import opened Proc

  // ---- Events alone ----

  /** The channel on which p has called sleep, if neither a wakeup on it nor a kill of p has come since. */
  function Slept(es: seq<Event>, p: nat): Option<nat> {
    if es == [] then None
    else
      var before := Slept(es[..|es| - 1], p);
      match es[|es| - 1]
      case Sleep(q, a) => if q == p then Some(a) else before
      case Wakeup(a) => if before == Some(a) then None else before
      case Kill(q) => if q == p then None else before
      case _ => before
  }

  /** p has been dispatched and has not given up the CPU since. */
  predicate OnCpu(es: seq<Event>, p: nat) {
    es != [] &&
    var before := OnCpu(es[..|es| - 1], p);
    match es[|es| - 1]
    case Dispatch(q) => q == p || before
    case Yield(q) => q != p && before
    case Sleep(q, _) => q != p && before
    case Wait(q) => q != p && before
    case Exit(q, _) => q != p && before
    case _ => before
  }

  /** Slot p has been killed, and no process in it has been reaped since. */
  predicate Marked(es: seq<Event>, p: nat) {
    es != [] &&
    var before := Marked(es[..|es| - 1], p);
    match es[|es| - 1]
    case Kill(q) => q == p || before
    case Reap(_, z) => z != p && before
    case _ => before
  }

  /** The slot that p's last allocproc took. */
  function LastChild(es: seq<Event>, p: nat): Option<nat> {
    if es == [] then None
    else
      match es[|es| - 1]
      case Alloc(q, c) => if q == p then Some(c) else LastChild(es[..|es| - 1], p)
      case _ => LastChild(es[..|es| - 1], p)
  }

  /** The priority last given to slot p: by setprio, by allocproc, or by fork from the parent. */
  function PrioOf(es: seq<Event>, p: nat): Prio {
    if es == [] then Norm
    else
      var before := PrioOf(es[..|es| - 1], p);
      match es[|es| - 1]
      case SetPrio(q, prio) => if q == p then prio else before
      case Alloc(_, c) => if c == p then Norm else before
      case Name(q) => if LastChild(es[..|es| - 1], q) == Some(p) then PrioOf(es[..|es| - 1], q) else before
      case _ => before
  }

  datatype Stage = Vacant | Unborn | Alive | Gone

  /** Where slot p is between an allocproc that takes it and the wait that reaps it. */
  function StageOf(init: nat, es: seq<Event>, p: nat): Stage {
    if es == [] then if p == init then Alive else Vacant
    else
      var before := StageOf(init, es[..|es| - 1], p);
      match es[|es| - 1]
      case Alloc(_, c) => if c == p then Unborn else before
      case Abort(q) => if LastChild(es[..|es| - 1], q) == Some(p) then Vacant else before
      case Commit(q) => if LastChild(es[..|es| - 1], q) == Some(p) then Alive else before
      case Exit(q, _) => if q == p then Gone else before
      case Reap(_, z) => if z == p then Vacant else before
      case _ => before
  }

  /** The process that forked p, or init since that one's exit. */
  function ParentOf(init: nat, es: seq<Event>, p: nat): Option<nat> {
    if es == [] then None
    else
      var before := ParentOf(init, es[..|es| - 1], p);
      match es[|es| - 1]
      case Name(q) => if LastChild(es[..|es| - 1], q) == Some(p) then Some(q) else before
      case Exit(q, _) => if before == Some(q) then Some(init) else before
      case Reap(_, z) => if z == p then None else before
      case _ => before
  }

  function Allocs(es: seq<Event>): nat {
    if es == [] then 0 else Allocs(es[..|es| - 1]) + if es[|es| - 1].Alloc? then 1 else 0
  }

  /** 1 for init, then 2, 3, ... in the order of allocproc; 0 once reaped. */
  function PidOf(init: nat, es: seq<Event>, p: nat): nat {
    if es == [] then if p == init then 1 else 0
    else
      match es[|es| - 1]
      case Alloc(_, c) => if c == p then Allocs(es) + 1 else PidOf(init, es[..|es| - 1], p)
      case Reap(_, z) => if z == p then 0 else PidOf(init, es[..|es| - 1], p)
      case _ => PidOf(init, es[..|es| - 1], p)
  }

  predicate LeftBy(init: nat, es: seq<Event>, z: nat, q: nat) {
    ParentOf(init, es, z) == Some(q) && StageOf(init, es, z) == Gone
  }

  /** q has a child that has exited and has not been reaped. */
  predicate Leaves(init: nat, es: seq<Event>, q: nat) {
    exists z :: 0 <= z < NPROC && LeftBy(init, es, z, q)
  }

  /** An exit of q gives p something to wait for: q itself, or for init a zombie that q leaves. */
  predicate Feeds(init: nat, es: seq<Event>, q: nat, p: nat) {
    ParentOf(init, es, q) == Some(p) || (p == init && Leaves(init, es, q))
  }

  /** p has gone to sleep in wait, and since then nobody has killed it and no exit has fed it. */
  predicate Waits(init: nat, es: seq<Event>, p: nat) {
    es != [] &&
    var before := Waits(init, es[..|es| - 1], p);
    match es[|es| - 1]
    case Wait(q) => q == p || before
    case Kill(q) => q != p && before
    case Exit(q, _) => before && !Feeds(init, es[..|es| - 1], q, p)
    case _ => before
  }

  // ---- One step of the table ----

  /** exit wakes nobody who is not in wait, and changes no mark and no priority. */
  lemma ExitedRest(t: Table, init: nat, p: nat, status: int, i: nat)
    requires FamilyInv(t, init) && Runs(t, p, Idle) && p != init && i < NPROC
    ensures var u := Exited(t, p, init, status)[i];
            && u.killed == t[i].killed && u.prio == t[i].prio && u.act == t[i].act && u.chan == t[i].chan
            && (u.state == Running <==> i != p && t[i].state == Running)
            && (u.state == Sleeping && u.act != Waiting <==> t[i].state == Sleeping && t[i].act != Waiting)
  {
    assert KinAt(t, init, i) && KinAt(t, init, p);
    ExitedAt(t, init, p, status, i);
  }

  lemma MarkStep(init: nat, s: Sys, e: Event, p: nat)
    requires FamilyInv(s.procs, init) && Enabled(init, s, e) && p < NPROC
    ensures Next(init, s, e).procs[p].killed <==>
              (e == Kill(p) || (s.procs[p].killed && !(e.Reap? && e.z == p)))
  {
    match e {
      case Exit(q, status) => ExitedRest(s.procs, init, q, status, p);
      case _ =>
    }
  }

  predicate InFork(e: Event) {
    e.Alloc? || e.Abort? || e.Name? || e.Commit?
  }

  /** The steps of fork change nobody who runs or sleeps, except for what the forking process is doing. */
  lemma ForkQuiet(init: nat, s: Sys, e: Event, p: nat)
    requires FamilyInv(s.procs, init) && Enabled(init, s, e) && InFork(e) && p < NPROC
    ensures var q, q' := s.procs[p], Next(init, s, e).procs[p];
            && (q'.state == Running <==> q.state == Running) && (q'.state == Sleeping <==> q.state == Sleeping)
            && q'.chan == q.chan && (q'.act == Waiting <==> q.act == Waiting)
  {
    assert KinAt(s.procs, init, p) && KinAt(s.procs, init, e.p);
  }

  lemma CpuStep(init: nat, s: Sys, e: Event, p: nat)
    requires FamilyInv(s.procs, init) && Enabled(init, s, e) && p < NPROC
    ensures Next(init, s, e).procs[p].state == Running <==>
              (e == Dispatch(p)
               || (s.procs[p].state == Running && e != Yield(p) && e != Wait(p) && !(e.Sleep? && e.p == p) && !(e.Exit? && e.p == p)))
  {
    if InFork(e) {
      ForkQuiet(init, s, e, p);
    } else if e.Exit? {
      ExitedRest(s.procs, init, e.p, e.status, p);
    } else {
      assert KinAt(s.procs, init, p);
    }
  }

  /** The channel of a process asleep outside wait. */
  function Asleep(q: Proc): Option<Chan> {
    if q.state == Sleeping && q.act != Waiting then q.chan else None
  }

  lemma SleepStep(init: nat, s: Sys, e: Event, p: nat)
    requires FamilyInv(s.procs, init) && Enabled(init, s, e) && p < NPROC
    ensures var q, q' := s.procs[p], Next(init, s, e).procs[p];
            Asleep(q') == if e.Sleep? && e.p == p then Some(Other(e.a))
                          else if e == Kill(p) || (e.Wakeup? && Asleep(q) == Some(Other(e.a))) then None
                          else Asleep(q)
  {
    if InFork(e) {
      ForkQuiet(init, s, e, p);
    } else if e.Exit? {
      ExitedRest(s.procs, init, e.p, e.status, p);
    } else {
      assert KinAt(s.procs, init, p);
    }
  }

  lemma ForkStep(init: nat, s: Sys, e: Event, p: nat)
    requires FamilyInv(s.procs, init) && Enabled(init, s, e) && p < NPROC && Next(init, s, e).procs[p].act.Forking?
    ensures Next(init, s, e).procs[p].act == if e.Alloc? && e.p == p then Forking(e.c) else s.procs[p].act
  {
    assert KinAt(s.procs, init, p);
    match e {
      case Exit(q, status) => ExitedRest(s.procs, init, q, status, p);
      case _ =>
    }
  }

  lemma PrioStep(init: nat, s: Sys, e: Event, p: nat)
    requires FamilyInv(s.procs, init) && Enabled(init, s, e) && p < NPROC
    ensures Next(init, s, e).procs[p].prio ==
              if e.SetPrio? && e.p == p then e.prio
              else if e.Alloc? && e.c == p then Norm
              else if e.Name? && s.procs[e.p].act == Forking(p) then s.procs[e.p].prio
              else s.procs[p].prio
  {
    match e {
      case Exit(q, status) => ExitedRest(s.procs, init, q, status, p);
      case _ =>
    }
  }

  function StageIn(q: Proc): Stage {
    match q.state
    case Unused => Vacant
    case Embryo => Unborn
    case Zombie => Gone
    case _ => Alive
  }

  lemma StageStep(init: nat, s: Sys, e: Event, p: nat)
    requires FamilyInv(s.procs, init) && Enabled(init, s, e) && p < NPROC
    ensures StageIn(Next(init, s, e).procs[p]) ==
              if e.Alloc? && e.c == p then Unborn
              else if e.Abort? && s.procs[e.p].act == Forking(p) then Vacant
              else if e.Commit? && s.procs[e.p].act == Forking(p) then Alive
              else if e.Exit? && e.p == p then Gone
              else if e.Reap? && e.z == p then Vacant
              else StageIn(s.procs[p])
  {
    if InFork(e) {
      assert KinAt(s.procs, init, e.p);
    } else if e.Exit? {
      ExitedAt(s.procs, init, e.p, e.status, p);
    }
  }

  lemma ParentStep(init: nat, s: Sys, e: Event, p: nat)
    requires FamilyInv(s.procs, init) && Enabled(init, s, e) && p < NPROC
    ensures Next(init, s, e).procs[p].parent ==
              if e.Name? && s.procs[e.p].act == Forking(p) then Some(e.p)
              else if e.Exit? && s.procs[p].parent == Some(e.p) then Some(init)
              else if e.Reap? && e.z == p then None
              else s.procs[p].parent
  {
    match e {
      case Exit(q, status) => ExitedAt(s.procs, init, q, status, p);
      case _ =>
    }
  }

  lemma PidStep(init: nat, s: Sys, e: Event, p: nat)
    requires FamilyInv(s.procs, init) && Enabled(init, s, e) && p < NPROC
    ensures Next(init, s, e).procs[p].pid ==
              if e.Alloc? && e.c == p then s.nextpid else if e.Reap? && e.z == p then 0 else s.procs[p].pid
    ensures Next(init, s, e).nextpid == s.nextpid + if e.Alloc? then 1 else 0
  {
    match e {
      case Exit(q, status) => ExitedAt(s.procs, init, q, status, p);
      case _ =>
    }
  }

  predicate InWait(q: Proc) {
    q.state == Sleeping && q.act == Waiting
  }

  /** An exit of q ends the wait of exactly its parent, and of init if q leaves it a zombie. */
  lemma ExitEndsWait(t: Table, init: nat, q: nat, status: int, p: nat)
    requires FamilyInv(t, init) && Runs(t, q, Idle) && q != init && p < NPROC
    ensures InWait(Exited(t, q, init, status)[p]) <==>
              InWait(t[p]) && t[q].parent != Some(p) && !(p == init && HasZombie(t, q))
  {
    assert KinAt(t, init, p) && KinAt(t, init, q);
    var a: Table := t[q := t[q].(status := status)];
    var b := Woken(a, OfProc(t[q].parent.value));
    assert forall z :: 0 <= z < NPROC ==> (ZombieChild(b[z], q) <==> ZombieChild(t[z], q));
  }

  lemma WaitStep(init: nat, s: Sys, e: Event, p: nat)
    requires FamilyInv(s.procs, init) && Enabled(init, s, e) && p < NPROC
    ensures InWait(Next(init, s, e).procs[p]) <==>
              || e == Wait(p)
              || (InWait(s.procs[p]) && e != Kill(p)
                  && !(e.Exit? && (s.procs[e.p].parent == Some(p) || (p == init && HasZombie(s.procs, e.p)))))
  {
    if InFork(e) {
      ForkQuiet(init, s, e, p);
    } else if e.Exit? {
      ExitEndsWait(s.procs, init, e.p, e.status, p);
    } else {
      assert KinAt(s.procs, init, p);
    }
  }

  // ---- Whole runs ----

  /** The last step of a run. */
  lemma LastStep(init: nat, es: seq<Event>)
    requires init < NPROC && IsRun(init, es) && es != []
    ensures IsRun(init, es[..|es| - 1]) && FamilyInv(After(init, es[..|es| - 1]).procs, init)
    ensures Enabled(init, After(init, es[..|es| - 1]), es[|es| - 1])
    ensures After(init, es) == Next(init, After(init, es[..|es| - 1]), es[|es| - 1])
  {
    RunInv(init, es[..|es| - 1]);
  }

  lemma {:induction false} SleepAgrees(init: nat, es: seq<Event>, p: nat)
    requires init < NPROC && p < NPROC && IsRun(init, es)
    ensures var q := After(init, es).procs[p];
            && Asleep(q) == (if Slept(es, p).Some? then Some(Other(Slept(es, p).value)) else None)
            && (q.state == Sleeping && q.act != Waiting ==> q.chan.Some?)
    decreases |es|
  {
    if es != [] {
      SleepAgrees(init, es[..|es| - 1], p);
      LastStep(init, es);
      SleepStep(init, After(init, es[..|es| - 1]), es[|es| - 1], p);
      SleeperNamed(init, After(init, es[..|es| - 1]), es[|es| - 1], p);
    }
  }

  lemma SleeperNamed(init: nat, s: Sys, e: Event, p: nat)
    requires FamilyInv(s.procs, init) && Enabled(init, s, e) && p < NPROC
    requires s.procs[p].state == Sleeping && s.procs[p].act != Waiting ==> s.procs[p].chan.Some?
    ensures var q := Next(init, s, e).procs[p]; q.state == Sleeping && q.act != Waiting ==> q.chan.Some?
  {
    if InFork(e) {
      ForkQuiet(init, s, e, p);
    } else if e.Exit? {
      ExitedRest(s.procs, init, e.p, e.status, p);
    }
  }

  /**
   After every run, a process that is not in wait is asleep exactly if it has called sleep on some
   channel and neither a wakeup on that channel nor a kill has come since: a wakeup on the channel
   ends the sleep, one on any other channel does not, and nothing else but a kill does.
   */
  lemma AsleepUntilWoken(init: nat, es: seq<Event>, p: nat)
    requires init < NPROC && p < NPROC && IsRun(init, es)
    ensures var q := After(init, es).procs[p]; q.state == Sleeping && q.act != Waiting <==> Slept(es, p).Some?
  {
    SleepAgrees(init, es, p);
  }

  /** After every run, exactly the processes that were dispatched and have not given up the CPU are running. */
  lemma {:induction false} RunsFromDispatch(init: nat, es: seq<Event>, p: nat)
    requires init < NPROC && p < NPROC && IsRun(init, es)
    ensures After(init, es).procs[p].state == Running <==> OnCpu(es, p)
    decreases |es|
  {
    if es != [] {
      RunsFromDispatch(init, es[..|es| - 1], p);
      LastStep(init, es);
      CpuStep(init, After(init, es[..|es| - 1]), es[|es| - 1], p);
    }
  }

  /** After every run, exactly the slots killed since their last reap are marked: fork does not clear the mark. */
  lemma {:induction false} KilledUntilReaped(init: nat, es: seq<Event>, p: nat)
    requires init < NPROC && p < NPROC && IsRun(init, es)
    ensures After(init, es).procs[p].killed <==> Marked(es, p)
    decreases |es|
  {
    if es != [] {
      KilledUntilReaped(init, es[..|es| - 1], p);
      LastStep(init, es);
      MarkStep(init, After(init, es[..|es| - 1]), es[|es| - 1], p);
    }
  }

  /** A fork in progress is for the slot that the last allocproc took. */
  lemma {:induction false} ForksLast(init: nat, es: seq<Event>, p: nat)
    requires init < NPROC && p < NPROC && IsRun(init, es) && After(init, es).procs[p].act.Forking?
    ensures LastChild(es, p) == Some(After(init, es).procs[p].act.child)
    decreases |es|
  {
    if es != [] {
      LastStep(init, es);
      ForkStep(init, After(init, es[..|es| - 1]), es[|es| - 1], p);
      if !(es[|es| - 1].Alloc? && es[|es| - 1].p == p) {
        ForksLast(init, es[..|es| - 1], p);
      }
    }
  }

  /** After every run, the priority of every slot is the one last given to it. */
  lemma {:induction false} PrioAsGiven(init: nat, es: seq<Event>, p: nat)
    requires init < NPROC && p < NPROC && IsRun(init, es)
    ensures After(init, es).procs[p].prio == PrioOf(es, p)
    decreases |es|
  {
    if es != [] {
      PrioAsGiven(init, es[..|es| - 1], p);
      LastStep(init, es);
      PrioStep(init, After(init, es[..|es| - 1]), es[|es| - 1], p);
      if es[|es| - 1].Name? {
        ForksLast(init, es[..|es| - 1], es[|es| - 1].p);
        PrioAsGiven(init, es[..|es| - 1], es[|es| - 1].p);
      }
    }
  }

  /** After every run, every slot is unused, embryo, zombie or live as the events say. */
  lemma {:induction false} StageAsGiven(init: nat, es: seq<Event>, p: nat)
    requires init < NPROC && p < NPROC && IsRun(init, es)
    ensures StageIn(After(init, es).procs[p]) == StageOf(init, es, p)
    decreases |es|
  {
    if es != [] {
      var e := es[|es| - 1];
      StageAsGiven(init, es[..|es| - 1], p);
      LastStep(init, es);
      StageStep(init, After(init, es[..|es| - 1]), e, p);
      if e.Abort? || e.Commit? {
        ForksLast(init, es[..|es| - 1], e.p);
      }
    }
  }

  /** After every run, the parent of every slot is the process that forked it, or init if that one has exited. */
  lemma {:induction false} ParentAsGiven(init: nat, es: seq<Event>, p: nat)
    requires init < NPROC && p < NPROC && IsRun(init, es)
    ensures After(init, es).procs[p].parent == ParentOf(init, es, p)
    decreases |es|
  {
    if es != [] {
      var e := es[|es| - 1];
      ParentAsGiven(init, es[..|es| - 1], p);
      LastStep(init, es);
      ParentStep(init, After(init, es[..|es| - 1]), e, p);
      if e.Name? {
        ForksLast(init, es[..|es| - 1], e.p);
      }
    }
  }

  /** After every run, the pids are those counted out by allocproc. */
  lemma {:induction false} PidAsGiven(init: nat, es: seq<Event>, p: nat)
    requires init < NPROC && p < NPROC && IsRun(init, es)
    ensures After(init, es).procs[p].pid == PidOf(init, es, p)
    ensures After(init, es).nextpid == Allocs(es) + 2
    decreases |es|
  {
    if es != [] {
      PidAsGiven(init, es[..|es| - 1], p);
      LastStep(init, es);
      PidStep(init, After(init, es[..|es| - 1]), es[|es| - 1], p);
    }
  }

  /** After a run, the events say who has a zombie child. */
  lemma ZombiesAsGiven(init: nat, es: seq<Event>, q: nat)
    requires init < NPROC && q < NPROC && IsRun(init, es)
    ensures HasZombie(After(init, es).procs, q) <==> Leaves(init, es, q)
  {
    var t := After(init, es).procs;
    forall z | 0 <= z < NPROC ensures ZombieChild(t[z], q) <==> LeftBy(init, es, z, q) {
      ParentAsGiven(init, es, z);
      StageAsGiven(init, es, z);
    }
  }

  /**
   After every run, a process is asleep in wait exactly if it went to sleep there and since then
   nobody killed it and no exit gave it a zombie, its own child's or, for init, an orphan's.
   */
  lemma {:induction false} WaitsUntilFed(init: nat, es: seq<Event>, p: nat)
    requires init < NPROC && p < NPROC && IsRun(init, es)
    ensures InWait(After(init, es).procs[p]) <==> Waits(init, es, p)
    decreases |es|
  {
    if es != [] {
      var e := es[|es| - 1];
      WaitsUntilFed(init, es[..|es| - 1], p);
      LastStep(init, es);
      WaitStep(init, After(init, es[..|es| - 1]), e, p);
      if e.Exit? {
        ParentAsGiven(init, es[..|es| - 1], e.p);
        ZombiesAsGiven(init, es[..|es| - 1], e.p);
      }
    }
  }
}
