/**
 The process table of proc.c as a state machine: fork, exit, wait, sleep, wakeup, kill and
 dispatch, one step per critical section of ptable.lock, for every interleaving.
 */
module Proc {

  import opened Params

  datatype RunState = Unused | Embryo | Sleeping | Runnable | Running | Zombie

  datatype Prio = Norm | Hi

  /** What a process sleeps on: a process slot (wait) or any other address. */
  datatype Chan = OfProc(p: nat) | Other(a: nat)

  /** Where the process's kernel thread is: between fork's allocproc and its end, in wait, or elsewhere. */
  datatype Activity = Idle | Forking(child: nat) | Waiting

  datatype Proc = Proc(state: RunState, pid: nat, parent: Option<nat>, chan: Option<Chan>,
                       killed: bool, status: int, prio: Prio, act: Activity)

  type Table = t: seq<Proc> | |t| == NPROC
    witness seq(NPROC, _ => Proc(Unused, 0, None, None, false, 0, Norm, Idle))

  predicate Live(p: Proc) {
    p.state == Sleeping || p.state == Runnable || p.state == Running
  }

  // ---- What the critical sections compute ----

  predicate AsleepOn(p: Proc, chan: Chan) {
    p.state == Sleeping && p.chan == Some(chan)
  }

  /** wakeup1 */
  function Woken(t: Table, chan: Chan): (r: Table)
    ensures forall i :: 0 <= i < NPROC ==> r[i] == if AsleepOn(t[i], chan) then t[i].(state := Runnable) else t[i]
  {
    seq(NPROC, i requires 0 <= i < NPROC => if AsleepOn(t[i], chan) then t[i].(state := Runnable) else t[i])
  }

  predicate ZombieChild(p: Proc, of: nat) {
    p.parent == Some(of) && p.state == Zombie
  }

  /** exit: pass the children of cur to init, and wake init if one of them is a zombie. */
  function Adopted(t: Table, cur: nat, init: nat): (r: Table)
    ensures forall i :: 0 <= i < NPROC ==>
              r[i] == (var q := if t[i].parent == Some(cur) then t[i].(parent := Some(init)) else t[i];
                       if AsleepOn(q, OfProc(init)) && (exists z :: 0 <= z < NPROC && ZombieChild(t[z], cur))
                       then q.(state := Runnable) else q)
  {
    var q := seq(NPROC, i requires 0 <= i < NPROC => if t[i].parent == Some(cur) then t[i].(parent := Some(init)) else t[i]);
    if exists z :: 0 <= z < NPROC && ZombieChild(t[z], cur) then Woken(q, OfProc(init)) else q
  }

  /** exit, from the assignment of exit_status to sched; no process sleeps on a null parent. */
  function Exited(t: Table, cur: nat, init: nat, status: int): (r: Table)
    requires cur < NPROC
  {
    var a := t[cur := t[cur].(status := status)];
    var b := if t[cur].parent.Some? then Woken(a, OfProc(t[cur].parent.value)) else a;
    var c := Adopted(b, cur, init);
    c[cur := c[cur].(state := Zombie)]
  }

  /** wait found zombie z. */
  function Reaped(t: Table, z: nat): (r: Table)
    requires z < NPROC
  {
    t[z := t[z].(pid := 0, parent := None, killed := false, state := Unused)]
  }

  // ---- The machine ----

  /** `exits` records the status of every exit, `reaps` every (pid, status) that wait returned. */
  datatype Sys = Sys(procs: Table, nextpid: nat, exits: map<nat, int>, reaps: seq<(nat, int)>)

  datatype Event =
    | Alloc(p: nat, c: nat)        // fork: allocproc finds slot c
    | Abort(p: nat)                // fork: out of memory
    | Name(p: nat)                 // fork: sets the child's parent and priority
    | Commit(p: nat)               // fork: makes the child runnable
    | Exit(p: nat, status: int)
    | Reap(p: nat, z: nat)         // wait: a zombie child
    | NoWait(p: nat)               // wait: returns -1
    | Wait(p: nat)                 // wait: goes to sleep
    | Sleep(p: nat, a: nat)
    | Wakeup(a: nat)
    | Kill(p: nat)
    | SetPrio(p: nat, prio: Prio)
    | Yield(p: nat)
    | Dispatch(p: nat)

  predicate HasChild(t: Table, p: nat) {
    exists c :: 0 <= c < NPROC && t[c].parent == Some(p)
  }

  predicate HasZombie(t: Table, p: nat) {
    exists c :: 0 <= c < NPROC && ZombieChild(t[c], p)
  }

  predicate Runs(t: Table, p: nat, act: Activity) {
    p < NPROC && t[p].state == Running && t[p].act == act
  }

  predicate MayWait(t: Table, p: nat) {
    Runs(t, p, Idle) || Runs(t, p, Waiting)
  }

  predicate Enabled(init: nat, s: Sys, e: Event) {
    var t := s.procs;
    match e
    case Alloc(p, c) => Runs(t, p, Idle) && c < NPROC && t[c].state == Unused
    case Abort(p) => p < NPROC && t[p].state == Running && t[p].act.Forking? && t[p].act.child < NPROC && t[t[p].act.child].parent == None
    case Name(p) => p < NPROC && t[p].state == Running && t[p].act.Forking? && t[p].act.child < NPROC
    case Commit(p) => p < NPROC && t[p].state == Running && t[p].act.Forking? && t[p].act.child < NPROC && t[t[p].act.child].parent == Some(p)
    case Exit(p, _) => Runs(t, p, Idle) && p != init
    case Reap(p, z) => MayWait(t, p) && z < NPROC && ZombieChild(t[z], p)
    case NoWait(p) => MayWait(t, p) && !HasZombie(t, p) && (!HasChild(t, p) || t[p].killed)
    case Wait(p) => MayWait(t, p) && !HasZombie(t, p) && HasChild(t, p) && !t[p].killed
    case Sleep(p, _) => p < NPROC && t[p].state == Running && t[p].act != Waiting
    case Wakeup(_) => true
    case Kill(p) => p < NPROC
    case SetPrio(p, _) => p < NPROC
    case Yield(p) => p < NPROC && t[p].state == Running && t[p].act != Waiting
    case Dispatch(p) => p < NPROC && t[p].state == Runnable
  }

  function Next(init: nat, s: Sys, e: Event): Sys
    requires Enabled(init, s, e)
  {
    var t := s.procs;
    match e
    case Alloc(p, c) =>
      s.(procs := t[c := t[c].(state := Embryo, pid := s.nextpid, prio := Norm)][p := t[p].(act := Forking(c))],
         nextpid := s.nextpid + 1)
    case Abort(p) =>
      var c := t[p].act.child;
      s.(procs := t[c := t[c].(state := Unused)][p := t[p].(act := Idle)])
    case Name(p) =>
      var c := t[p].act.child;
      s.(procs := t[c := t[c].(parent := Some(p), prio := t[p].prio)])
    case Commit(p) =>
      var c := t[p].act.child;
      s.(procs := t[c := t[c].(state := Runnable)][p := t[p].(act := Idle)])
    case Exit(p, status) =>
      s.(procs := Exited(t, p, init, status), exits := s.exits[t[p].pid := status])
    case Reap(p, z) =>
      s.(procs := Reaped(t, z)[p := t[p].(act := Idle)], reaps := s.reaps + [(t[z].pid, t[z].status)])
    case NoWait(p) =>
      s.(procs := t[p := t[p].(act := Idle)])
    case Wait(p) =>
      s.(procs := t[p := t[p].(state := Sleeping, chan := Some(OfProc(p)), act := Waiting)])
    case Sleep(p, a) =>
      s.(procs := t[p := t[p].(state := Sleeping, chan := Some(Other(a)))])
    case Wakeup(a) =>
      s.(procs := Woken(t, Other(a)))
    case Kill(p) =>
      s.(procs := t[p := t[p].(killed := true, state := if t[p].state == Sleeping then Runnable else t[p].state)])
    case SetPrio(p, prio) =>
      s.(procs := t[p := t[p].(prio := prio)])
    case Yield(p) =>
      s.(procs := t[p := t[p].(state := Runnable)])
    case Dispatch(p) =>
      s.(procs := t[p := t[p].(state := Running, chan := None)])
  }

  // ---- The invariant, slot by slot ----

  /** No process asleep in wait has a zombie child. */
  ghost predicate WaiterAt(t: Table, w: nat)
    requires w < NPROC
  {
    AsleepOn(t[w], OfProc(w)) ==> !HasZombie(t, w)
  }

  /** Parents of processes, forks in progress, and channels make sense. */
  ghost predicate KinAt(t: Table, init: nat, c: nat)
    requires c < NPROC
  {
    && (t[c].parent.Some? ==> t[c].parent.value < NPROC && t[c].parent.value != c && Live(t[t[c].parent.value]))
    && ((Live(t[c]) || t[c].state == Zombie) && c != init ==> t[c].parent.Some?)
    && (t[c].state == Unused ==> t[c].parent == None)
    && (t[c].state == Embryo && t[c].parent.Some? ==> t[t[c].parent.value].act == Forking(c))
    && (t[c].act.Forking? ==> t[c].act.child < NPROC && t[t[c].act.child].state == Embryo && Live(t[c]))
    && (forall x :: t[c].state == Sleeping && t[c].chan == Some(OfProc(x)) ==> x == c && t[c].act == Waiting)
    && (t[c].state == Zombie || t[c].state == Unused || t[c].state == Embryo ==> t[c].act == Idle)
    && (t[c].act == Waiting && t[c].state == Sleeping ==> t[c].chan == Some(OfProc(c)))
  }

  ghost predicate ForksApart(t: Table) {
    forall p, q :: 0 <= p < q < NPROC && t[p].act.Forking? && t[q].act.Forking? ==> t[p].act != t[q].act
  }

  ghost predicate FamilyInv(t: Table, init: nat) {
    && init < NPROC && Live(t[init]) && t[init].parent == None
    && ForksApart(t)
    && (forall c {:trigger KinAt(t, init, c)} :: 0 <= c < NPROC ==> KinAt(t, init, c))
    && (forall w {:trigger WaiterAt(t, w)} :: 0 <= w < NPROC ==> WaiterAt(t, w))
  }

  /** One process in wait, sleep or fork changes only itself: not its parent, and it stays live. */
  lemma OwnStep(t: Table, init: nat, p: nat, q: Proc)
    requires FamilyInv(t, init) && p < NPROC
    requires q.parent == t[p].parent
    requires (Live(t[p]) && Live(q)) || q.state == t[p].state
    requires q.act == t[p].act || (Live(q) && !t[p].act.Forking? && !q.act.Forking?)
    requires q.state == Sleeping && q.chan.Some? && q.chan.value.OfProc? ==>
               q.chan.value.p == p && q.act == Waiting && (AsleepOn(t[p], OfProc(p)) || !HasZombie(t, p))
    requires q.act == Waiting && q.state == Sleeping ==> q.chan == Some(OfProc(p))
    ensures FamilyInv(t[p := q], init)
  {
    var u: Table := t[p := q];
    forall c {:trigger KinAt(u, init, c)} | 0 <= c < NPROC ensures KinAt(u, init, c) {
      assert KinAt(t, init, c) && KinAt(t, init, p);
    }
    forall w {:trigger WaiterAt(u, w)} | 0 <= w < NPROC ensures WaiterAt(u, w) {
      assert WaiterAt(t, w) && WaiterAt(t, p);
      assert forall z :: 0 <= z < NPROC ==> ZombieChild(u[z], w) == ZombieChild(t[z], w);
    }
  }

  lemma AllocStep(t: Table, init: nat, p: nat, c: nat, pid: nat)
    requires FamilyInv(t, init) && Runs(t, p, Idle) && c < NPROC && t[c].state == Unused
    ensures FamilyInv(t[c := t[c].(state := Embryo, pid := pid, prio := Norm)][p := t[p].(act := Forking(c))], init)
  {
    var u: Table := t[c := t[c].(state := Embryo, pid := pid, prio := Norm)][p := t[p].(act := Forking(c))];
    assert KinAt(t, init, p) && KinAt(t, init, c);
    forall i {:trigger KinAt(u, init, i)} | 0 <= i < NPROC ensures KinAt(u, init, i) {
      assert KinAt(t, init, i);
    }
    forall w {:trigger WaiterAt(u, w)} | 0 <= w < NPROC ensures WaiterAt(u, w) {
      assert WaiterAt(t, w);
      assert forall z :: 0 <= z < NPROC ==> ZombieChild(u[z], w) == ZombieChild(t[z], w);
    }
    forall i, j | 0 <= i < j < NPROC && u[i].act.Forking? && u[j].act.Forking? ensures u[i].act != u[j].act {
      assert KinAt(t, init, i) && KinAt(t, init, j);
    }
  }

  /** A fork in progress: p's child c becomes q, and the fork is over if `done`. */
  ghost function ChildChange(t: Table, p: nat, c: nat, q: Proc, done: bool): Table
    requires p < NPROC && c < NPROC
  {
    t[c := q][p := if done then t[p].(act := Idle) else t[p]]
  }

  /** The child stays an embryo, or becomes runnable with a parent, or is given up without one. */
  predicate ChildMay(t: Table, p: nat, c: nat, q: Proc, done: bool) {
    && p < NPROC && c < NPROC && t[p].state == Running && t[p].act == Forking(c)
    && q.act == t[c].act && (q.parent == t[c].parent || q.parent == Some(p))
    && q.state == if !done then Embryo else if q.parent.Some? then Runnable else Unused
  }

  lemma ChildKin(t: Table, init: nat, p: nat, c: nat, q: Proc, done: bool, i: nat)
    requires FamilyInv(t, init) && ChildMay(t, p, c, q, done) && i < NPROC
    ensures KinAt(ChildChange(t, p, c, q, done), init, i)
  {
    assert KinAt(t, init, p) && KinAt(t, init, c) && KinAt(t, init, i);
    assert i != p ==> t[i].act != Forking(c);
  }

  lemma ChildStep(t: Table, init: nat, p: nat, c: nat, q: Proc, done: bool)
    requires FamilyInv(t, init) && ChildMay(t, p, c, q, done)
    ensures FamilyInv(ChildChange(t, p, c, q, done), init)
  {
    var u := ChildChange(t, p, c, q, done);
    assert KinAt(t, init, p) && KinAt(t, init, c);
    forall i {:trigger KinAt(u, init, i)} | 0 <= i < NPROC ensures KinAt(u, init, i) {
      ChildKin(t, init, p, c, q, done, i);
    }
    forall w {:trigger WaiterAt(u, w)} | 0 <= w < NPROC ensures WaiterAt(u, w) {
      assert WaiterAt(t, w);
      assert forall z :: 0 <= z < NPROC ==> ZombieChild(u[z], w) == ZombieChild(t[z], w);
    }
  }

  lemma ReapStep(t: Table, init: nat, p: nat, z: nat)
    requires FamilyInv(t, init) && MayWait(t, p) && z < NPROC && ZombieChild(t[z], p)
    ensures FamilyInv(Reaped(t, z)[p := t[p].(act := Idle)], init)
  {
    var u: Table := Reaped(t, z)[p := t[p].(act := Idle)];
    assert KinAt(t, init, p) && KinAt(t, init, z);
    forall i {:trigger KinAt(u, init, i)} | 0 <= i < NPROC ensures KinAt(u, init, i) {
      assert KinAt(t, init, i);
    }
    forall w {:trigger WaiterAt(u, w)} | 0 <= w < NPROC ensures WaiterAt(u, w) {
      assert WaiterAt(t, w);
      assert forall c :: 0 <= c < NPROC && ZombieChild(u[c], w) ==> ZombieChild(t[c], w);
    }
  }

  lemma WakeupStep(t: Table, init: nat, a: nat)
    requires FamilyInv(t, init)
    ensures FamilyInv(Woken(t, Other(a)), init)
  {
    var u := Woken(t, Other(a));
    forall i {:trigger KinAt(u, init, i)} | 0 <= i < NPROC ensures KinAt(u, init, i) {
      assert KinAt(t, init, i);
    }
    forall w {:trigger WaiterAt(u, w)} | 0 <= w < NPROC ensures WaiterAt(u, w) {
      assert WaiterAt(t, w);
      assert forall z :: 0 <= z < NPROC ==> ZombieChild(u[z], w) == ZombieChild(t[z], w);
    }
  }

  /** What exit does to one slot: only wakes it or moves it to init, except for the exiting process. */
  lemma ExitedAt(t: Table, init: nat, p: nat, status: int, i: nat)
    requires FamilyInv(t, init) && Runs(t, p, Idle) && p != init && i < NPROC
    ensures var u := Exited(t, p, init, status);
            && t[p].parent.Some?
            && u[i].parent == (if t[i].parent == Some(p) then Some(init) else t[i].parent)
            && u[i].act == t[i].act && u[i].chan == t[i].chan && u[i].pid == t[i].pid
            && (i != p ==> u[i].status == t[i].status)
            && (i == p ==> u[i].state == Zombie && u[i].status == status)
            && (i != p ==> u[i].state == t[i].state || (t[i].state == Sleeping && u[i].state == Runnable))
            && (AsleepOn(u[i], OfProc(i)) ==> AsleepOn(t[i], OfProc(i)) && t[p].parent != Some(i))
  {
    assert KinAt(t, init, p);
  }

  /** If exit passes a zombie to init, init is awake afterwards. */
  lemma ExitWakesInit(t: Table, init: nat, p: nat, status: int, z: nat)
    requires FamilyInv(t, init) && Runs(t, p, Idle) && p != init && z < NPROC && ZombieChild(t[z], p)
    ensures !AsleepOn(Exited(t, p, init, status)[init], OfProc(init))
  {
    assert KinAt(t, init, p);
    var a: Table := t[p := t[p].(status := status)];
    var b := Woken(a, OfProc(t[p].parent.value));
    assert ZombieChild(b[z], p);
  }

  lemma ExitStep(t: Table, init: nat, p: nat, status: int)
    requires FamilyInv(t, init) && Runs(t, p, Idle) && p != init
    ensures FamilyInv(Exited(t, p, init, status), init)
  {
    var u := Exited(t, p, init, status);
    forall i | 0 <= i < NPROC ensures Kept(t, u, init, p, i) {
      ExitedAt(t, init, p, status, i);
    }
    ExitKin(t, u, init, p);
    forall w {:trigger WaiterAt(u, w)} | 0 <= w < NPROC ensures WaiterAt(u, w) {
      assert Kept(t, u, init, p, w) && WaiterAt(t, w);
      forall z | 0 <= z < NPROC ensures AsleepOn(u[w], OfProc(w)) ==> !ZombieChild(u[z], w) {
        assert Kept(t, u, init, p, z) && KinAt(t, init, p);
        if ZombieChild(t[z], p) {
          ExitWakesInit(t, init, p, status, z);
        }
      }
    }
  }

  ghost predicate Kept(t: Table, u: Table, init: nat, p: nat, i: nat)
    requires i < NPROC && p < NPROC
  {
    && u[i].parent == (if t[i].parent == Some(p) then Some(init) else t[i].parent)
    && u[i].act == t[i].act && u[i].chan == t[i].chan
    && (i == p ==> u[i].state == Zombie)
    && (i != p ==> u[i].state == t[i].state || (t[i].state == Sleeping && u[i].state == Runnable))
    && (AsleepOn(u[i], OfProc(i)) ==> AsleepOn(t[i], OfProc(i)) && t[p].parent != Some(i))
  }

  lemma ExitKin(t: Table, u: Table, init: nat, p: nat)
    requires FamilyInv(t, init) && Runs(t, p, Idle) && p != init
    requires forall i {:trigger Kept(t, u, init, p, i)} :: 0 <= i < NPROC ==> Kept(t, u, init, p, i)
    ensures Live(u[init]) && u[init].parent == None && ForksApart(u)
    ensures forall c {:trigger KinAt(u, init, c)} :: 0 <= c < NPROC ==> KinAt(u, init, c)
  {
    assert Kept(t, u, init, p, init) && Kept(t, u, init, p, p) && KinAt(t, init, p);
    forall c {:trigger KinAt(u, init, c)} | 0 <= c < NPROC ensures KinAt(u, init, c) {
      assert KinAt(t, init, c) && Kept(t, u, init, p, c);
      if t[c].parent.Some? { assert Kept(t, u, init, p, t[c].parent.value); }
      if t[c].act.Forking? { assert Kept(t, u, init, p, t[c].act.child); }
    }
    forall i, j | 0 <= i < j < NPROC && u[i].act.Forking? && u[j].act.Forking? ensures u[i].act != u[j].act {
      assert Kept(t, u, init, p, i) && Kept(t, u, init, p, j);
    }
  }

  lemma ForkSteps(init: nat, s: Sys, e: Event)
    requires FamilyInv(s.procs, init) && Enabled(init, s, e)
    requires e.Alloc? || e.Abort? || e.Name? || e.Commit?
    ensures FamilyInv(Next(init, s, e).procs, init)
  {
    var t := s.procs;
    match e
    case Alloc(p, c) => AllocStep(t, init, p, c, s.nextpid);
    case Abort(p) => ChildStep(t, init, p, t[p].act.child, t[t[p].act.child].(state := Unused), true);
    case Name(p) =>
      var c := t[p].act.child;
      assert KinAt(t, init, p);
      var q := t[c].(parent := Some(p), prio := t[p].prio);
      ChildStep(t, init, p, c, q, false);
      assert t[c := q][p := t[p]] == t[c := q];
    case Commit(p) => ChildStep(t, init, p, t[p].act.child, t[t[p].act.child].(state := Runnable), true);
  }

  lemma OwnSteps(init: nat, s: Sys, e: Event)
    requires FamilyInv(s.procs, init) && Enabled(init, s, e)
    requires e.NoWait? || e.Wait? || e.Sleep? || e.Kill? || e.SetPrio? || e.Yield? || e.Dispatch?
    ensures FamilyInv(Next(init, s, e).procs, init)
  {
    var t := s.procs;
    assert KinAt(t, init, e.p);
    match e
    case NoWait(p) => OwnStep(t, init, p, t[p].(act := Idle));
    case Wait(p) => OwnStep(t, init, p, t[p].(state := Sleeping, chan := Some(OfProc(p)), act := Waiting));
    case Sleep(p, a) => OwnStep(t, init, p, t[p].(state := Sleeping, chan := Some(Other(a))));
    case Kill(p) =>
      OwnStep(t, init, p, t[p].(killed := true, state := if t[p].state == Sleeping then Runnable else t[p].state));
    case SetPrio(p, prio) => OwnStep(t, init, p, t[p].(prio := prio));
    case Yield(p) => OwnStep(t, init, p, t[p].(state := Runnable));
    case Dispatch(p) => OwnStep(t, init, p, t[p].(state := Running, chan := None));
  }

  /** Every step keeps the family invariant. */
  lemma FamilyStep(init: nat, s: Sys, e: Event)
    requires FamilyInv(s.procs, init) && Enabled(init, s, e)
    ensures FamilyInv(Next(init, s, e).procs, init)
  {
    match e
    case Exit(p, status) => ExitStep(s.procs, init, p, status);
    case Reap(p, z) => ReapStep(s.procs, init, p, z);
    case Wakeup(a) => WakeupStep(s.procs, init, a);
    case _ => if e.Alloc? || e.Abort? || e.Name? || e.Commit? { ForkSteps(init, s, e); } else { OwnSteps(init, s, e); }
  }

  // ---- Process identifiers, exits and reaps ----

  ghost predicate PidAt(s: Sys, i: nat)
    requires i < NPROC
  {
    var p := s.procs[i];
    && (p.state != Unused ==> 0 < p.pid < s.nextpid)
    && (p.state != Unused && p.state != Zombie ==> p.pid !in s.exits)
    && (p.state == Zombie ==> p.pid in s.exits && s.exits[p.pid] == p.status && !IsReaped(s, p.pid))
  }

  ghost predicate IsReaped(s: Sys, pid: nat) {
    exists k :: 0 <= k < |s.reaps| && s.reaps[k].0 == pid
  }

  predicate IsZombie(t: Table, pid: nat) {
    exists z :: 0 <= z < NPROC && t[z].state == Zombie && t[z].pid == pid
  }

  ghost predicate PidsApart(t: Table) {
    forall i, j :: 0 <= i < j < NPROC && t[i].state != Unused && t[j].state != Unused ==> t[i].pid != t[j].pid
  }

  /** No two processes share a pid; every exit is either still a zombie or was returned once, with its status. */
  ghost predicate LedgerInv(s: Sys) {
    && s.nextpid > 0
    && PidsApart(s.procs)
    && (forall i {:trigger PidAt(s, i)} :: 0 <= i < NPROC ==> PidAt(s, i))
    && (forall pid :: pid in s.exits ==> pid < s.nextpid && (IsReaped(s, pid) || IsZombie(s.procs, pid)))
    && (forall k :: 0 <= k < |s.reaps| ==> s.reaps[k].0 in s.exits && s.exits[s.reaps[k].0] == s.reaps[k].1)
    && (forall j, k :: 0 <= j < k < |s.reaps| ==> s.reaps[j].0 != s.reaps[k].0)
  }

  /** The part of a slot the ledger speaks of is the same, or the slot is given up unexited. */
  predicate SameFace(p: Proc, q: Proc) {
    && (p.state == Zombie <==> q.state == Zombie)
    && (q.state != Unused ==> p.state != Unused && q.pid == p.pid && q.status == p.status)
  }

  lemma SameLedger(s: Sys, t: Table)
    requires LedgerInv(s)
    requires forall i :: 0 <= i < NPROC ==> SameFace(s.procs[i], t[i])
    ensures LedgerInv(s.(procs := t))
  {
    var u := s.(procs := t);
    forall i {:trigger PidAt(u, i)} | 0 <= i < NPROC ensures PidAt(u, i) {
      assert PidAt(s, i) && SameFace(s.procs[i], t[i]);
      assert IsReaped(u, t[i].pid) == IsReaped(s, t[i].pid);
    }
    forall pid | pid in s.exits ensures IsReaped(u, pid) || IsZombie(t, pid) {
      if IsReaped(s, pid) {
        var k :| 0 <= k < |s.reaps| && s.reaps[k].0 == pid;
        assert u.reaps[k].0 == pid;
      } else {
        var z :| 0 <= z < NPROC && s.procs[z].state == Zombie && s.procs[z].pid == pid;
        assert SameFace(s.procs[z], t[z]);
      }
    }
  }

  lemma AllocLedger(init: nat, s: Sys, p: nat, c: nat)
    requires LedgerInv(s) && Enabled(init, s, Alloc(p, c))
    ensures LedgerInv(Next(init, s, Alloc(p, c)))
  {
    var u := Next(init, s, Alloc(p, c));
    forall i {:trigger PidAt(u, i)} | 0 <= i < NPROC ensures PidAt(u, i) {
      assert PidAt(s, i);
      assert IsReaped(u, u.procs[i].pid) == IsReaped(s, u.procs[i].pid);
    }
    forall pid | pid in s.exits ensures IsReaped(u, pid) || IsZombie(u.procs, pid) {
      if !IsReaped(u, pid) {
        assert IsReaped(u, pid) == IsReaped(s, pid);
        var z :| 0 <= z < NPROC && s.procs[z].state == Zombie && s.procs[z].pid == pid;
        assert u.procs[z].state == Zombie && u.procs[z].pid == pid;
      }
    }
    forall i, j | 0 <= i < j < NPROC && u.procs[i].state != Unused && u.procs[j].state != Unused
      ensures u.procs[i].pid != u.procs[j].pid
    {
      assert PidAt(s, i) && PidAt(s, j);
    }
  }

  lemma ExitLedger(init: nat, s: Sys, p: nat, status: int)
    requires FamilyInv(s.procs, init) && LedgerInv(s) && Enabled(init, s, Exit(p, status))
    ensures LedgerInv(Next(init, s, Exit(p, status)))
  {
    var u := Next(init, s, Exit(p, status));
    var pid := s.procs[p].pid;
    assert PidAt(s, p);
    forall i | 0 <= i < NPROC
      ensures u.procs[i].pid == s.procs[i].pid
      ensures i != p ==> SameFace(s.procs[i], u.procs[i])
      ensures i == p ==> u.procs[i].state == Zombie && u.procs[i].status == status
    {
      ExitedAt(s.procs, init, p, status, i);
    }
    assert !IsReaped(s, pid);
    forall i {:trigger PidAt(u, i)} | 0 <= i < NPROC ensures PidAt(u, i) {
      assert PidAt(s, i);
      assert IsReaped(u, u.procs[i].pid) == IsReaped(s, u.procs[i].pid);
    }
    forall x | x in u.exits ensures x < u.nextpid && (IsReaped(u, x) || IsZombie(u.procs, x)) {
      assert IsReaped(u, x) == IsReaped(s, x);
      if x == pid {
        assert u.procs[p].state == Zombie && u.procs[p].pid == x;
      } else if !IsReaped(s, x) {
        var z :| 0 <= z < NPROC && s.procs[z].state == Zombie && s.procs[z].pid == x;
        assert u.procs[z].state == Zombie && u.procs[z].pid == x;
      }
    }
  }

  lemma ReapedNow(s: Sys, u: Sys, pid: nat, status: int, x: nat)
    requires u.reaps == s.reaps + [(pid, status)]
    ensures IsReaped(u, x) == (IsReaped(s, x) || x == pid)
  {
    assert u.reaps[|s.reaps|].0 == pid;
    if IsReaped(s, x) {
      var k :| 0 <= k < |s.reaps| && s.reaps[k].0 == x;
      assert u.reaps[k].0 == x;
    }
  }

  lemma ReapPid(init: nat, s: Sys, p: nat, z: nat, i: nat)
    requires FamilyInv(s.procs, init) && LedgerInv(s) && Enabled(init, s, Reap(p, z)) && i < NPROC
    ensures PidAt(Next(init, s, Reap(p, z)), i)
  {
    assert PidAt(s, i) && PidAt(s, z);
    var u := Next(init, s, Reap(p, z));
    ReapedNow(s, u, s.procs[z].pid, s.procs[z].status, u.procs[i].pid);
  }

  lemma ReapLedger(init: nat, s: Sys, p: nat, z: nat)
    requires FamilyInv(s.procs, init) && LedgerInv(s) && Enabled(init, s, Reap(p, z))
    ensures LedgerInv(Next(init, s, Reap(p, z)))
  {
    var u := Next(init, s, Reap(p, z));
    assert PidAt(s, z);
    forall i {:trigger PidAt(u, i)} | 0 <= i < NPROC ensures PidAt(u, i) {
      ReapPid(init, s, p, z, i);
    }
    forall x | x in u.exits ensures IsReaped(u, x) || IsZombie(u.procs, x) {
      ReapedNow(s, u, s.procs[z].pid, s.procs[z].status, x);
      if !IsReaped(u, x) {
        var y :| 0 <= y < NPROC && s.procs[y].state == Zombie && s.procs[y].pid == x;
        assert u.procs[y].state == Zombie && u.procs[y].pid == x;
      }
    }
    forall j, k | 0 <= j < k < |u.reaps| ensures u.reaps[j].0 != u.reaps[k].0 {
      assert k == |s.reaps| ==> s.reaps[j].0 != s.procs[z].pid;
    }
  }

  lemma LedgerStep(init: nat, s: Sys, e: Event)
    requires FamilyInv(s.procs, init) && LedgerInv(s) && Enabled(init, s, e)
    ensures LedgerInv(Next(init, s, e))
  {
    match e
    case Alloc(p, c) => AllocLedger(init, s, p, c);
    case Exit(p, status) => ExitLedger(init, s, p, status);
    case Reap(p, z) => ReapLedger(init, s, p, z);
    case _ =>
      var u := Next(init, s, e);
      QuietFaces(init, s, e);
      SameLedger(s, u.procs);
      assert u == s.(procs := u.procs);
  }

  lemma QuietFaces(init: nat, s: Sys, e: Event)
    requires FamilyInv(s.procs, init) && Enabled(init, s, e)
    requires !e.Alloc? && !e.Exit? && !e.Reap?
    ensures forall i :: 0 <= i < NPROC ==> SameFace(s.procs[i], Next(init, s, e).procs[i])
    ensures Next(init, s, e) == s.(procs := Next(init, s, e).procs)
  {
    if e.Abort? || e.Name? || e.Commit? {
      assert KinAt(s.procs, init, e.p);
    }
  }

  // ---- Whole runs ----

  /** The table when userinit has made the first process runnable in slot `init`. */
  function Boot(init: nat): Sys
    requires init < NPROC
  {
    var free := Proc(Unused, 0, None, None, false, 0, Norm, Idle);
    Sys(seq(NPROC, i => if i == init then free.(state := Runnable, pid := 1) else free), 2, map[], [])
  }

  ghost predicate Inv(init: nat, s: Sys) {
    FamilyInv(s.procs, init) && LedgerInv(s)
  }

  ghost predicate IsRun(init: nat, es: seq<Event>)
    requires init < NPROC
    decreases |es|, 0
  {
    es == [] || (IsRun(init, es[..|es| - 1]) && Enabled(init, After(init, es[..|es| - 1]), es[|es| - 1]))
  }

  ghost function After(init: nat, es: seq<Event>): Sys
    requires init < NPROC && IsRun(init, es)
    decreases |es|, 1
  {
    if es == [] then Boot(init) else Next(init, After(init, es[..|es| - 1]), es[|es| - 1])
  }

  lemma BootInv(init: nat)
    requires init < NPROC
    ensures Inv(init, Boot(init))
  {
    var s := Boot(init);
    assert forall i :: 0 <= i < NPROC ==> s.procs[i].parent == None && s.procs[i].act == Idle;
    assert forall w :: 0 <= w < NPROC ==> !AsleepOn(s.procs[w], OfProc(w));
  }

  lemma {:induction false} RunInv(init: nat, es: seq<Event>)
    requires init < NPROC && IsRun(init, es)
    ensures Inv(init, After(init, es))
    decreases |es|
  {
    if es == [] {
      BootInv(init);
    } else {
      var s := After(init, es[..|es| - 1]);
      RunInv(init, es[..|es| - 1]);
      FamilyStep(init, s, es[|es| - 1]);
      LedgerStep(init, s, es[|es| - 1]);
    }
  }

  /** In every reachable state no process asleep in wait has a zombie child. */
  lemma NoZombieMissed(init: nat, es: seq<Event>, w: nat, z: nat)
    requires init < NPROC && IsRun(init, es) && w < NPROC && z < NPROC
    ensures var t := After(init, es).procs; AsleepOn(t[w], OfProc(w)) ==> !(t[z].state == Zombie && t[z].parent == Some(w))
  {
    RunInv(init, es);
    var t := After(init, es).procs;
    assert WaiterAt(t, w);
    assert ZombieChild(t[z], w) ==> HasZombie(t, w);
  }

  /** In every reachable state every process but init, once past fork, has a live parent, zombies included. */
  lemma ParentsLive(init: nat, es: seq<Event>, c: nat)
    requires init < NPROC && IsRun(init, es) && c < NPROC && c != init
    ensures var t := After(init, es).procs;
            Live(t[c]) || t[c].state == Zombie ==>
              t[c].parent.Some? && t[c].parent.value < NPROC && t[c].parent.value != c && Live(t[t[c].parent.value])
  {
    RunInv(init, es);
    assert KinAt(After(init, es).procs, init, c);
  }

  /** In every reachable state init is alive, so an orphan always finds a parent. */
  lemma InitLives(init: nat, es: seq<Event>)
    requires init < NPROC && IsRun(init, es)
    ensures Live(After(init, es).procs[init])
  {
    RunInv(init, es);
  }

  /** Over every run, what wait returns is the pid of a process that exited, with the status it gave to exit. */
  lemma ReapedTruly(init: nat, es: seq<Event>, k: nat)
    requires init < NPROC && IsRun(init, es) && k < |After(init, es).reaps|
    ensures var s := After(init, es);
            s.reaps[k].0 in s.exits && s.exits[s.reaps[k].0] == s.reaps[k].1
  {
    RunInv(init, es);
  }

  /** Over every run wait returns a pid at most once. */
  lemma ReapedOnce(init: nat, es: seq<Event>, j: nat, k: nat)
    requires init < NPROC && IsRun(init, es) && j < |After(init, es).reaps| && k < |After(init, es).reaps|
    ensures After(init, es).reaps[j].0 == After(init, es).reaps[k].0 ==> j == k
  {
    RunInv(init, es);
  }

  /** No exit is forgotten: it was returned by wait, or its zombie waits under a live parent, not both. */
  lemma ExitsAccounted(init: nat, es: seq<Event>, pid: nat)
    requires init < NPROC && IsRun(init, es)
    ensures var s := After(init, es);
            && (pid in s.exits <==> IsReaped(s, pid) || IsZombie(s.procs, pid))
            && !(IsReaped(s, pid) && IsZombie(s.procs, pid))
  {
    RunInv(init, es);
    var s := After(init, es);
    if IsZombie(s.procs, pid) {
      var z :| 0 <= z < NPROC && s.procs[z].state == Zombie && s.procs[z].pid == pid;
      assert PidAt(s, z);
    }
  }
}
