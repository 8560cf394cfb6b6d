/**
 The loops of proc.c over the process table, each proved to take exactly the step that the
 machine of module Proc gives it, so the theorems about runs are about this code.
 */
module ProcTable {

  import opened Params
  import opened Proc

  /** What wait's critical section ends with. */
  datatype WaitResult = Reaped(pid: nat, status: int) | NoChildren | Asleep

  /** Slot j once exit's loop has passed the slots below n. */
  ghost function AdoptedAt(t: Table, cur: nat, init: nat, n: nat, j: nat): Proc
    requires n <= NPROC && j < NPROC
  {
    var q := if j < n && t[j].parent == Some(cur) then t[j].(parent := Some(init)) else t[j];
    if AsleepOn(q, OfProc(init)) && (exists z :: 0 <= z < n && ZombieChild(t[z], cur)) then q.(state := Runnable) else q
  }

  /** A new child of `parent`, ready to run. */
  predicate Born(p: Proc, parent: nat, pid: nat, prio: Prio) {
    p.state == Runnable && p.parent == Some(parent) && p.pid == pid && p.prio == prio && p.act == Idle
  }

  /** Proc's invariant, folded. */
  ghost predicate Sound(init: nat, s: Sys) {
    forall z: nat {:trigger Unfold(z)} :: Unfold(z) ==> Inv(init, s)
  }

  /** Every step keeps it. */
  lemma StepKept(init: nat, s: Sys, e: Event)
    requires Sound(init, s) && Enabled(init, s, e)
    ensures Sound(init, Next(init, s, e))
  {
    assert Unfold(0);
    FamilyStep(init, s, e);
    LedgerStep(init, s, e);
  }

  lemma KinOf(init: nat, s: Sys, p: nat)
    requires Sound(init, s) && p < |s.procs|
    ensures KinAt(s.procs, init, p)
  {
    assert Unfold(0);
  }

  lemma ExitedPid(init: nat, s: Sys, p: nat, status: int)
    requires Sound(init, s) && |s.procs| == NPROC && Runs(s.procs, p, Idle) && p != init
    ensures s.procs[p].parent.Some? && Exited(s.procs, p, init, status)[p].pid == s.procs[p].pid
  {
    assert Unfold(0);
    ExitedAt(s.procs, init, p, status, p);
  }

  /** fork's steps after allocproc took slot c, when no other step comes in between. */
  lemma AloneFork(init: nat, s: Sys, cur: nat, c: nat)
    requires Sound(init, s) && Runs(s.procs, cur, Idle) && Enabled(init, s, Alloc(cur, c))
    ensures var s1 := Next(init, s, Alloc(cur, c));
            && Enabled(init, s1, Abort(cur)) && Undone(s, Next(init, s1, Abort(cur)), cur, c)
            && Enabled(init, s1, Name(cur))
            && var s2 := Next(init, s1, Name(cur));
               && |s2.procs| == NPROC && s2.procs[c].pid == s.nextpid
               && Enabled(init, s2, Commit(cur)) && Done(s, Next(init, s2, Commit(cur)), cur, c)
  {
    assert Unfold(0);
    assert KinAt(s.procs, init, cur) && KinAt(s.procs, init, c);
  }

  ghost predicate Undone(s: Sys, s': Sys, cur: nat, c: nat)
    requires c < |s.procs| && cur < |s.procs|
  {
    && |s'.procs| == |s.procs| && s'.procs[c].state == s.procs[c].state == Unused
    && (forall i :: 0 <= i < |s.procs| && i != c ==> s'.procs[i] == s.procs[i])
  }

  ghost predicate Done(s: Sys, s': Sys, cur: nat, c: nat)
    requires c < |s.procs| && cur < |s.procs|
  {
    && |s'.procs| == |s.procs| && c != cur && s.procs[c].state == Unused
    && Born(s'.procs[c], cur, s.nextpid, s.procs[cur].prio) && s'.procs[c].killed == s.procs[c].killed
    && (forall i :: 0 <= i < |s.procs| && i != c ==> s'.procs[i] == s.procs[i])
  }

  class Ptable {
    const procs: array<Proc>
    const init: nat
    var nextpid: nat
    ghost var exits: map<nat, int>
    ghost var reaps: seq<(nat, int)>

    ghost predicate Valid()
      reads this, procs
    {
      procs.Length == NPROC && Sound(init, State())
    }

    ghost function State(): Sys
      requires procs.Length == NPROC
      reads this, procs
    {
      Sys(procs[..], nextpid, exits, reaps)
    }

    /** The empty table, then userinit: allocproc takes the first slot. */
    constructor ()
      ensures Valid() && fresh(procs) && init == 0
      ensures State() == Boot(init)
    {
      procs := new Proc[NPROC](_ => Proc(Unused, 0, None, None, false, 0, Norm, Idle));
      init := 0;
      nextpid := 2;
      exits := map[];
      reaps := [];
      new;
      procs[0] := procs[0].(state := Runnable, pid := 1);
      assert procs[..] == Boot(init).procs;
      BootInv(init);
    }

    method Wakeup1(chan: Chan)
      requires procs.Length == NPROC
      modifies procs
      ensures procs[..] == Woken(old(procs[..]), chan)
    {
      for i := 0 to NPROC
        invariant forall j :: 0 <= j < i ==> procs[j] == Woken(old(procs[..]), chan)[j]
        invariant forall j :: i <= j < NPROC ==> procs[j] == old(procs[j])
      {
        if procs[i].state == Sleeping && procs[i].chan == Some(chan) {
          procs[i] := procs[i].(state := Runnable);
        }
      }
    }

    method Wakeup(a: nat)
      requires Valid()
      modifies procs
      ensures Valid()
      ensures State() == Next(init, old(State()), Event.Wakeup(a))
    {
      Wakeup1(Other(a));
      StepKept(init, old(State()), Event.Wakeup(a));
    }

    /** allocproc under fork by p: the first unused slot becomes an embryo with a new pid. */
    method AllocProc(p: nat) returns (r: Option<nat>)
      requires Valid() && Runs(procs[..], p, Idle)
      modifies this`nextpid, procs
      ensures Valid()
      ensures r.Some? ==> r.value < NPROC && Enabled(init, old(State()), Alloc(p, r.value))
      ensures r.Some? ==> forall i :: 0 <= i < r.value ==> old(procs[i]).state != Unused
      ensures r.Some? ==> State() == Next(init, old(State()), Alloc(p, r.value))
      ensures r == None ==> State() == old(State()) && forall i :: 0 <= i < NPROC ==> procs[i].state != Unused
    {
      var c := 0;
      while c < NPROC && procs[c].state != Unused
        invariant c <= NPROC
        invariant forall i :: 0 <= i < c ==> procs[i].state != Unused
      {
        c := c + 1;
      }
      if c == NPROC {
        return None;
      }
      procs[c] := procs[c].(state := Embryo, pid := nextpid, prio := Norm);
      procs[p] := procs[p].(act := Forking(c));
      nextpid := nextpid + 1;
      StepKept(init, old(State()), Alloc(p, c));
      return Some(c);
    }

    /** exit, from the lock on: wake the parent, hand the children to init, become a zombie. */
    method Exit(cur: nat, status: int)
      requires Valid() && Runs(procs[..], cur, Idle) && cur != init
      modifies this`exits, procs
      ensures Valid()
      ensures State() == Next(init, old(State()), Event.Exit(cur, status))
    {
      KinOf(init, State(), cur);
      procs[cur] := procs[cur].(status := status);
      Wakeup1(OfProc(procs[cur].parent.value));
      Adopt(cur);
      procs[cur] := procs[cur].(state := Zombie);
      exits := exits[procs[cur].pid := status];
      assert procs[..] == Exited(old(procs[..]), cur, init, status);
      ExitedPid(init, old(State()), cur, status);
      StepKept(init, old(State()), Event.Exit(cur, status));
    }

    method Adopt(cur: nat)
      requires procs.Length == NPROC && init != cur
      modifies procs
      ensures procs[..] == Adopted(old(procs[..]), cur, init)
    {
      ghost var t := procs[..];
      for i := 0 to NPROC
        invariant forall j :: 0 <= j < NPROC ==> procs[j] == AdoptedAt(t, cur, init, i, j)
      {
        AdoptOne(cur, i, t);
      }
      assert procs[..] == Adopted(t, cur, init);
    }

    method AdoptOne(cur: nat, i: nat, ghost t: Table)
      requires procs.Length == NPROC && init != cur && i < NPROC
      requires forall j :: 0 <= j < NPROC ==> procs[j] == AdoptedAt(t, cur, init, i, j)
      modifies procs
      ensures forall j :: 0 <= j < NPROC ==> procs[j] == AdoptedAt(t, cur, init, i + 1, j)
    {
      if procs[i].parent == Some(cur) {
        procs[i] := procs[i].(parent := Some(init));
        if procs[i].state == Zombie {
          assert ZombieChild(t[i], cur);
          Wakeup1(OfProc(init));
        }
      }
    }

    /** wait from the lock to its return or sleep. */
    method Wait(cur: nat) returns (r: WaitResult)
      requires Valid() && MayWait(procs[..], cur)
      modifies this`reaps, procs
      ensures Valid()
      ensures r.Reaped? ==>
                exists z ::
                  && 0 <= z < NPROC && ZombieChild(old(procs[z]), cur)
                  && (forall i :: 0 <= i < z ==> !ZombieChild(old(procs[i]), cur))
                  && r == WaitResult.Reaped(old(procs[z]).pid, old(procs[z]).status)
                  && State() == Next(init, old(State()), Reap(cur, z))
      ensures r.NoChildren? ==> Enabled(init, old(State()), NoWait(cur)) && State() == Next(init, old(State()), NoWait(cur))
      ensures r.Asleep? ==>
                Enabled(init, old(State()), Event.Wait(cur)) && State() == Next(init, old(State()), Event.Wait(cur))
    {
      var havekids := false;
      for i := 0 to NPROC
        invariant havekids == exists j :: 0 <= j < i && procs[j].parent == Some(cur)
        invariant forall j :: 0 <= j < i ==> !ZombieChild(procs[j], cur)
        invariant unchanged(procs) && unchanged(this)
      {
        if procs[i].parent != Some(cur) {
          continue;
        }
        havekids := true;
        if procs[i].state == Zombie {
          r := ReapAt(cur, i);
          return;
        }
      }
      assert !HasZombie(procs[..], cur);
      assert havekids == HasChild(procs[..], cur) by {
        forall j | 0 <= j < NPROC ensures procs[j] == procs[..][j] {}
      }
      var e := if !havekids || procs[cur].killed then NoWait(cur) else Event.Wait(cur);
      StepKept(init, State(), e);
      if !havekids || procs[cur].killed {
        procs[cur] := procs[cur].(act := Idle);
        return NoChildren;
      }
      procs[cur] := procs[cur].(state := Sleeping, chan := Some(OfProc(cur)), act := Waiting);
      return Asleep;
    }

    method ReapAt(cur: nat, z: nat) returns (r: WaitResult)
      requires Valid() && MayWait(procs[..], cur) && z < NPROC && ZombieChild(procs[z], cur)
      modifies this`reaps, procs
      ensures Valid()
      ensures r == WaitResult.Reaped(old(procs[z]).pid, old(procs[z]).status)
      ensures State() == Next(init, old(State()), Reap(cur, z))
    {
      r := WaitResult.Reaped(procs[z].pid, procs[z].status);
      reaps := reaps + [(procs[z].pid, procs[z].status)];
      procs[z] := procs[z].(pid := 0, parent := None, killed := false, state := Unused);
      procs[cur] := procs[cur].(act := Idle);
      StepKept(init, old(State()), Reap(cur, z));
    }

    /** kill: marks the first slot with that pid and wakes it whatever it sleeps on. */
    method Kill(pid: nat) returns (found: bool)
      requires Valid()
      modifies procs
      ensures Valid()
      ensures found <==> exists p :: 0 <= p < NPROC && old(procs[p]).pid == pid
      ensures !found ==> State() == old(State())
      ensures found ==>
                exists p ::
                  && 0 <= p < NPROC && old(procs[p]).pid == pid
                  && (forall i :: 0 <= i < p ==> old(procs[i]).pid != pid)
                  && State() == Next(init, old(State()), Event.Kill(p))
    {
      for p := 0 to NPROC
        invariant forall i :: 0 <= i < p ==> procs[i].pid != pid
        invariant unchanged(procs)
      {
        if procs[p].pid == pid {
          procs[p] := procs[p].(killed := true);
          if procs[p].state == Sleeping {
            procs[p] := procs[p].(state := Runnable);
          }
          StepKept(init, old(State()), Event.Kill(p));
          assert procs[..] == Next(init, old(State()), Event.Kill(p)).procs;
          return true;
        }
      }
      return false;
    }

    /** setprio, for the first slot with that pid. */
    method SetPrio(pid: nat, prio: Prio) returns (found: bool)
      requires Valid()
      modifies procs
      ensures Valid()
      ensures found <==> exists p :: 0 <= p < NPROC && old(procs[p]).pid == pid
      ensures !found ==> State() == old(State())
      ensures found ==>
                exists p ::
                  && 0 <= p < NPROC && old(procs[p]).pid == pid
                  && (forall i :: 0 <= i < p ==> old(procs[i]).pid != pid)
                  && State() == Next(init, old(State()), Event.SetPrio(p, prio))
    {
      for p := 0 to NPROC
        invariant forall i :: 0 <= i < p ==> procs[i].pid != pid
        invariant unchanged(procs)
      {
        if procs[p].pid == pid {
          procs[p] := procs[p].(prio := prio);
          StepKept(init, old(State()), Event.SetPrio(p, prio));
          assert procs[..] == Next(init, old(State()), Event.SetPrio(p, prio)).procs;
          return true;
        }
      }
      return false;
    }

    /** fork gives up after allocproc: no kernel stack, or no memory for the copy. */
    method ForkAbort(cur: nat)
      requires Valid() && Enabled(init, State(), Abort(cur))
      modifies procs
      ensures Valid()
      ensures State() == Next(init, old(State()), Abort(cur))
    {
      KinOf(init, State(), cur);
      var c := procs[cur].act.child;
      procs[c] := procs[c].(state := Unused);
      procs[cur] := procs[cur].(act := Idle);
      StepKept(init, old(State()), Abort(cur));
    }

    method ForkName(cur: nat)
      requires Valid() && Enabled(init, State(), Name(cur))
      modifies procs
      ensures Valid()
      ensures State() == Next(init, old(State()), Name(cur))
    {
      var c := procs[cur].act.child;
      procs[c] := procs[c].(parent := Some(cur), prio := procs[cur].prio);
      StepKept(init, old(State()), Name(cur));
    }

    method ForkCommit(cur: nat)
      requires Valid() && Enabled(init, State(), Commit(cur))
      modifies procs
      ensures Valid()
      ensures State() == Next(init, old(State()), Commit(cur))
    {
      KinOf(init, State(), cur);
      var c := procs[cur].act.child;
      procs[c] := procs[c].(state := Runnable);
      procs[cur] := procs[cur].(act := Idle);
      StepKept(init, old(State()), Commit(cur));
    }

    /**
     fork as one caller sees it when nothing else touches the table; `memory` says whether the kernel
     stack and the copied address space could be had.
     */
    method Fork(cur: nat, memory: bool) returns (pid: Option<nat>)
      requires Valid() && Runs(procs[..], cur, Idle)
      modifies this`nextpid, procs
      ensures Valid()
      ensures pid.Some? <==> memory && exists c :: 0 <= c < NPROC && old(procs[c]).state == Unused
      ensures pid.Some? ==>
                && pid.value == old(nextpid) && procs[cur] == old(procs[cur])
                && exists c ::
                     && 0 <= c < NPROC && old(procs[c]).state == Unused && (forall i :: 0 <= i < c ==> old(procs[i]).state != Unused)
                     && Born(procs[c], cur, pid.value, old(procs[cur]).prio) && procs[c].killed == old(procs[c]).killed
                     && forall i :: 0 <= i < NPROC && i != c ==> procs[i] == old(procs[i])
      ensures pid == None ==>
                forall i :: 0 <= i < NPROC ==> procs[i] == old(procs[i]) || (procs[i].state == old(procs[i]).state == Unused)
    {
      var c := AllocProc(cur);
      if c == None {
        return None;
      }
      AloneFork(init, old(State()), cur, c.value);
      if !memory {
        ForkAbort(cur);
        return None;
      }
      ForkName(cur);
      pid := Some(procs[c.value].pid);
      ForkCommit(cur);
      assert old(procs[..])[c.value] == old(procs[c.value]);
    }

    /** sleep on a channel that is not a process. */
    method Sleep(cur: nat, a: nat)
      requires Valid() && Enabled(init, State(), Event.Sleep(cur, a))
      modifies procs
      ensures Valid()
      ensures State() == Next(init, old(State()), Event.Sleep(cur, a))
    {
      procs[cur] := procs[cur].(chan := Some(Other(a)));
      procs[cur] := procs[cur].(state := Sleeping);
      StepKept(init, old(State()), Event.Sleep(cur, a));
      assert procs[..] == Next(init, old(State()), Event.Sleep(cur, a)).procs;
    }
  }

  lemma PidOf(init: nat, s: Sys, p: nat)
    requires Sound(init, s) && p < |s.procs|
    ensures s.procs[p].state != Unused ==> s.procs[p].pid > 0
  {
    assert Unfold(0);
    assert PidAt(s, p);
  }

  /**
   kill does not look at the state of a slot, and fork does not clear the mark: after kill(0), which
   marks the free slot c, the child that fork makes there is born killed.
   */
  method BornKilled(t: Ptable, cur: nat, c: nat) returns (pid: Option<nat>)
    requires t.Valid() && Runs(t.procs[..], cur, Idle) && c < NPROC && t.procs[c].state == Unused && t.procs[c].pid == 0
    requires forall i :: 0 <= i < c ==> t.procs[i].state != Unused
    modifies t, t.procs
    ensures pid.Some? && t.procs[c].killed && Born(t.procs[c], cur, pid.value, old(t.procs[cur]).prio)
  {
    forall i | 0 <= i < NPROC
      ensures t.procs[i].state != Unused ==> t.procs[i].pid > 0
    {
      PidOf(t.init, t.State(), i);
    }
    var found := t.Kill(0);
    assert t.procs[..][c].killed && t.procs[..][c].state == Unused;
    pid := t.Fork(cur, true);
  }
}
