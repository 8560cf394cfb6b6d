/**
 sleep and wakeup of proc.c at the grain of single lock operations, for any number of processes.

 Waiters test a condition under the lock lk and call sleep while it is false; wakers change the state
 under lk and then call wakeup, before or after they release lk. `version` counts the changes, and
 `cond(v)` is the truth of the condition after v changes. A waiter keeps the version it tested.
 */
module SleepWake {

  import opened Params

  /** How far a waker's wakeup has come: not begun, at a table slot with ptable.lock held, finished. */
  datatype Scan = Before | At(i: nat) | Done

  datatype Pc =
    | Idle
    | Locked               // holds lk
    | Tested(v: nat)       // holds lk, found the condition false
    | Entering(v: nat)     // in sleep, holds lk and ptable.lock
    | Released(v: nat)     // in sleep, holds ptable.lock only
    | Asleep(v: nat)       // SLEEPING on the channel
    | Woken                // RUNNABLE
    | Resumed              // dispatched, holds ptable.lock
    | Retaking             // about to take lk again
    | Waker(u: nat, locked: bool, scan: Scan)   // made change u

  datatype State = State(pcs: seq<Pc>, lk: Option<nat>, pt: Option<nat>, version: nat, completed: nat)

  datatype Action =
    | TakeLk | Leave | Test | Mutate | Change
    | TakePt | DropLk | GoToSleep | Dispatch | DropPt
    | WakeStep | Kill

  datatype Event = Event(p: nat, a: Action)

  predicate HoldsLk(c: Pc) {
    c.Locked? || c.Tested? || c.Entering? || (c.Waker? && c.locked)
  }

  predicate HoldsPt(c: Pc) {
    c.Entering? || c.Released? || c.Resumed? || (c.Waker? && c.scan.At?)
  }

  predicate Enabled(s: State, e: Event, cond: nat -> bool) {
    e.p < |s.pcs| &&
    var c := s.pcs[e.p];
    match e.a
    case TakeLk => (c.Idle? || c.Retaking?) && s.lk == None
    case Leave => c.Locked?
    case Test => c.Locked? && !cond(s.version)
    case Mutate => c.Locked?
    case Change => c.Locked?
    case TakePt => (c.Tested? || (c.Waker? && c.scan.Before?)) && s.pt == None
    case DropLk => c.Entering? || (c.Waker? && c.locked)
    case GoToSleep => c.Released?
    case Dispatch => c.Woken? && s.pt == None
    case DropPt => c.Resumed? || (c.Waker? && c.scan.At? && c.scan.i == |s.pcs|)
    case WakeStep => c.Waker? && c.scan.At? && c.scan.i < |s.pcs|
    case Kill => c.Asleep? && s.pt == None
  }

  /** A waker that has released lk and finished its wakeup is idle again. */
  function AfterWaking(u: nat, locked: bool, scan: Scan): Pc {
    if !locked && scan.Done? then Idle else Waker(u, locked, scan)
  }

  function Next(s: State, e: Event, cond: nat -> bool): State
    requires Enabled(s, e, cond)
  {
    var p := e.p;
    var c := s.pcs[p];
    match e.a
    case TakeLk => s.(pcs := s.pcs[p := Locked], lk := Some(p))
    case Leave => s.(pcs := s.pcs[p := Idle], lk := None)
    case Test => s.(pcs := s.pcs[p := Tested(s.version)])
    case Mutate => s.(version := s.version + 1)
    case Change => s.(pcs := s.pcs[p := Waker(s.version + 1, true, Before)], version := s.version + 1)
    case TakePt => s.(pcs := s.pcs[p := if c.Tested? then Entering(c.v) else c.(scan := At(0))], pt := Some(p))
    case DropLk => s.(pcs := s.pcs[p := if c.Entering? then Released(c.v) else AfterWaking(c.u, false, c.scan)], lk := None)
    case GoToSleep => s.(pcs := s.pcs[p := Asleep(c.v)], pt := None)
    case Dispatch => s.(pcs := s.pcs[p := Resumed], pt := Some(p))
    case DropPt =>
      if c.Resumed? then s.(pcs := s.pcs[p := Retaking], pt := None)
      else s.(pcs := s.pcs[p := AfterWaking(c.u, c.locked, Done)], pt := None,
              completed := if c.u > s.completed then c.u else s.completed)
    case WakeStep =>
      var woken := if s.pcs[c.scan.i].Asleep? then s.pcs[c.scan.i := Woken] else s.pcs;
      s.(pcs := woken[p := c.(scan := At(c.scan.i + 1))])
    case Kill => s.(pcs := s.pcs[p := Woken])
  }

  // ---- The invariant ----

  ghost predicate LocksAt(s: State, p: nat)
    requires p < |s.pcs|
  {
    && (HoldsLk(s.pcs[p]) <==> s.lk == Some(p))
    && (HoldsPt(s.pcs[p]) <==> s.pt == Some(p))
  }

  /** What the tested version of a waiter, and the change of a waker, have to do with the counters. */
  ghost predicate VersionAt(s: State, p: nat, cond: nat -> bool)
    requires p < |s.pcs|
  {
    var c := s.pcs[p];
    && (c.Tested? || c.Entering? ==> c.v == s.version)
    && (c.Tested? || c.Entering? || c.Released? || c.Asleep? ==> s.completed <= c.v <= s.version && !cond(c.v))
    && (c.Waker? ==> c.u <= s.version && (c.scan.At? ==> c.scan.i <= |s.pcs|))
  }

  /** A wakeup for change u that has passed slot p leaves nobody asleep there who tested before u. */
  ghost predicate PassedAt(s: State, w: nat, p: nat)
    requires w < |s.pcs| && p < |s.pcs|
  {
    var c := s.pcs[w];
    c.Waker? && c.scan.At? && p < c.scan.i && s.pcs[p].Asleep? ==> c.u <= s.pcs[p].v
  }

  ghost predicate Inv(s: State, cond: nat -> bool) {
    && s.completed <= s.version
    && (forall p {:trigger LocksAt(s, p)} :: 0 <= p < |s.pcs| ==> LocksAt(s, p))
    && (forall p {:trigger VersionAt(s, p, cond)} :: 0 <= p < |s.pcs| ==> VersionAt(s, p, cond))
    && (forall w, p {:trigger PassedAt(s, w, p)} :: 0 <= w < |s.pcs| && 0 <= p < |s.pcs| ==> PassedAt(s, w, p))
  }

  lemma LocksStep(s: State, e: Event, cond: nat -> bool)
    requires Inv(s, cond) && Enabled(s, e, cond)
    ensures var t := Next(s, e, cond); forall p {:trigger LocksAt(t, p)} :: 0 <= p < |t.pcs| ==> LocksAt(t, p)
  {
    var t := Next(s, e, cond);
    assert LocksAt(s, e.p);
    forall p {:trigger LocksAt(t, p)} | 0 <= p < |t.pcs| ensures LocksAt(t, p) {
      assert LocksAt(s, p);
    }
  }

  /** The moves inside sleep and wakeup, which change no version. */
  predicate Quiet(a: Action) {
    a.TakeLk? || a.Leave? || a.DropLk? || a.GoToSleep? || a.Dispatch? || a.Kill? || a.WakeStep? || a.TakePt?
  }

  lemma VersionQuiet(s: State, e: Event, cond: nat -> bool, p: nat)
    requires Inv(s, cond) && Enabled(s, e, cond) && Quiet(e.a) && p < |s.pcs|
    ensures VersionAt(Next(s, e, cond), p, cond)
  {
    assert VersionAt(s, e.p, cond) && VersionAt(s, p, cond);
  }

  lemma VersionMove(s: State, e: Event, cond: nat -> bool, p: nat)
    requires Inv(s, cond) && Enabled(s, e, cond) && !Quiet(e.a) && p < |s.pcs|
    ensures VersionAt(Next(s, e, cond), p, cond)
  {
    assert LocksAt(s, e.p) && VersionAt(s, e.p, cond);
    assert LocksAt(s, p) && VersionAt(s, p, cond) && PassedAt(s, e.p, p);
  }

  lemma VersionStep(s: State, e: Event, cond: nat -> bool)
    requires Inv(s, cond) && Enabled(s, e, cond)
    ensures var t := Next(s, e, cond);
            && t.completed <= t.version && |t.pcs| == |s.pcs|
            && forall p {:trigger VersionAt(t, p, cond)} :: 0 <= p < |t.pcs| ==> VersionAt(t, p, cond)
  {
    var t := Next(s, e, cond);
    assert VersionAt(s, e.p, cond);
    forall p {:trigger VersionAt(t, p, cond)} | 0 <= p < |t.pcs| ensures VersionAt(t, p, cond) {
      if Quiet(e.a) { VersionQuiet(s, e, cond, p); } else { VersionMove(s, e, cond, p); }
    }
  }

  lemma PassedStep(s: State, e: Event, cond: nat -> bool)
    requires Inv(s, cond) && Enabled(s, e, cond)
    ensures var t := Next(s, e, cond);
            forall w, p {:trigger PassedAt(t, w, p)} :: 0 <= w < |t.pcs| && 0 <= p < |t.pcs| ==> PassedAt(t, w, p)
  {
    var t := Next(s, e, cond);
    assert LocksAt(s, e.p) && VersionAt(s, e.p, cond);
    forall w, p {:trigger PassedAt(t, w, p)} | 0 <= w < |t.pcs| && 0 <= p < |t.pcs| ensures PassedAt(t, w, p) {
      assert PassedAt(s, w, p) && LocksAt(s, w) && LocksAt(s, p);
    }
  }

  // ---- Whole runs ----

  /** n processes, none inside the protocol. */
  function Start(n: nat): State {
    State(seq(n, _ => Idle), None, None, 0, 0)
  }

  ghost predicate IsRun(n: nat, es: seq<Event>, cond: nat -> bool)
    decreases |es|, 0
  {
    es == [] || (IsRun(n, es[..|es| - 1], cond) && Enabled(After(n, es[..|es| - 1], cond), es[|es| - 1], cond))
  }

  ghost function After(n: nat, es: seq<Event>, cond: nat -> bool): State
    requires IsRun(n, es, cond)
    decreases |es|, 1
  {
    if es == [] then Start(n) else Next(After(n, es[..|es| - 1], cond), es[|es| - 1], cond)
  }

  lemma {:induction false} RunInv(n: nat, es: seq<Event>, cond: nat -> bool)
    requires IsRun(n, es, cond)
    ensures Inv(After(n, es, cond), cond) && |After(n, es, cond).pcs| == n
    decreases |es|
  {
    if es != [] {
      var s := After(n, es[..|es| - 1], cond);
      RunInv(n, es[..|es| - 1], cond);
      LocksStep(s, es[|es| - 1], cond);
      VersionStep(s, es[|es| - 1], cond);
      PassedStep(s, es[|es| - 1], cond);
    }
  }

  /** No lost wakeup: in every run, once the wakeup for change u has finished, nobody sleeps who tested before u. */
  lemma NoLostWakeup(n: nat, es: seq<Event>, cond: nat -> bool, p: nat)
    requires IsRun(n, es, cond) && p < n
    ensures var s := After(n, es, cond); |s.pcs| == n && (s.pcs[p].Asleep? ==> s.pcs[p].v >= s.completed)
  {
    RunInv(n, es, cond);
    assert VersionAt(After(n, es, cond), p, cond);
  }

  /** So nobody sleeps on a condition that has been true since a change whose wakeup has finished. */
  lemma NobodySleepsOnTrue(n: nat, es: seq<Event>, cond: nat -> bool, p: nat)
    requires IsRun(n, es, cond) && p < n
    requires var s := After(n, es, cond); forall v: nat :: s.completed <= v <= s.version ==> cond(v)
    ensures |After(n, es, cond).pcs| == n && !After(n, es, cond).pcs[p].Asleep?
  {
    RunInv(n, es, cond);
    assert VersionAt(After(n, es, cond), p, cond);
  }

  /** Two processes never hold the same lock. */
  lemma LocksExclude(n: nat, es: seq<Event>, cond: nat -> bool, p: nat, q: nat)
    requires IsRun(n, es, cond) && p < n && q < n && p != q
    ensures var s := After(n, es, cond);
            && |s.pcs| == n
            && !(HoldsLk(s.pcs[p]) && HoldsLk(s.pcs[q]))
            && !(HoldsPt(s.pcs[p]) && HoldsPt(s.pcs[q]))
  {
    RunInv(n, es, cond);
    var s := After(n, es, cond);
    assert LocksAt(s, p) && LocksAt(s, q);
  }
}
