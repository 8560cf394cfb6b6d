/**
 One CPU's scheduler loop of proc.c: a pass over the high-priority processes, and in a round where
 none ran, one normal-priority process from a cursor that goes round the table.

 While a dispatched process runs, and while the lock is free between rounds, the table may change in
 any way. The table found on the k-th return to the scheduler is `world(k)`, an arbitrary function.
 */
module Scheduler {

  import opened Params
  import opened Proc

  predicate Ready(p: Proc, prio: Prio) {
    p.prio == prio && p.state == Runnable
  }

  predicate AnyReady(t: Table, prio: Prio) {
    exists i :: 0 <= i < NPROC && Ready(t[i], prio)
  }

  // ---- The normal-priority scan as a function ----

  /** The first ready normal-priority slot from `from` on, or NPROC. */
  function Pick(t: Table, from: nat): (p: nat)
    requires from <= NPROC
    ensures from <= p <= NPROC
    ensures p < NPROC ==> Ready(t[p], Norm)
    ensures forall i :: from <= i < p ==> !Ready(t[i], Norm)
    decreases NPROC - from
  {
    if from == NPROC || Ready(t[from], Norm) then from else Pick(t, from + 1)
  }

  /** The scan ends at the first ready slot. */
  lemma PickIs(t: Table, from: nat, p: nat)
    requires from <= p <= NPROC && (p < NPROC ==> Ready(t[p], Norm))
    requires forall i :: from <= i < p ==> !Ready(t[i], Norm)
    ensures Pick(t, from) == p
  {
  }

  /** Where the next scan starts after one that ended at p. */
  function StartAfter(p: nat): (s: nat)
    ensures s < NPROC
  {
    if p + 1 >= NPROC then 0 else p + 1
  }

  /** A round: whether a high-priority process ran, and the table when it ended its first pass. */
  datatype Round = RoundOf(hiRan: bool, table: Table)

  /** Where the scan after `rounds` starts, if the first one started at `start`. */
  function Cursor(start: nat, rounds: seq<Round>): (s: nat)
    requires start < NPROC
    ensures s < NPROC
  {
    if rounds == [] then start
    else
      var s := Cursor(start, rounds[..|rounds| - 1]);
      var r := rounds[|rounds| - 1];
      if r.hiRan then s else StartAfter(Pick(r.table, s))
  }

  /** Whether round k dispatches the normal-priority process in slot p. */
  predicate RunsIn(start: nat, rounds: seq<Round>, k: nat, p: nat)
    requires start < NPROC && k < |rounds|
  {
    !rounds[k].hiRan && Pick(rounds[k].table, Cursor(start, rounds[..k])) == p
  }

  /** The number of rounds in which no high-priority process ran. */
  function Quiet(rounds: seq<Round>): nat {
    if rounds == [] then 0 else Quiet(rounds[..|rounds| - 1]) + if rounds[|rounds| - 1].hiRan then 0 else 1
  }

  /** How many quiet rounds slot p may have to wait when the scan starts at s. */
  function Distance(s: nat, p: nat): (d: nat)
    requires s < NPROC && p < NPROC
    ensures 1 <= d <= NPROC
  {
    if s <= p then p - s + 1 else NPROC - s + p + 1
  }

  /** A quiet round in which p was ready either dispatches p or brings the cursor nearer to it. */
  lemma QuietRound(t: Table, s: nat, p: nat)
    requires s < NPROC && p < NPROC && Ready(t[p], Norm)
    ensures Pick(t, s) == p || Distance(StartAfter(Pick(t, s)), p) < Distance(s, p)
  {
    var q := Pick(t, s);
    if s <= p {
      assert q <= p;
    }
  }

  /** While p stays ready and is not dispatched, the distance falls by one in every quiet round. */
  lemma {:induction false} Nearer(start: nat, rounds: seq<Round>, p: nat)
    requires start < NPROC && p < NPROC
    requires forall k :: 0 <= k < |rounds| && !rounds[k].hiRan ==> Ready(rounds[k].table[p], Norm)
    requires forall k :: 0 <= k < |rounds| ==> !RunsIn(start, rounds, k, p)
    ensures Distance(Cursor(start, rounds), p) + Quiet(rounds) <= Distance(start, p)
    decreases |rounds|
  {
    if rounds != [] {
      var n := |rounds| - 1;
      var before := rounds[..n];
      forall k | 0 <= k < n ensures !RunsIn(start, before, k, p) {
        assert !RunsIn(start, rounds, k, p);
        assert before[..k] == rounds[..k];
      }
      Nearer(start, before, p);
      assert !RunsIn(start, rounds, n, p);
      if !rounds[n].hiRan {
        QuietRound(rounds[n].table, Cursor(start, before), p);
      }
    }
  }

  /** A normal-priority process that stays ready is dispatched within NPROC rounds that had no high-priority run. */
  lemma NoStarvation(start: nat, rounds: seq<Round>, p: nat)
    requires start < NPROC && p < NPROC && Quiet(rounds) >= NPROC
    requires forall k :: 0 <= k < |rounds| && !rounds[k].hiRan ==> Ready(rounds[k].table[p], Norm)
    ensures exists k :: 0 <= k < |rounds| && RunsIn(start, rounds, k, p)
  {
    if forall k :: 0 <= k < |rounds| ==> !RunsIn(start, rounds, k, p) {
      Nearer(start, rounds, p);
      assert false;
    }
  }

  /** No high-priority process ran and every process was ready. */
  predicate AllReady(r: Round) {
    !r.hiRan && forall i :: 0 <= i < NPROC ==> Ready(r.table[i], Norm)
  }

  /** The bound is reached: if every process stays ready, round k dispatches slot k, so the last waits NPROC rounds. */
  lemma {:induction false} RoundRobin(rounds: seq<Round>)
    requires |rounds| <= NPROC && forall k :: 0 <= k < |rounds| ==> AllReady(rounds[k])
    ensures Cursor(0, rounds) == (if |rounds| == NPROC then 0 else |rounds|) && Quiet(rounds) == |rounds|
    ensures forall k :: 0 <= k < |rounds| ==> RunsIn(0, rounds, k, k)
  {
    if rounds != [] {
      var n := |rounds| - 1;
      RoundRobin(rounds[..n]);
      assert AllReady(rounds[n]);
      assert Ready(rounds[n].table[n], Norm);
      forall k | 0 <= k < |rounds| ensures RunsIn(0, rounds, k, k) {
        if k < n {
          assert rounds[..k] == rounds[..n][..k] && RunsIn(0, rounds[..n], k, k);
        }
      }
    }
  }

  // ---- The loop ----

  /** A dispatch and the table it was decided on. */
  datatype Turn = Turn(slot: nat, prio: Prio, table: Table)

  /** Only a ready process is dispatched, and a normal one only when no high-priority process is ready. */
  predicate Proper(d: Turn) {
    && d.slot < NPROC && Ready(d.table[d.slot], d.prio)
    && (d.prio == Norm ==> !AnyReady(d.table, Hi))
  }

  /** The dispatches go up the table below n, so no slot is served twice. */
  predicate InOrder(turns: seq<Turn>, n: nat) {
    && (forall i :: 0 <= i < |turns| ==> turns[i].slot < n)
    && (forall i, j :: 0 <= i < j < |turns| ==> turns[i].slot < turns[j].slot)
  }

  predicate Served(turns: seq<Turn>, h: nat) {
    exists i :: 0 <= i < |turns| && turns[i].slot == h
  }

  lemma ServedMore(turns: seq<Turn>, t: Turn)
    ensures Served(turns + [t], t.slot)
    ensures forall h :: Served(turns, h) ==> Served(turns + [t], h)
  {
    assert (turns + [t])[|turns|] == t;
    forall h | Served(turns, h) ensures Served(turns + [t], h) {
      var i :| 0 <= i < |turns| && turns[i].slot == h;
      assert (turns + [t])[i].slot == h;
    }
  }

  /** Slot h is a ready high-priority process in table t and whenever the scheduler gets the CPU back after `since`. */
  ghost predicate StaysReady(t: Table, world: nat -> Table, since: nat, now: nat, h: nat)
    requires h < NPROC
  {
    Ready(t[h], Hi) && forall k {:trigger world(k)} :: since < k <= now ==> Ready(world(k)[h], Hi)
  }

  /**
   The pass has looked at the slots below p. It began with table t0, came back for the last time at
   `now`, when it found table t, and made these dispatches: in order, each of a ready high-priority
   process, and of every one that stayed ready.
   */
  ghost predicate HiDone(t0: Table, world: nat -> Table, since: nat, now: nat, t: Table, turns: seq<Turn>, p: nat)
    requires p <= NPROC
  {
    && now == since + |turns| && t == (if turns == [] then t0 else world(now))
    && (if turns == [] then forall i :: 0 <= i < p ==> !Ready(t0[i], Hi) else AnyReady(t0, Hi))
    && (forall i :: 0 <= i < |turns| ==> turns[i].prio == Hi && Proper(turns[i]))
    && InOrder(turns, p)
    && (forall h :: 0 <= h < p && StaysReady(t0, world, since, now, h) ==> Served(turns, h))
  }

  lemma HiSkip(t0: Table, world: nat -> Table, since: nat, now: nat, t: Table, turns: seq<Turn>, p: nat)
    requires p < NPROC && HiDone(t0, world, since, now, t, turns, p) && !Ready(t[p], Hi)
    ensures HiDone(t0, world, since, now, t, turns, p + 1)
  {
  }

  lemma HiServe(t0: Table, world: nat -> Table, since: nat, now: nat, t: Table, turns: seq<Turn>, p: nat)
    requires p < NPROC && HiDone(t0, world, since, now, t, turns, p) && Ready(t[p], Hi)
    ensures HiDone(t0, world, since, now + 1, world(now + 1), turns + [Turn(p, Hi, t)], p + 1)
  {
    ServedMore(turns, Turn(p, Hi, t));
    forall h | 0 <= h < p && StaysReady(t0, world, since, now + 1, h) ensures StaysReady(t0, world, since, now, h) {
    }
  }

  /** Every dispatch was proper, and the trace holds what the rounds say was dispatched. */
  ghost predicate Traced(rounds: seq<Round>, trace: seq<Turn>) {
    forall z: nat {:trigger Unfold(z)} :: Unfold(z) ==>
      && (forall i :: 0 <= i < |trace| ==> Proper(trace[i]))
      && (forall k, p {:trigger RunsIn(0, rounds, k, p)} ::
            0 <= k < |rounds| && 0 <= p < NPROC && RunsIn(0, rounds, k, p) ==> Turn(p, Norm, rounds[k].table) in trace)
  }

  lemma TracedMore(rounds: seq<Round>, trace: seq<Turn>, r: Round, more: seq<Turn>)
    requires Traced(rounds, trace)
    requires forall i :: 0 <= i < |more| ==> Proper(more[i])
    requires !r.hiRan ==>
               var p := Pick(r.table, Cursor(0, rounds));
               p < NPROC ==> Turn(p, Norm, r.table) in more
    ensures Traced(rounds + [r], trace + more)
    ensures Cursor(0, rounds + [r]) == if r.hiRan then Cursor(0, rounds) else StartAfter(Pick(r.table, Cursor(0, rounds)))
  {
    assert Unfold(0);
    var rs := rounds + [r];
    assert rs[..|rounds|] == rounds;
    forall k, p {:trigger RunsIn(0, rs, k, p)} | 0 <= k < |rs| && 0 <= p < NPROC && RunsIn(0, rs, k, p)
      ensures Turn(p, Norm, rs[k].table) in trace + more
    {
      if k < |rounds| {
        assert rs[..k] == rounds[..k];
        assert RunsIn(0, rounds, k, p);
      }
    }
  }

  /** What one turn of the loop did: round r, whose dispatches are `turns`, moved the cursor from `from` to `to`. */
  ghost predicate Turned(r: Round, turns: seq<Turn>, from: nat, to: nat) {
    from < NPROC &&
    forall z: nat {:trigger Unfold(z)} :: Unfold(z) ==>
      && to == (if r.hiRan then from else StartAfter(Pick(r.table, from)))
      && (forall i :: 0 <= i < |turns| ==> Proper(turns[i]))
      && (!r.hiRan && Pick(r.table, from) < NPROC ==> Turn(Pick(r.table, from), Norm, r.table) in turns)
  }

  lemma TurnedMore(rounds: seq<Round>, trace: seq<Turn>, r: Round, turns: seq<Turn>, from: nat, to: nat)
    requires Traced(rounds, trace) && from == Cursor(0, rounds) && Turned(r, turns, from, to)
    ensures Traced(rounds + [r], trace + turns) && to == Cursor(0, rounds + [r])
  {
    assert Unfold(0);
    TracedMore(rounds, trace, r, turns);
  }

  class Cpu {
    const world: nat -> Table
    var seen: nat
    var procs: Table
    var last: Option<nat>
    ghost var rounds: seq<Round>
    ghost var trace: seq<Turn>

    ghost predicate Valid()
      reads this
    {
      && (last.Some? ==> last.value + 1 < NPROC)
      && Start() == Cursor(0, rounds)
      && Traced(rounds, trace)
    }

    function Start(): nat
      reads this
    {
      if last.Some? then last.value + 1 else 0
    }

    constructor (world: nat -> Table)
      ensures Valid() && this.world == world && rounds == [] && trace == []
    {
      this.world := world;
      seen := 0;
      procs := world(0);
      last := None;
      rounds := [];
      trace := [];
    }

    /** The table as it is when control or the lock comes back. */
    method Back()
      modifies this`seen, this`procs
      ensures seen == old(seen) + 1 && procs == world(seen)
    {
      seen := seen + 1;
      procs := world(seen);
    }

    /** The pass over the high-priority processes: it dispatches some exactly when one is ready at its start. */
    method HiPass() returns (flag: bool, ghost turns: seq<Turn>)
      modifies this`seen, this`procs, this`trace
      ensures flag == AnyReady(old(procs), Hi)
      ensures !flag ==> procs == old(procs) && trace == old(trace)
      ensures trace == old(trace) + turns
      ensures HiDone(old(procs), world, old(seen), seen, procs, turns, NPROC)
    {
      flag, turns := false, [];
      for p := 0 to NPROC
        invariant flag == (turns != []) && trace == old(trace) + turns
        invariant HiDone(old(procs), world, old(seen), seen, procs, turns, p)
      {
        if procs[p].prio != Hi || procs[p].state != Runnable {
          HiSkip(old(procs), world, old(seen), seen, procs, turns, p);
          continue;
        }
        HiServe(old(procs), world, old(seen), seen, procs, turns, p);
        turns := turns + [Turn(p, Hi, procs)];
        trace := trace + [Turn(p, Hi, procs)];
        procs := procs[p := procs[p].(state := Running)];
        Back();
        flag := true;
      }
    }

    /** The scan for one normal-priority process. */
    method NormPass() returns (ghost turns: seq<Turn>)
      requires last.Some? ==> last.value + 1 < NPROC
      modifies this`seen, this`procs, this`trace, this`last
      ensures last.Some? ==> last.value + 1 < NPROC
      ensures Start() == StartAfter(Pick(old(procs), old(Start())))
      ensures var p := Pick(old(procs), old(Start()));
              turns == if p < NPROC then [Turn(p, Norm, old(procs))] else []
      ensures trace == old(trace) + turns
    {
      var start := if last.Some? then last.value + 1 else 0;
      var p := start;
      turns := [];
      while p < NPROC && (procs[p].prio != Norm || procs[p].state != Runnable)
        invariant start <= p <= NPROC
        invariant forall i :: start <= i < p ==> !Ready(procs[i], Norm)
      {
        p := p + 1;
      }
      PickIs(procs, start, p);
      if p < NPROC {
        turns := [Turn(p, Norm, procs)];
        trace := trace + turns;
        procs := procs[p := procs[p].(state := Running)];
        Back();
        last := Some(p);
      }
      if p + 1 >= NPROC {
        last := None;
      }
    }

    /** The body of the endless loop. */
    method Passes() returns (ghost r: Round, ghost turns: seq<Turn>)
      requires last.Some? ==> last.value + 1 < NPROC
      modifies this`seen, this`procs, this`trace, this`last
      ensures last.Some? ==> last.value + 1 < NPROC
      ensures r.hiRan == AnyReady(world(old(seen) + 1), Hi)
      ensures !r.hiRan ==> r.table == world(old(seen) + 1)
      ensures trace == old(trace) + turns && Turned(r, turns, old(Start()), Start())
    {
      Back();
      var flag;
      flag, turns := HiPass();
      r := RoundOf(flag, procs);
      if !flag {
        turns := NormPass();
      }
    }

    /** One turn of the endless loop. */
    method Round()
      requires Valid()
      modifies this
      ensures Valid()
      ensures |rounds| == |old(rounds)| + 1 && old(rounds) <= rounds && old(trace) <= trace
      ensures rounds[|old(rounds)|].hiRan == AnyReady(world(old(seen) + 1), Hi)
      ensures !rounds[|old(rounds)|].hiRan ==> rounds[|old(rounds)|].table == world(old(seen) + 1)
    {
      ghost var r, turns := Passes();
      TurnedMore(rounds, old(trace), r, turns, old(Start()), Start());
      rounds := rounds + [r];
    }
  }
}
