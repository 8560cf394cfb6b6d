/**
 Every run of the logging layer: file-system operations that begin, log blocks and end
 in any interleaving, commits and recoveries that lose power after any block write, and
 crashes at any other moment.  A step is one critical section of log.lock; a commit runs
 with log.committing set, so nothing else changes the log while it is under way.
 */
module LogRun {
  import opened LogDisk
  import opened Params

  /** A block logged by operation `id`. */
  datatype Write = Write(id: nat, b: nat, data: Block)

  /** An operation between begin_op and end_op, and the distinct blocks it has logged. */
  datatype Op = Op(id: nat, blocks: set<nat>)

  /** Memory contents: lost in a crash; `Panicked` after "too big a transaction". */
  datatype Mem =
    | Down
    | Panicked
    | Up(view: Disk, list: seq<nat>, active: seq<Op>)

  /**
   `groups`, `pending` and `issued` are bookkeeping for the statements: the groups whose
   header reached the disk, the writes since the last commit or crash, and all writes.
   Operations from `epoch` on are those of the current group.  When the system last came up
   there were `first` groups and `start` writes, and `boot` was the next operation.
   */
  datatype State = State(disk: Disk, mem: Mem, groups: seq<seq<Write>>, pending: seq<Write>,
                         issued: seq<Write>, nextId: nat, epoch: nat, first: nat, start: nat, boot: nat)

  datatype Event =
    | Begin
    | LogWrite(i: nat, b: nat, data: Block)
    | End(i: nat, writes: nat)
    | Crash
    | Recover(writes: nat)

  // ---- The steps ----

  /** log_write's list: a block already in the transaction is absorbed. */
  function Absorb(list: seq<nat>, b: nat): (r: seq<nat>)
    ensures Distinct(list) ==> Distinct(r)
    ensures b in r && forall x :: x in r <==> x in list || x == b
  {
    if b in list then list else list + [b]
  }

  predicate LogFull(l: Layout, list: seq<nat>) {
    |list| >= LOGSIZE || |list| >= l.size - 1
  }

  predicate Admits(list: seq<nat>, outstanding: nat) {
    |list| + (outstanding + 1) * MAXOPBLOCKS <= LOGSIZE
  }

  ghost predicate Enabled(l: Layout, s: State, e: Event) {
    match e
    case Begin => s.mem.Up? && Admits(s.mem.list, |s.mem.active|)
    case LogWrite(i, b, _) => s.mem.Up? && i < |s.mem.active| && b < |s.disk| && !l.InLog(b)
    case End(i, k) =>
      && s.mem.Up? && i < |s.mem.active| && l.Fits(s.disk)
      && ValidList(l, s.disk, s.mem.list) && |s.mem.view| == |s.disk|
      && k <= (if |s.mem.active| == 1 then |CommitWrites(l, s.disk, s.mem.view, s.mem.list)| else 0)
    case Crash => true
    case Recover(k) => s.mem.Down? && ValidDisk(l, s.disk) && k <= |RecoverWrites(l, s.disk)|
  }

  /** The end of an epoch: its writes become a committed group, or are lost. */
  function Close(s: State, committed: bool): State {
    s.(groups := if committed then s.groups + [s.pending] else s.groups, pending := [], epoch := s.nextId)
  }

  ghost function Next(l: Layout, s: State, e: Event): State
    requires Enabled(l, s, e)
  {
    match e
    case Begin =>
      s.(mem := s.mem.(active := s.mem.active + [Op(s.nextId, {})]), nextId := s.nextId + 1)
    case LogWrite(i, b, data) =>
      if LogFull(l, s.mem.list) then s.(mem := Panicked)
      else
        var op := s.mem.active[i];
        var w := Write(op.id, b, data);
        s.(mem := Up(Put(s.mem.view, BlockWrite(b, data)), Absorb(s.mem.list, b),
                     s.mem.active[i := op.(blocks := op.blocks + {b})]),
           pending := s.pending + [w], issued := s.issued + [w])
    case End(i, k) =>
      if |s.mem.active| > 1 then s.(mem := s.mem.(active := Without(s.mem.active, i)))
      else CommitStep(l, s, k)
    case Crash => Close(s, false).(mem := Down)
    case Recover(k) =>
      var d := Apply(s.disk, RecoverWrites(l, s.disk)[..k]);
      if k < |RecoverWrites(l, s.disk)| then s.(disk := d)
      else s.(disk := d, mem := Up(d, [], []), first := |s.groups|, start := |s.issued|, boot := s.nextId)
  }

  /** The last end_op: commit the group, of whose block writes k reach the disk. */
  ghost function CommitStep(l: Layout, s: State, k: nat): State
    requires s.mem.Up? && l.Fits(s.disk) && ValidList(l, s.disk, s.mem.list) && |s.mem.view| == |s.disk|
    requires k <= |CommitWrites(l, s.disk, s.mem.view, s.mem.list)|
  {
    var ws := CommitWrites(l, s.disk, s.mem.view, s.mem.list);
    var d := Apply(s.disk, ws[..k]);
    Close(s, k > |s.mem.list|).(disk := d, mem := if k < |ws| then Down else Up(d, [], []))
  }

  ghost predicate IsRun(l: Layout, s: State, run: seq<Event>)
    decreases |run|
  {
    run == [] || (Enabled(l, s, run[0]) && IsRun(l, Next(l, s, run[0]), run[1..]))
  }

  ghost function After(l: Layout, s: State, run: seq<Event>): State
    requires IsRun(l, s, run)
    decreases |run|
  {
    if run == [] then s else After(l, Next(l, s, run[0]), run[1..])
  }

  /** The machine is switched on with disk `d`. */
  function Boot(d: Disk): State {
    State(d, Down, [], [], [], 0, 0, 0, 0, 0)
  }

  // ---- What the disk should hold ----

  function Flatten(groups: seq<seq<Write>>): seq<Write> {
    if groups == [] then [] else Flatten(groups[..|groups| - 1]) + groups[|groups| - 1]
  }

  function Replay(d: Disk, ws: seq<Write>): (r: Disk)
    ensures |r| == |d|
  {
    if ws == [] then d
    else Put(Replay(d, ws[..|ws| - 1]), BlockWrite(ws[|ws| - 1].b, ws[|ws| - 1].data))
  }

  lemma ReplayConcat(d: Disk, a: seq<Write>, b: seq<Write>)
    ensures Replay(d, a + b) == Replay(Replay(d, a), b)
  {
    if b == [] {
      assert a + b == a;
    } else {
      ReplayConcat(d, a, b[..|b| - 1]);
      assert (a + b)[..|a + b| - 1] == a + b[..|b| - 1];
    }
  }

  /** The writes of one operation, in order. */
  function WritesOf(ws: seq<Write>, id: nat): (r: seq<Write>) {
    if ws == [] then []
    else WritesOf(ws[..|ws| - 1], id) + (if ws[|ws| - 1].id == id then [ws[|ws| - 1]] else [])
  }

  lemma WritesOfConcat(a: seq<Write>, b: seq<Write>, id: nat)
    ensures WritesOf(a + b, id) == WritesOf(a, id) + WritesOf(b, id)
  {
    if b == [] {
      assert a + b == a;
    } else {
      WritesOfConcat(a, b[..|b| - 1], id);
      assert (a + b)[..|a + b| - 1] == a + b[..|b| - 1];
    }
  }

  /** The home blocks after the committed groups, starting from disk `base`. */
  ghost function Committed(base: Disk, s: State): Disk {
    Replay(base, Flatten(s.groups))
  }

  // ---- The invariant ----

  ghost predicate DiskInv(l: Layout, base: Disk, s: State) {
    && |s.disk| == |base|
    && ValidDisk(l, s.disk)
    && SameHome(l, Recovered(l, s.disk), Committed(base, s))
    && (s.mem.Up? ==>
          && HeadList(s.disk[l.start]) == []
          && ValidList(l, s.disk, s.mem.list)
          && DiffersOnlyOn(l, s.disk, s.mem.view, s.mem.list)
          && SameHome(l, s.mem.view, Replay(Committed(base, s), s.pending))
          && (s.mem.list == [] ==> s.pending == []))
  }

  /** An operation of the current epoch has no committed write; an older one has all of its writes or none. */
  ghost predicate OpAtomic(s: State, id: nat) {
    AllOrNone(s.groups, s.pending, s.issued, s.epoch, s.nextId, id)
  }

  ghost predicate AllOrNone(groups: seq<seq<Write>>, pending: seq<Write>, issued: seq<Write>, epoch: nat, nextId: nat, id: nat) {
    forall z: nat {:trigger Unfold(z)} :: Unfold(z) ==>
      var done := WritesOf(Flatten(groups), id);
      && (id < epoch ==> WritesOf(pending, id) == [] && (done == WritesOf(issued, id) || done == []))
      && (id >= epoch ==> done == [] && WritesOf(issued, id) == WritesOf(pending, id))
      && (id >= nextId ==> WritesOf(issued, id) == [])
  }

  lemma AtomicFacts(s: State, id: nat)
    requires OpAtomic(s, id)
    ensures var done := WritesOf(Flatten(s.groups), id);
            && (id < s.epoch ==> WritesOf(s.pending, id) == [] && (done == WritesOf(s.issued, id) || done == []))
            && (id >= s.epoch ==> done == [] && WritesOf(s.issued, id) == WritesOf(s.pending, id))
            && (id >= s.nextId ==> WritesOf(s.issued, id) == [])
  {
    assert Unfold(0);
  }

  lemma AtomicBegin(s: State, id: nat)
    requires OpAtomic(s, id)
    ensures OpAtomic(s.(nextId := s.nextId + 1), id)
  {
    AtomicFacts(s, id);
  }

  ghost predicate OpIds(s: State) {
    && s.epoch <= s.nextId
    && (s.mem.Down? ==> s.epoch == s.nextId && s.pending == [])
    && (s.mem.Up? ==> forall i :: 0 <= i < |s.mem.active| ==> s.epoch <= s.mem.active[i].id < s.nextId)
  }

  ghost predicate OpInv(s: State) {
    OpIds(s) && forall id: nat :: OpAtomic(s, id)
  }

  lemma EmptyLogRecovers(l: Layout, d: Disk)
    requires ValidDisk(l, d) && HeadList(d[l.start]) == []
    ensures SameHome(l, Recovered(l, d), d)
  {
    RecoveredAt(l, d);
  }

  lemma FlattenPush(groups: seq<seq<Write>>, g: seq<Write>)
    ensures Flatten(groups + [g]) == Flatten(groups) + g
  {
    assert (groups + [g])[..|groups|] == groups;
  }

  lemma DiskStepLogWrite(l: Layout, base: Disk, s: State, e: Event)
    requires DiskInv(l, base, s) && Enabled(l, s, e) && e.LogWrite?
    ensures DiskInv(l, base, Next(l, s, e))
  {
    if !LogFull(l, s.mem.list) {
      var w := Write(s.mem.active[e.i].id, e.b, e.data);
      ReplayConcat(Committed(base, s), s.pending, [w]);
      assert (s.pending + [w])[..|s.pending|] == s.pending;
      var t := Next(l, s, e);
      assert t.mem.view == s.mem.view[e.b := e.data];
    }
  }

  lemma CommittedClose(base: Disk, s: State, committed: bool)
    ensures Committed(base, Close(s, committed))
            == if committed then Replay(Committed(base, s), s.pending) else Committed(base, s)
  {
    FlattenPush(s.groups, s.pending);
    ReplayConcat(base, Flatten(s.groups), s.pending);
  }

  lemma CommitRecovers(l: Layout, base: Disk, s: State, k: nat)
    requires DiskInv(l, base, s) && s.mem.Up?
    requires k <= |CommitWrites(l, s.disk, s.mem.view, s.mem.list)|
    ensures var e := Apply(s.disk, CommitWrites(l, s.disk, s.mem.view, s.mem.list)[..k]);
            && ValidDisk(l, e)
            && SameHome(l, Recovered(l, e), Committed(base, Close(s, k > |s.mem.list|)))
  {
    CommitCrash(l, s.disk, s.mem.view, s.mem.list, k);
    CommittedClose(base, s, k > |s.mem.list|);
    EmptyLogRecovers(l, s.disk);
  }

  lemma {:induction false} DiskStepCommit(l: Layout, base: Disk, s: State, k: nat)
    requires DiskInv(l, base, s) && s.mem.Up?
    requires k <= |CommitWrites(l, s.disk, s.mem.view, s.mem.list)|
    ensures DiskInv(l, base, CommitStep(l, s, k))
  {
    CommitRecovers(l, base, s, k);
    assert Committed(base, CommitStep(l, s, k)) == Committed(base, Close(s, k > |s.mem.list|));
    var ws := CommitWrites(l, s.disk, s.mem.view, s.mem.list);
    if k == |ws| {
      assert ws[..k] == ws;
      CommitDone(l, s.disk, s.mem.view, s.mem.list);
      EmptyLogRecovers(l, CommitStep(l, s, k).disk);
    }
  }

  lemma DiskStepRecover(l: Layout, base: Disk, s: State, e: Event)
    requires DiskInv(l, base, s) && Enabled(l, s, e) && e.Recover? && s.pending == []
    ensures DiskInv(l, base, Next(l, s, e))
  {
    var ws := RecoverWrites(l, s.disk);
    RecoveryCrash(l, s.disk, e.writes);
    if e.writes == |ws| {
      assert ws[..e.writes] == ws;
      var t := Next(l, s, e);
      RecoveryIdempotent(l, s.disk);
      EmptyLogRecovers(l, t.disk);
      assert Replay(Committed(base, s), s.pending) == Committed(base, s);
    }
  }

  lemma OpStepLogWrite(l: Layout, s: State, e: Event, id: nat)
    requires OpIds(s) && OpAtomic(s, id) && Enabled(l, s, e) && e.LogWrite? && !LogFull(l, s.mem.list)
    ensures OpAtomic(Next(l, s, e), id)
  {
    AtomicFacts(s, id);
    var w := Write(s.mem.active[e.i].id, e.b, e.data);
    assert (s.issued + [w])[..|s.issued|] == s.issued;
    assert (s.pending + [w])[..|s.pending|] == s.pending;
  }

  lemma {:induction false} OpStepClose(s: State, committed: bool, id: nat)
    requires OpAtomic(s, id) && s.epoch <= s.nextId
    ensures OpAtomic(Close(s, committed), id)
  {
    AtomicFacts(s, id);
    if committed {
      FlattenPush(s.groups, s.pending);
      WritesOfConcat(Flatten(s.groups), s.pending, id);
    }
  }

  lemma OpStepIds(l: Layout, s: State, e: Event)
    requires OpIds(s) && Enabled(l, s, e)
    ensures OpIds(Next(l, s, e))
  {
  }

  lemma OpStep(l: Layout, s: State, e: Event)
    requires OpInv(s) && Enabled(l, s, e)
    ensures OpInv(Next(l, s, e))
  {
    OpStepIds(l, s, e);
    forall id: nat
      ensures OpAtomic(Next(l, s, e), id)
    {
      assert OpAtomic(s, id);
      match e
      case Begin => AtomicBegin(s, id);
      case LogWrite(_, _, _) =>
        if !LogFull(l, s.mem.list) {
          OpStepLogWrite(l, s, e, id);
        }
      case End(i, k) =>
        if |s.mem.active| == 1 {
          OpStepClose(s, k > |s.mem.list|, id);
        }
      case Crash => OpStepClose(s, false, id);
      case Recover(_) =>
    }
  }

  lemma {:induction false} InvHolds(l: Layout, base: Disk, s: State, run: seq<Event>)
    requires DiskInv(l, base, s) && OpInv(s) && IsRun(l, s, run)
    ensures DiskInv(l, base, After(l, s, run)) && OpInv(After(l, s, run))
    decreases |run|
  {
    if run != [] {
      match run[0] {
        case LogWrite(_, _, _) => DiskStepLogWrite(l, base, s, run[0]);
        case End(_, k) =>
          if |s.mem.active| == 1 {
            DiskStepCommit(l, base, s, k);
          }
        case Recover(_) => DiskStepRecover(l, base, s, run[0]);
        case _ =>
      }
      OpStep(l, s, run[0]);
      InvHolds(l, base, Next(l, s, run[0]), run[1..]);
    }
  }

  lemma BootInv(l: Layout, d: Disk)
    requires ValidDisk(l, d)
    ensures DiskInv(l, Recovered(l, d), Boot(d)) && OpInv(Boot(d))
  {
    assert Flatten(Boot(d).groups) == [];
  }

  // ---- The theorems ----

  /**
   Crash atomicity over every run.  Whenever the power fails, recovery yields exactly the
   home blocks after the groups whose header was written; and while the system is up,
   operations see those groups followed by the writes of the current one.
   */
  lemma CrashAtomicity(l: Layout, d: Disk, run: seq<Event>)
    requires ValidDisk(l, d) && IsRun(l, Boot(d), run)
    ensures var s := After(l, Boot(d), run);
            var base := Recovered(l, d);
            && ValidDisk(l, s.disk)
            && SameHome(l, Recovered(l, s.disk), Replay(base, Flatten(s.groups)))
            && (s.mem.Up? ==> SameHome(l, s.mem.view, Replay(base, Flatten(s.groups) + s.pending)))
  {
    BootInv(l, d);
    InvHolds(l, Recovered(l, d), Boot(d), run);
    var s := After(l, Boot(d), run);
    ReplayConcat(Recovered(l, d), Flatten(s.groups), s.pending);
  }

  /**
   No operation is ever committed in part: of each operation's writes, either all are in
   the committed groups, in order, or none is; and none is while it is still running.
   */
  lemma OperationsAreAtomic(l: Layout, d: Disk, run: seq<Event>, id: nat)
    requires ValidDisk(l, d) && IsRun(l, Boot(d), run)
    ensures var s := After(l, Boot(d), run);
            var done := WritesOf(Flatten(s.groups), id);
            && (done == WritesOf(s.issued, id) || done == [])
            && (s.mem.Up? && (exists i :: 0 <= i < |s.mem.active| && s.mem.active[i].id == id) ==> done == [])
  {
    BootInv(l, d);
    InvHolds(l, Recovered(l, d), Boot(d), run);
    assert OpAtomic(After(l, Boot(d), run), id);
    AtomicFacts(After(l, Boot(d), run), id);
  }

  /** A crash after any run, then a recovery that is itself interrupted any number of times. */
  lemma CrashThenRecover(l: Layout, d: Disk, run: seq<Event>, cuts: seq<nat>)
    requires ValidDisk(l, d) && IsRun(l, Boot(d), run)
    requires IsRun(l, After(l, Boot(d), run), [Crash] + Recoveries(cuts))
    ensures var s := After(l, Boot(d), run);
            var t := After(l, s, [Crash] + Recoveries(cuts));
            && t.groups == s.groups
            && (t.mem.Up? ==> SameHome(l, t.disk, Replay(Recovered(l, d), Flatten(s.groups))))
  {
    BootInv(l, d);
    var base := Recovered(l, d);
    var s := After(l, Boot(d), run);
    InvHolds(l, base, Boot(d), run);
    var more := [Crash] + Recoveries(cuts);
    InvHolds(l, base, s, more);
    assert more[1..] == Recoveries(cuts);
    RecoveriesKeepGroups(l, Next(l, s, Crash), cuts);
    var t := After(l, s, more);
    if t.mem.Up? {
      EmptyLogRecovers(l, t.disk);
    }
  }

  function Recoveries(cuts: seq<nat>): seq<Event> {
    seq(|cuts|, i requires 0 <= i < |cuts| => Recover(cuts[i]))
  }

  lemma {:induction false} RecoveriesKeepGroups(l: Layout, s: State, cuts: seq<nat>)
    requires IsRun(l, s, Recoveries(cuts))
    ensures After(l, s, Recoveries(cuts)).groups == s.groups
    decreases |cuts|
  {
    if cuts != [] {
      assert Recoveries(cuts)[1..] == Recoveries(cuts[1..]);
      RecoveriesKeepGroups(l, Next(l, s, Recover(cuts[0])), cuts[1..]);
    }
  }

  // ---- A crash keeps a prefix ----

  /** Since the system came up, the writes of the committed groups are the first of the writes issued. */
  ghost predicate PrefixInv(s: State) {
    && s.first <= |s.groups| && s.start <= |s.issued|
    && Flatten(s.groups[s.first..]) <= s.issued[s.start..]
    && (s.mem.Down? ==> s.pending == [])
    && (s.mem.Up? ==>
          && Flatten(s.groups[s.first..]) + s.pending == s.issued[s.start..]
          && (s.mem.list == [] ==> s.pending == []))
  }

  lemma PrefixClose(s: State, committed: bool)
    requires PrefixInv(s) && s.mem.Up?
    ensures var t := Close(s, committed);
            && t.first <= |t.groups| && Flatten(t.groups[t.first..]) <= t.issued[t.start..]
            && (committed || s.pending == [] ==> Flatten(t.groups[t.first..]) == t.issued[t.start..])
  {
    FlattenPush(s.groups[s.first..], s.pending);
    assert (s.groups + [s.pending])[s.first..] == s.groups[s.first..] + [s.pending];
  }

  lemma PrefixLogWrite(l: Layout, s: State, e: Event)
    requires PrefixInv(s) && Enabled(l, s, e) && e.LogWrite? && !LogFull(l, s.mem.list)
    ensures PrefixInv(Next(l, s, e))
  {
    var w := Write(s.mem.active[e.i].id, e.b, e.data);
    assert (s.issued + [w])[s.start..] == s.issued[s.start..] + [w];
    assert Flatten(s.groups[s.first..]) + (s.pending + [w]) == Flatten(s.groups[s.first..]) + s.pending + [w];
  }

  lemma PrefixStep(l: Layout, s: State, e: Event)
    requires PrefixInv(s) && Enabled(l, s, e)
    ensures PrefixInv(Next(l, s, e))
  {
    match e
    case Begin =>
    case LogWrite(_, _, _) => if !LogFull(l, s.mem.list) { PrefixLogWrite(l, s, e); }
    case End(i, k) => if |s.mem.active| == 1 { PrefixClose(s, k > |s.mem.list|); }
    case Crash =>
    case Recover(_) => assert s.issued[|s.issued|..] == [] && Flatten(s.groups[|s.groups|..]) == [];
  }

  lemma {:induction false} PrefixHolds(l: Layout, s: State, run: seq<Event>)
    requires PrefixInv(s) && IsRun(l, s, run)
    ensures PrefixInv(After(l, s, run))
    decreases |run|
  {
    if run != [] {
      PrefixStep(l, s, run[0]);
      PrefixHolds(l, Next(l, s, run[0]), run[1..]);
    }
  }

  /** An operation begun since the system came up has no earlier write, issued or committed. */
  ghost predicate NewAt(s: State, id: nat) {
    && s.first <= |s.groups| && s.start <= |s.issued|
    && (id >= s.boot ==> WritesOf(s.issued[..s.start], id) == [] && WritesOf(Flatten(s.groups[..s.first]), id) == [])
  }

  lemma {:induction false} NewHolds(l: Layout, s: State, run: seq<Event>, id: nat)
    requires OpInv(s) && NewAt(s, id) && IsRun(l, s, run)
    ensures NewAt(After(l, s, run), id)
    decreases |run|
  {
    if run != [] {
      assert OpAtomic(s, id);
      NewStep(l, s, run[0], id);
      OpStep(l, s, run[0]);
      NewHolds(l, Next(l, s, run[0]), run[1..], id);
    }
  }

  lemma {:induction false} NewStep(l: Layout, s: State, e: Event, id: nat)
    requires OpIds(s) && OpAtomic(s, id) && NewAt(s, id) && Enabled(l, s, e)
    ensures NewAt(Next(l, s, e), id)
  {
    if e.Recover? {
      AtomicFacts(s, id);
    }
    var t := Next(l, s, e);
    assert t.first == s.first ==> t.groups[..s.first] == s.groups[..s.first];
    assert t.start == s.start ==> t.issued[..s.start] == s.issued[..s.start];
    assert s.issued[..|s.issued|] == s.issued && s.groups[..|s.groups|] == s.groups;
  }

  /** Writes issued by one operation after the other: chunks[k] are those of operation ids[k]. */
  ghost predicate InTurn(chunks: seq<seq<Write>>, ids: seq<nat>) {
    && |ids| == |chunks|
    && (forall k :: 0 <= k < |chunks| ==> WrittenBy(chunks[k], ids[k]))
    && (forall j, k :: 0 <= j < k < |ids| ==> ids[j] != ids[k])
  }

  predicate WrittenBy(ws: seq<Write>, id: nat) {
    forall i :: 0 <= i < |ws| ==> ws[i].id == id
  }

  lemma {:induction false} WritesOfAll(ws: seq<Write>, id: nat)
    requires WrittenBy(ws, id)
    ensures WritesOf(ws, id) == ws
  {
    if ws != [] { WritesOfAll(ws[..|ws| - 1], id); }
  }

  lemma {:induction false} WritesOfNone(ws: seq<Write>, id: nat)
    requires forall i :: 0 <= i < |ws| ==> ws[i].id != id
    ensures WritesOf(ws, id) == []
  {
    if ws != [] { WritesOfNone(ws[..|ws| - 1], id); }
  }

  lemma {:induction false} WritesOfOthers(chunks: seq<seq<Write>>, ids: seq<nat>, id: nat)
    requires InTurn(chunks, ids) && id !in ids
    ensures WritesOf(Flatten(chunks), id) == []
  {
    if chunks != [] {
      var n := |chunks| - 1;
      WritesOfOthers(chunks[..n], ids[..n], id);
      assert WrittenBy(chunks[n], ids[n]);
      WritesOfNone(chunks[n], id);
      WritesOfConcat(Flatten(chunks[..n]), chunks[n], id);
    }
  }

  lemma {:induction false} WholeFront(front: seq<Write>, last: seq<Write>, c: nat, id: nat)
    requires c <= |front| && Whole(front + last, c, id) && forall i :: 0 <= i < |last| ==> last[i].id != id
    ensures Whole(front, c, id)
  {
    WritesOfNone(last, id);
    WritesOfConcat(front, last, id);
    assert (front + last)[..c] == front[..c];
    assert WritesOf(front, id) + [] == WritesOf(front, id);
  }

  lemma {:induction false} WholeLast(front: seq<Write>, last: seq<Write>, c: nat, id: nat)
    requires |front| < c <= |front| + |last| && Whole(front + last, c, id) && WrittenBy(last, id) && WritesOf(front, id) == []
    ensures c == |front| + |last|
  {
    var part := last[..c - |front|];
    assert (front + last)[..c] == front + part;
    WritesOfAll(part, id);
    WritesOfAll(last, id);
    WritesOfConcat(front, part, id);
    WritesOfConcat(front, last, id);
    assert [] + part == part && [] + last == last;
  }

  lemma {:induction false} WholeFronts(chunks: seq<seq<Write>>, ids: seq<nat>, c: nat)
    requires InTurn(chunks, ids) && chunks != [] && c <= |Flatten(chunks[..|chunks| - 1])| <= |Flatten(chunks)|
    requires forall k :: 0 <= k < |ids| ==> Whole(Flatten(chunks), c, ids[k])
    ensures InTurn(chunks[..|chunks| - 1], ids[..|chunks| - 1])
    ensures forall k :: 0 <= k < |chunks| - 1 ==> Whole(Flatten(chunks[..|chunks| - 1]), c, ids[k])
  {
    var n := |chunks| - 1;
    assert WrittenBy(chunks[n], ids[n]);
    forall k | 0 <= k < n
      ensures Whole(Flatten(chunks[..n]), c, ids[k])
    {
      WholeFront(Flatten(chunks[..n]), chunks[n], c, ids[k]);
    }
  }

  /** A prefix that holds all or nothing of each operation's writes is made of whole operations. */
  lemma {:induction false} WholeChunks(chunks: seq<seq<Write>>, ids: seq<nat>, c: nat) returns (m: nat)
    requires InTurn(chunks, ids) && c <= |Flatten(chunks)|
    requires forall k :: 0 <= k < |ids| ==> Whole(Flatten(chunks), c, ids[k])
    ensures m <= |chunks| && Flatten(chunks)[..c] == Flatten(chunks[..m])
  {
    if chunks == [] {
      return 0;
    }
    var n := |chunks| - 1;
    var front, last := Flatten(chunks[..n]), chunks[n];
    assert WrittenBy(last, ids[n]);
    if c <= |front| {
      WholeFronts(chunks, ids, c);
      m := WholeChunks(chunks[..n], ids[..n], c);
      assert chunks[..n][..m] == chunks[..m];
      assert Flatten(chunks)[..c] == front[..c];
    } else {
      WritesOfOthers(chunks[..n], ids[..n], ids[n]);
      WholeLast(front, last, c, ids[n]);
      assert chunks[..|chunks|] == chunks;
      m := |chunks|;
    }
  }

  /** The first c writes hold all of operation id's writes, or none. */
  ghost predicate Whole(ws: seq<Write>, c: nat, id: nat)
    requires c <= |ws|
  {
    WritesOf(ws[..c], id) == [] || WritesOf(ws[..c], id) == WritesOf(ws, id)
  }

  /** All or nothing of an operation that has no earlier write. */
  lemma {:induction false} WholeAfter(gone: seq<Write>, done: seq<Write>, before: seq<Write>, all: seq<Write>, id: nat)
    requires done <= all && WritesOf(gone, id) == [] && WritesOf(before, id) == []
    requires WritesOf(gone + done, id) == [] || WritesOf(gone + done, id) == WritesOf(before + all, id)
    ensures Whole(all, |done|, id)
  {
    WritesOfConcat(gone, done, id);
    WritesOfConcat(before, all, id);
    assert [] + WritesOf(done, id) == WritesOf(done, id) && [] + WritesOf(all, id) == WritesOf(all, id);
    assert all[..|done|] == done;
  }

  /** Of an operation begun since the system came up, the committed writes since then are all or none. */
  lemma {:induction false} WholeSince(s: State, id: nat)
    requires PrefixInv(s) && OpAtomic(s, id) && NewAt(s, id) && id >= s.boot
    ensures Whole(s.issued[s.start..], |Flatten(s.groups[s.first..])|, id)
  {
    AtomicFacts(s, id);
    var a, b := s.groups[..s.first], s.groups[s.first..];
    FlattenConcat(a, b);
    assert a + b == s.groups;
    assert s.issued[..s.start] + s.issued[s.start..] == s.issued;
    WholeAfter(Flatten(a), Flatten(b), s.issued[..s.start], s.issued[s.start..], id);
  }

  lemma {:induction false} FlattenConcat(a: seq<seq<Write>>, b: seq<seq<Write>>)
    ensures Flatten(a + b) == Flatten(a) + Flatten(b)
  {
    if b == [] {
      assert a + b == a;
    } else {
      FlattenConcat(a, b[..|b| - 1]);
      assert (a + b)[..|a + b| - 1] == a + b[..|b| - 1];
      assert Flatten(a) + Flatten(b[..|b| - 1]) + b[|b| - 1] == Flatten(a) + Flatten(b);
    }
  }

  /**
   A crash among operations issued one after the other, such as the chunks of a filewrite that
   runs alone: whenever the power fails, the writes committed since the system came up are those
   of the first m operations, and recovery yields the home blocks as they were after those.
   */
  lemma CrashKeepsWholeOperations(l: Layout, d: Disk, run: seq<Event>, chunks: seq<seq<Write>>, ids: seq<nat>) returns (m: nat)
    requires ValidDisk(l, d) && IsRun(l, Boot(d), run)
    requires var s := After(l, Boot(d), run);
             && InTurn(chunks, ids) && s.start <= |s.issued| && s.issued[s.start..] == Flatten(chunks)
             && forall k :: 0 <= k < |ids| ==> ids[k] >= s.boot
    ensures m <= |chunks|
    ensures var s := After(l, Boot(d), run);
            && s.first <= |s.groups| && Flatten(s.groups[s.first..]) == Flatten(chunks[..m])
            && ValidDisk(l, s.disk)
            && SameHome(l, Recovered(l, s.disk), Replay(Replay(Recovered(l, d), Flatten(s.groups[..s.first])), Flatten(chunks[..m])))
  {
    BootInv(l, d);
    var s := After(l, Boot(d), run);
    PrefixHolds(l, Boot(d), run);
    InvHolds(l, Recovered(l, d), Boot(d), run);
    forall k | 0 <= k < |ids|
      ensures Whole(Flatten(chunks), |Flatten(s.groups[s.first..])|, ids[k])
    {
      NewHolds(l, Boot(d), run, ids[k]);
      assert OpAtomic(s, ids[k]);
      WholeSince(s, ids[k]);
    }
    var done := Flatten(s.groups[s.first..]);
    m := WholeChunks(chunks, ids, |done|);
    assert Flatten(chunks)[..|done|] == done;
    FlattenConcat(s.groups[..s.first], s.groups[s.first..]);
    assert s.groups[..s.first] + s.groups[s.first..] == s.groups;
    ReplayConcat(Recovered(l, d), Flatten(s.groups[..s.first]), done);
    CrashAtomicity(l, d, run);
  }

  // ---- The unlocked test of log_write ----

  ghost predicate Running(s: State, id: nat) {
    s.mem.Up? && exists i :: 0 <= i < |s.mem.active| && s.mem.active[i].id == id
  }

  /** Operation id runs from the first state of a run to the last. */
  ghost predicate RunsOn(l: Layout, s: State, run: seq<Event>, id: nat)
    requires IsRun(l, s, run)
    decreases |run|
  {
    Running(s, id) && (run != [] ==> RunsOn(l, Next(l, s, run[0]), run[1..], id))
  }

  /**
   log_write tests for a full log before it takes log.lock, so other operations may log blocks
   between its test and its own entry.  While it runs the log only grows, so whenever the early
   test panics, a test at the time of the entry would.
   */
  lemma {:induction false} UnlockedTest(l: Layout, s: State, run: seq<Event>, id: nat)
    requires IsRun(l, s, run) && RunsOn(l, s, run, id)
    ensures s.mem.Up? && After(l, s, run).mem.Up? && s.mem.list <= After(l, s, run).mem.list
    ensures LogFull(l, s.mem.list) ==> LogFull(l, After(l, s, run).mem.list)
    decreases |run|
  {
    if run != [] {
      UnlockedTest(l, Next(l, s, run[0]), run[1..], id);
    }
  }

  // ---- Log space ----

  /** Blocks the running operations have reserved and not used. */
  function Unused(active: seq<Op>): (r: int) {
    if active == [] then 0
    else Unused(active[..|active| - 1]) + MAXOPBLOCKS - |active[|active| - 1].blocks|
  }

  /** No operation logs more than MAXOPBLOCKS distinct blocks. */
  ghost predicate Within(s: State, e: Event) {
    e.LogWrite? && s.mem.Up? && e.i < |s.mem.active| ==> |s.mem.active[e.i].blocks + {e.b}| <= MAXOPBLOCKS
  }

  /** Each operation logs a block only while it has logged fewer than MAXOPBLOCKS distinct ones. */
  ghost predicate Disciplined(s: State, e: Event) {
    e.LogWrite? && s.mem.Up? && e.i < |s.mem.active| ==> |s.mem.active[e.i].blocks| < MAXOPBLOCKS
  }

  ghost predicate WithinRun(l: Layout, s: State, run: seq<Event>)
    requires IsRun(l, s, run)
    decreases |run|
  {
    run != [] ==> Within(s, run[0]) && WithinRun(l, Next(l, s, run[0]), run[1..])
  }

  ghost predicate DisciplinedRun(l: Layout, s: State, run: seq<Event>)
    requires IsRun(l, s, run)
    decreases |run|
  {
    run != [] ==> Disciplined(s, run[0]) && DisciplinedRun(l, Next(l, s, run[0]), run[1..])
  }

  lemma GrowSet(s: set<nat>, b: nat)
    ensures |s| <= |s + {b}| <= |s| + 1
  {
    if b in s {
      assert s + {b} == s;
    }
  }

  lemma {:induction false} DisciplinedWithin(l: Layout, s: State, run: seq<Event>)
    requires IsRun(l, s, run) && DisciplinedRun(l, s, run)
    ensures WithinRun(l, s, run)
    decreases |run|
  {
    if run != [] {
      var e := run[0];
      if e.LogWrite? && s.mem.Up? && e.i < |s.mem.active| {
        GrowSet(s.mem.active[e.i].blocks, e.b);
      }
      DisciplinedWithin(l, Next(l, s, e), run[1..]);
    }
  }

  /** The log holds what is logged plus every unused reservation. */
  ghost predicate SpaceInv(s: State) {
    s.mem.Up? ==>
      && |s.mem.list| + Unused(s.mem.active) <= LOGSIZE
      && (forall i :: 0 <= i < |s.mem.active| ==>
            |s.mem.active[i].blocks| <= MAXOPBLOCKS && forall b :: b in s.mem.active[i].blocks ==> b in s.mem.list)
  }

  lemma {:induction false} UnusedUpdate(active: seq<Op>, i: nat, op: Op)
    requires i < |active|
    ensures Unused(active[i := op]) == Unused(active) + |active[i].blocks| - |op.blocks|
  {
    var n := |active| - 1;
    if i == n {
      assert active[i := op][..n] == active[..n];
    } else {
      assert active[i := op][..n] == active[..n][i := op];
      UnusedUpdate(active[..n], i, op);
    }
  }

  lemma {:induction false} UnusedWithout(active: seq<Op>, i: nat)
    requires i < |active|
    ensures Unused(Without(active, i)) == Unused(active) - (MAXOPBLOCKS - |active[i].blocks|)
  {
    var n := |active| - 1;
    if i == n {
      assert Without(active, i) == active[..n];
    } else {
      assert Without(active, i)[..n - 1] == Without(active[..n], i);
      UnusedWithout(active[..n], i);
    }
  }

  lemma UnusedBounds(active: seq<Op>)
    requires forall i :: 0 <= i < |active| ==> |active[i].blocks| <= MAXOPBLOCKS
    ensures 0 <= Unused(active) <= |active| * MAXOPBLOCKS
    ensures forall i :: 0 <= i < |active| ==> MAXOPBLOCKS - |active[i].blocks| <= Unused(active)
  {
  }

  lemma SpaceStepLogWrite(l: Layout, s: State, e: Event)
    requires SpaceInv(s) && Enabled(l, s, e) && e.LogWrite? && Within(s, e)
    ensures SpaceInv(Next(l, s, e))
  {
    var op := s.mem.active[e.i];
    var op' := op.(blocks := op.blocks + {e.b});
    GrowSet(op.blocks, e.b);
    UnusedUpdate(s.mem.active, e.i, op');
    assert e.b in op.blocks ==> op' == op;
    assert e.b !in op.blocks ==> |op'.blocks| == |op.blocks| + 1;
  }

  lemma SpaceStepEnd(l: Layout, s: State, e: Event)
    requires SpaceInv(s) && Enabled(l, s, e) && e.End?
    ensures SpaceInv(Next(l, s, e))
  {
    if |s.mem.active| > 1 {
      UnusedBounds(s.mem.active);
      UnusedWithout(s.mem.active, e.i);
    }
  }

  lemma SpaceStep(l: Layout, s: State, e: Event)
    requires SpaceInv(s) && Enabled(l, s, e) && Within(s, e)
    ensures SpaceInv(Next(l, s, e))
  {
    match e
    case Begin =>
      UnusedBounds(s.mem.active);
      var active := s.mem.active + [Op(s.nextId, {})];
      assert active[..|active| - 1] == s.mem.active;
    case LogWrite(_, _, _) => SpaceStepLogWrite(l, s, e);
    case End(i, k) => SpaceStepEnd(l, s, e);
    case _ =>
  }

  /** Whatever the size of the log: logged blocks plus unused reservations stay within LOGSIZE. */
  lemma {:induction false} SpaceHolds(l: Layout, s: State, run: seq<Event>)
    requires SpaceInv(s) && IsRun(l, s, run) && WithinRun(l, s, run)
    ensures SpaceInv(After(l, s, run))
    decreases |run|
  {
    if run != [] {
      SpaceStep(l, s, run[0]);
      SpaceHolds(l, Next(l, s, run[0]), run[1..]);
    }
  }

  /**
   When log_write panics for lack of space, in a log that is large enough: exactly when LOGSIZE
   blocks are logged; and then the block is one its operation has already logged, and no
   reservation is left unused.
   */
  lemma PanicsWhenFull(l: Layout, d: Disk, run: seq<Event>, e: Event)
    requires ValidDisk(l, d) && l.size - 1 >= LOGSIZE && IsRun(l, Boot(d), run) && WithinRun(l, Boot(d), run)
    requires Enabled(l, After(l, Boot(d), run), e) && e.LogWrite? && Within(After(l, Boot(d), run), e)
    ensures var s := After(l, Boot(d), run);
            && (Next(l, s, e).mem.Panicked? <==> |s.mem.list| == LOGSIZE)
            && (|s.mem.list| == LOGSIZE ==> e.b in s.mem.active[e.i].blocks && Unused(s.mem.active) == 0)
  {
    SpaceHolds(l, Boot(d), run);
    var s := After(l, Boot(d), run);
    UnusedBounds(s.mem.active);
    var blocks := s.mem.active[e.i].blocks;
    if e.b !in blocks {
      assert |blocks + {e.b}| == |blocks| + 1;
    }
  }

  /** A disciplined run never panics if the log is large enough. */
  lemma {:induction false} NoPanic(l: Layout, s: State, run: seq<Event>)
    requires l.size - 1 >= LOGSIZE && SpaceInv(s) && !s.mem.Panicked? && IsRun(l, s, run) && DisciplinedRun(l, s, run)
    ensures !After(l, s, run).mem.Panicked?
    decreases |run|
  {
    if run != [] {
      var e := run[0];
      if e.LogWrite? {
        GrowSet(s.mem.active[e.i].blocks, e.b);
        UnusedBounds(s.mem.active);
      }
      SpaceStep(l, s, e);
      NoPanic(l, Next(l, s, e), run[1..]);
    }
  }

  // ---- Operations that follow a plan ----

  function BlocksOf(ws: seq<Write>): (bs: seq<nat>)
    ensures |bs| == |ws|
  {
    seq(|ws|, i requires 0 <= i < |ws| => ws[i].b)
  }

  function Distinguished(bs: seq<nat>): set<nat> {
    set b | b in bs
  }

  /** A sequence of blocks to log: fewer than MAXOPBLOCKS distinct ones come before each. */
  ghost predicate Frugal(bs: seq<nat>) {
    forall k :: 0 <= k < |bs| ==> |Distinguished(bs[..k])| < MAXOPBLOCKS
  }

  lemma FrugalMore(bs: seq<nat>, b: nat)
    requires Frugal(bs) && |Distinguished(bs)| < MAXOPBLOCKS
    ensures Frugal(bs + [b])
  {
    forall k | 0 <= k < |bs + [b]|
      ensures |Distinguished((bs + [b])[..k])| < MAXOPBLOCKS
    {
      assert (bs + [b])[..k] == if k < |bs| then bs[..k] else bs;
    }
  }

  lemma DistinguishedMore(bs: seq<nat>, b: nat)
    ensures Distinguished(bs + [b]) == Distinguished(bs) + {b}
  {
  }

  /** The operation with number id has so far logged the first blocks of plan(id), and the next one is next on it. */
  ghost predicate OnPlan(s: State, e: Event, plan: nat -> seq<nat>) {
    e.LogWrite? && s.mem.Up? && e.i < |s.mem.active| ==>
      BlocksOf(WritesOf(s.issued, s.mem.active[e.i].id)) + [e.b] <= plan(s.mem.active[e.i].id)
  }

  ghost predicate PlannedRun(l: Layout, s: State, run: seq<Event>, plan: nat -> seq<nat>)
    requires IsRun(l, s, run)
    decreases |run|
  {
    run != [] ==> OnPlan(s, run[0], plan) && PlannedRun(l, Next(l, s, run[0]), run[1..], plan)
  }

  /** Each running operation's set of blocks is that of the writes it has issued, and its number is its own. */
  ghost predicate OpBlocks(s: State) {
    s.mem.Up? ==>
      && (forall i :: 0 <= i < |s.mem.active| ==>
            s.mem.active[i].blocks == Distinguished(BlocksOf(WritesOf(s.issued, s.mem.active[i].id))))
      && (forall i, j :: 0 <= i < j < |s.mem.active| ==> s.mem.active[i].id != s.mem.active[j].id)
  }

  lemma OpBlocksLogWrite(l: Layout, s: State, e: Event)
    requires OpBlocks(s) && Enabled(l, s, e) && e.LogWrite?
    ensures OpBlocks(Next(l, s, e))
  {
    if !LogFull(l, s.mem.list) {
      var op := s.mem.active[e.i];
      var w := Write(op.id, e.b, e.data);
      var t := Next(l, s, e);
      assert t.issued[..|s.issued|] == s.issued;
      assert BlocksOf(WritesOf(s.issued, op.id) + [w]) == BlocksOf(WritesOf(s.issued, op.id)) + [e.b];
      DistinguishedMore(BlocksOf(WritesOf(s.issued, op.id)), e.b);
      forall j | 0 <= j < |t.mem.active|
        ensures t.mem.active[j].blocks == Distinguished(BlocksOf(WritesOf(t.issued, t.mem.active[j].id)))
      {
        assert j != e.i ==> t.mem.active[j] == s.mem.active[j] && s.mem.active[j].id != op.id;
        assert j != e.i ==> WritesOf(t.issued, t.mem.active[j].id) == WritesOf(s.issued, t.mem.active[j].id);
      }
    }
  }

  lemma OpBlocksStep(l: Layout, s: State, e: Event)
    requires OpBlocks(s) && OpInv(s) && Enabled(l, s, e)
    ensures OpBlocks(Next(l, s, e))
  {
    match e
    case Begin =>
      assert OpAtomic(s, s.nextId);
      AtomicFacts(s, s.nextId);
      assert BlocksOf(WritesOf(s.issued, s.nextId)) == [];
    case LogWrite(_, _, _) => OpBlocksLogWrite(l, s, e);
    case _ =>
  }

  /** Operations that log blocks as frugal plans say are disciplined. */
  lemma {:induction false} PlannedDisciplined(l: Layout, s: State, run: seq<Event>, plan: nat -> seq<nat>)
    requires OpBlocks(s) && OpInv(s) && IsRun(l, s, run) && PlannedRun(l, s, run, plan)
    requires forall id {:trigger plan(id)} :: Frugal(plan(id))
    ensures DisciplinedRun(l, s, run)
    decreases |run|
  {
    if run != [] {
      var e := run[0];
      if e.LogWrite? {
        var op := s.mem.active[e.i];
        var bs := BlocksOf(WritesOf(s.issued, op.id));
        assert plan(op.id)[..|bs|] == bs;
        assert Frugal(plan(op.id));
      }
      OpBlocksStep(l, s, e);
      OpStep(l, s, e);
      PlannedDisciplined(l, Next(l, s, e), run[1..], plan);
    }
  }

  /**
   Every run whose operations log as frugal plans say, as the chunks of filewrite do: the log
   space suffices in every reachable state, and with room for LOGSIZE blocks nothing panics.
   */
  lemma PlansFit(l: Layout, d: Disk, run: seq<Event>, plan: nat -> seq<nat>)
    requires ValidDisk(l, d) && IsRun(l, Boot(d), run) && PlannedRun(l, Boot(d), run, plan)
    requires forall id {:trigger plan(id)} :: Frugal(plan(id))
    ensures SpaceInv(After(l, Boot(d), run))
    ensures l.size - 1 >= LOGSIZE ==> !After(l, Boot(d), run).mem.Panicked?
  {
    BootInv(l, d);
    PlannedDisciplined(l, Boot(d), run, plan);
    DisciplinedWithin(l, Boot(d), run);
    SpaceHolds(l, Boot(d), run);
    if l.size - 1 >= LOGSIZE {
      NoPanic(l, Boot(d), run);
    }
  }

  // ---- When the log is large enough ----

  /** Operation i / MAXOPBLOCKS logs the i-th block after the log region. */
  function Fill(l: Layout, i: nat, data: Block): Event {
    LogWrite(i / MAXOPBLOCKS, l.start + l.size + i, data)
  }

  /** How many of the first n fills are operation t's. */
  function Share(n: nat, t: nat): nat {
    if n < MAXOPBLOCKS * t then 0
    else if n < MAXOPBLOCKS * t + MAXOPBLOCKS then n - MAXOPBLOCKS * t
    else MAXOPBLOCKS
  }

  /** Three operations have logged the first n blocks after the log region. */
  ghost predicate Filled(l: Layout, s: State, n: nat) {
    && s.mem.Up?
    && |s.mem.list| == n && (forall x :: x in s.mem.list ==> x < l.start + l.size + n)
    && |s.mem.active| == 3
    && (forall t :: 0 <= t < 3 ==>
          && |s.mem.active[t].blocks| == Share(n, t)
          && (forall b :: b in s.mem.active[t].blocks ==> b < l.start + l.size + n && !l.InLog(b)))
  }

  /** The operations' blocks after fill n, which is operation t's. */
  lemma FilledOps(l: Layout, active: seq<Op>, n: nat, t: nat, b: nat)
    requires |active| == 3 && n < LOGSIZE && t == n / MAXOPBLOCKS < 3 && b == l.start + l.size + n && b !in active[t].blocks
    requires forall u :: 0 <= u < 3 ==> |active[u].blocks| == Share(n, u)
    ensures |active[t].blocks + {b}| == |active[t].blocks| + 1 == Share(n + 1, t)
    ensures forall u :: 0 <= u < 3 && u != t ==> |active[u].blocks| == Share(n + 1, u)
  {
  }

  lemma FilledStep(l: Layout, s: State, n: nat, data: Block)
    requires Filled(l, s, n) && n < LOGSIZE && l.start + l.size + n < |s.disk| && n < l.size - 1
    ensures Enabled(l, s, Fill(l, n, data)) && Disciplined(s, Fill(l, n, data))
    ensures Filled(l, Next(l, s, Fill(l, n, data)), n + 1)
    ensures Next(l, s, Fill(l, n, data)).disk == s.disk
  {
    var b := l.start + l.size + n;
    var t := n / MAXOPBLOCKS;
    assert t == 0 || t == 1 || t == 2;
    assert b !in s.mem.list && b !in s.mem.active[t].blocks;
    FilledOps(l, s.mem.active, n, t, b);
  }

  lemma {:induction false} RunAppend(l: Layout, s: State, run: seq<Event>, e: Event)
    requires IsRun(l, s, run) && DisciplinedRun(l, s, run)
    requires Enabled(l, After(l, s, run), e) && Disciplined(After(l, s, run), e)
    ensures IsRun(l, s, run + [e]) && DisciplinedRun(l, s, run + [e])
    ensures After(l, s, run + [e]) == Next(l, After(l, s, run), e)
    decreases |run|
  {
    if run == [] {
      assert run + [e] == [e];
    } else {
      RunAppend(l, Next(l, s, run[0]), run[1..], e);
      assert (run + [e])[1..] == run[1..] + [e];
    }
  }

  lemma ThreeBegun(l: Layout, d: Disk) returns (run: seq<Event>)
    requires ValidDisk(l, d)
    ensures IsRun(l, Boot(d), run) && DisciplinedRun(l, Boot(d), run)
    ensures Filled(l, After(l, Boot(d), run), 0) && |After(l, Boot(d), run).disk| == |d|
  {
    var s0 := Boot(d);
    var e := Recover(|RecoverWrites(l, d)|);
    RunAppend(l, s0, [], e);
    run := [] + [e];
    for i := 0 to 3
      invariant IsRun(l, s0, run) && DisciplinedRun(l, s0, run)
      invariant After(l, s0, run).mem.Up? && After(l, s0, run).mem.list == []
      invariant After(l, s0, run).mem.active == [Op(0, {}), Op(1, {}), Op(2, {})][..i]
      invariant After(l, s0, run).nextId == i && |After(l, s0, run).disk| == |d|
    {
      RunAppend(l, s0, run, Begin);
      run := run + [Begin];
    }
  }

  lemma {:induction false} FillRun(l: Layout, d: Disk, n: nat, data: Block) returns (run: seq<Event>)
    requires ValidDisk(l, d) && l.start + l.size + LOGSIZE <= |d|
    requires n <= LOGSIZE && n <= l.size - 1
    ensures IsRun(l, Boot(d), run) && DisciplinedRun(l, Boot(d), run)
    ensures Filled(l, After(l, Boot(d), run), n) && |After(l, Boot(d), run).disk| == |d|
  {
    if n == 0 {
      run := ThreeBegun(l, d);
    } else {
      run := FillRun(l, d, n - 1, data);
      FilledStep(l, After(l, Boot(d), run), n - 1, data);
      RunAppend(l, Boot(d), run, Fill(l, n - 1, data));
      run := run + [Fill(l, n - 1, data)];
    }
  }

  /**
   "too big a transaction" cannot happen, however the operations interleave, exactly when
   the log has room for LOGSIZE blocks besides its header.  mkfs.c makes a log of LOGSIZE
   blocks in all, so there the last block of a full log does not fit.
   */
  lemma LogLargeEnough(l: Layout, d: Disk)
    requires ValidDisk(l, d) && l.start + l.size + LOGSIZE <= |d|
    ensures (forall run :: IsRun(l, Boot(d), run) && DisciplinedRun(l, Boot(d), run)
                           ==> !After(l, Boot(d), run).mem.Panicked?)
       <==> l.size - 1 >= LOGSIZE
  {
    if l.size - 1 >= LOGSIZE {
      forall run | IsRun(l, Boot(d), run) && DisciplinedRun(l, Boot(d), run)
        ensures !After(l, Boot(d), run).mem.Panicked?
      {
        NoPanic(l, Boot(d), run);
      }
    } else {
      var n := l.size - 1;
      var e := Fill(l, n, d[l.start]);
      var run := FillRun(l, d, n, d[l.start]);
      RunAppend(l, Boot(d), run, e);
      assert After(l, Boot(d), run + [e]).mem.Panicked?;
    }
  }

  /** The counterpart: an operation that rewrites a block after using up its reservation can find the log full. */
  lemma AbsorptionCheckedTooLate(l: Layout, d: Disk) returns (run: seq<Event>, e: Event)
    requires ValidDisk(l, d) && l.start + l.size + LOGSIZE <= |d| && l.size - 1 >= LOGSIZE
    ensures IsRun(l, Boot(d), run) && DisciplinedRun(l, Boot(d), run)
    ensures var s := After(l, Boot(d), run);
            && Enabled(l, s, e) && e.LogWrite? && e.b in s.mem.active[e.i].blocks
            && Next(l, s, e).mem.Panicked?
  {
    run := FillRun(l, d, LOGSIZE, d[l.start]);
    var s := After(l, Boot(d), run);
    assert s.mem.active[0].blocks != {};
    var b :| b in s.mem.active[0].blocks;
    e := LogWrite(0, b, d[l.start]);
  }
}
