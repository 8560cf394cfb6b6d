/**
 The frames of all processes and pipes over whole runs (proc.c, trap.c, sysproc.c, pipe.c,
 over kalloc.c and vm.c): who holds each frame, that a step of one party leaves the frames and
 the data of every other alone, and that what a party took comes back when it is gone.
 */
module Life {
  import opened Paging
  import opened Params
  import opened Uvm
  import opened Vm

  /** The memory fields of struct proc; an exited process is a zombie until it is waited for. */
  datatype Task = Task(kstack: nat, pgdir: nat, sz: nat, guard: nat, zombie: bool)

  /** Who holds a frame: nobody (it is on the free list), the kernel's own directory, a process or a pipe. */
  datatype Party = Nobody | Kern | Proc(p: nat) | Pipe(k: nat)

  /** Memory with the process table and the open pipes; kpgdir is 0 before kvmalloc. */
  datatype Snap = Snap(mem: Memory, own: Owners, dirs: Dirs, kpgdir: nat, procs: map<nat, Task>, pipes: map<nat, nat>)

  ghost predicate HasDir(s: Snap, w: Party, pd: nat) {
    match w
    case Kern => pd != 0 && s.kpgdir == pd
    case Proc(p) => p in s.procs && s.procs[p].pgdir == pd
    case _ => false
  }

  /** Party w holds frame f, through its stack, its page or its directory. */
  ghost predicate Holds(s: Snap, w: Party, f: nat) {
    f in s.own &&
    match s.own[f]
    case Free => w == Nobody
    case Held => false
    case Stack(p) => w == Proc(p)
    case PipePage(k) => w == Pipe(k)
    case Dir => HasDir(s, w, f)
    case Table(pd, _) => HasDir(s, w, pd)
    case User(pd, _) => HasDir(s, w, pd)
  }

  function Stacks(procs: map<nat, Task>): map<nat, nat> {
    map p | p in procs :: procs[p].kstack
  }

  function RootsOf(s: Snap): Roots {
    Roots(Stacks(s.procs), s.pipes)
  }

  ghost predicate DirOk(s: Snap, pd: nat) {
    pd in s.dirs ==> s.dirs[pd] == 0 && exists w :: HasDir(s, w, pd)
  }

  ghost predicate TaskOk(s: Snap, p: nat) {
    p in s.procs ==>
      var t := s.procs[p];
      t.pgdir in s.dirs && t.pgdir != s.kpgdir && NoneAbove(s.mem, t.pgdir, if t.zombie then 0 else t.sz)
  }

  ghost predicate Apart(s: Snap, p: nat, q: nat) {
    p in s.procs && q in s.procs && s.procs[p].pgdir == s.procs[q].pgdir ==> p == q
  }

  /** The invariant of memory, with the stacks of these processes and the pages of these pipes. */
  ghost predicate Backed(s: Snap) {
    forall z: nat {:trigger Unfold(z)} :: Unfold(z) ==> Inv(s.mem, s.own, s.dirs, RootsOf(s))
  }

  lemma Opened(s: Snap)
    requires Backed(s)
    ensures Inv(s.mem, s.own, s.dirs, RootsOf(s))
  {
    assert Unfold(0);
  }

  /** The state between calls: no frame in anybody's hands, and each directory has one tenant. */
  ghost predicate Good(s: Snap) {
    && Backed(s) && s.mem.Keys == s.own.Keys && Settled(s.own)
    && (s.kpgdir != 0 ==> s.kpgdir in s.dirs)
    && (forall pd {:trigger DirOk(s, pd)} :: DirOk(s, pd))
    && (forall p {:trigger TaskOk(s, p)} :: TaskOk(s, p))
    && (forall p, q {:trigger Apart(s, p, q)} :: Apart(s, p, q))
  }

  /** Every frame is held by exactly one party. */
  lemma OneHolder(s: Snap, f: nat)
    requires Good(s) && f in s.own
    ensures exists w :: Holds(s, w, f)
    ensures forall w, w' :: Holds(s, w, f) && Holds(s, w', f) ==> w == w'
  {
    Opened(s);
    assert OwnedAt(s.mem, s.own, s.dirs, f);
    forall w, w' | Holds(s, w, f) && Holds(s, w', f)
      ensures w == w'
    {
      OneTenant(s);
    }
    match s.own[f]
    case Free => assert Holds(s, Nobody, f);
    case Stack(p) => assert Holds(s, Proc(p), f);
    case PipePage(k) => assert Holds(s, Pipe(k), f);
    case Dir =>
      assert DirOk(s, f);
      var w :| HasDir(s, w, f);
      assert Holds(s, w, f);
    case Table(pd, _) =>
      assert DirOk(s, pd);
      var w :| HasDir(s, w, pd);
      assert Holds(s, w, f);
    case User(pd, _) =>
      assert DirOk(s, pd);
      var w :| HasDir(s, w, pd);
      assert Holds(s, w, f);
    case Held => assert false;
  }

  lemma OneTenant(s: Snap)
    requires Good(s)
    ensures forall w, w', pd :: HasDir(s, w, pd) && HasDir(s, w', pd) ==> w == w'
  {
    forall w, w', pd | HasDir(s, w, pd) && HasDir(s, w', pd)
      ensures w == w'
    {
      if w.Proc? {
        assert TaskOk(s, w.p);
      }
      if w'.Proc? {
        assert TaskOk(s, w'.p);
      }
      if w.Proc? && w'.Proc? {
        assert Apart(s, w.p, w'.p);
      }
    }
  }

  /** A process or pipe that does not exist holds nothing. */
  ghost predicate Gone(s: Snap, w: Party) {
    match w
    case Nobody => false
    case Kern => s.kpgdir == 0
    case Proc(p) => p !in s.procs
    case Pipe(k) => k !in s.pipes
  }

  lemma GoneHoldsNothing(s: Snap, w: Party, f: nat)
    requires Good(s) && Gone(s, w)
    ensures !Holds(s, w, f)
  {
    Opened(s);
    if f in s.own {
      assert RootAt(s.own, RootsOf(s), f);
    }
  }

  // ---- One step ----

  /** Party w has the frames it had, with their data, and a process reads them at the same addresses. */
  ghost predicate Untouched(s: Snap, s': Snap, w: Party) {
    && s'.own.Keys == s.own.Keys
    && (forall f {:trigger Holds(s', w, f)} {:trigger Holds(s, w, f)} :: Holds(s, w, f) <==> Holds(s', w, f))
    && (forall f {:trigger Holds(s', w, f)} {:trigger Holds(s, w, f)} :: Holds(s, w, f) ==> s'.own[f] == s.own[f])
    && (forall f {:trigger Holds(s', w, f)} {:trigger Holds(s, w, f)} :: Holds(s, w, f) && HoldsData(s.own[f]) ==>
          f in s.mem && f in s'.mem && s'.mem[f] == s.mem[f])
    && (w.Proc? ==> SameTask(s, s', w.p))
    && (w.Pipe? ==> (w.k in s.pipes <==> w.k in s'.pipes) && (w.k in s.pipes ==> s'.pipes[w.k] == s.pipes[w.k]))
  }

  ghost predicate SameTask(s: Snap, s': Snap, p: nat) {
    && (p in s.procs <==> p in s'.procs)
    && (p in s.procs ==> s'.procs[p] == s.procs[p] && SameMap(s, s', s.procs[p].pgdir))
  }

  ghost predicate SameMap(s: Snap, s': Snap, pd: nat) {
    forall v :: 0 <= v < UPAGES ==> Look(s'.mem, pd, v) == Look(s.mem, pd, v)
  }

  /** A step in which party who may take and free frames: every other party is untouched. */
  ghost predicate Step(s: Snap, s': Snap, who: Party) {
    && s'.own.Keys == s.own.Keys
    && (forall w {:trigger Untouched(s, s', w)} :: w != who && w != Nobody ==> Untouched(s, s', w))
  }

  /** A process that is untouched reads what it read. */
  lemma UntouchedMeaning(s: Snap, s': Snap, p: nat)
    requires Good(s) && Good(s') && Untouched(s, s', Proc(p)) && p in s.procs && s.procs[p].sz <= KERNBASE
    ensures p in s'.procs && Meaning(s'.mem, s.procs[p].pgdir, s.procs[p].sz) == Meaning(s.mem, s.procs[p].pgdir, s.procs[p].sz)
  {
    var t := s.procs[p];
    Opened(s);
    assert TaskOk(s, p) && DirOk(s, t.pgdir);
    forall v | 0 <= v < PageUp(t.sz)
      ensures Contents(s'.mem, t.pgdir, v) == Contents(s.mem, t.pgdir, v)
    {
      var w := Look(s.mem, t.pgdir, v);
      assert Look(s'.mem, t.pgdir, v) == w;
      assert UserAt(s.mem, s.own, t.pgdir, v);
      if w.present {
        assert Holds(s, Proc(p), w.frame);
      }
    }
  }

  lemma UntouchedTrans(s: Snap, s': Snap, s'': Snap, w: Party)
    requires Untouched(s, s', w) && Untouched(s', s'', w)
    ensures Untouched(s, s'', w)
  {
  }

  // ---- Whole runs ----

  /** states[0], ..., states[n]: step i is one of party actors[i]. */
  ghost predicate Run(states: seq<Snap>, actors: seq<Party>) {
    && |states| == |actors| + 1
    && (forall i :: 0 <= i < |states| ==> Good(states[i]))
    && (forall i :: 0 <= i < |actors| ==> actors[i] != Nobody && Step(states[i], states[i + 1], actors[i]))
  }

  /** Over any run, a party that takes no step keeps its frames, their data and its address space. */
  lemma {:induction false} Isolation(states: seq<Snap>, actors: seq<Party>, w: Party)
    requires Run(states, actors) && w !in actors && w != Nobody
    ensures Untouched(states[0], states[|actors|], w)
    decreases |actors|
  {
    if |actors| > 0 {
      var n := |actors| - 1;
      Isolation(states[..n + 1], actors[..n], w);
      assert Step(states[n], states[n + 1], actors[n]);
      assert actors[n] in actors;
      UntouchedTrans(states[0], states[n], states[n + 1], w);
    }
  }

  lemma {:induction false} SameFrames(states: seq<Snap>, actors: seq<Party>)
    requires Run(states, actors)
    ensures states[|actors|].own.Keys == states[0].own.Keys
    decreases |actors|
  {
    if |actors| > 0 {
      var n := |actors| - 1;
      SameFrames(states[..n + 1], actors[..n]);
      assert Step(states[n], states[n + 1], actors[n]);
    }
  }

  /** A frame whose owner differs after a run is held, before or after, by a party that took a step. */
  lemma ChangedByActors(states: seq<Snap>, actors: seq<Party>, f: nat)
    requires Run(states, actors) && f in states[0].own
    ensures f in states[|actors|].own
    ensures states[|actors|].own[f] != states[0].own[f] ==>
              exists w :: w in actors && (Holds(states[0], w, f) || Holds(states[|actors|], w, f))
  {
    var s, s' := states[0], states[|actors|];
    SameFrames(states, actors);
    OneHolder(s, f);
    OneHolder(s', f);
    var w :| Holds(s, w, f);
    var w' :| Holds(s', w', f);
    if w != Nobody && w !in actors {
      Isolation(states, actors, w);
    }
    if w' != Nobody && w' !in actors {
      Isolation(states, actors, w');
    }
  }

  /**
   Conservation, whatever the interleaving: if the processes and pipes that took a step are gone
   at the end as they were at the start, every frame has the owner it had.
   */
  lemma Conservation(states: seq<Snap>, actors: seq<Party>)
    requires Run(states, actors)
    requires forall w :: w in actors ==> Gone(states[0], w) && Gone(states[|actors|], w)
    ensures states[|actors|].own == states[0].own
  {
    SameFrames(states, actors);
    forall f | f in states[0].own
      ensures states[|actors|].own[f] == states[0].own[f]
    {
      ChangedByActors(states, actors, f);
      forall w | w in actors
        ensures !Holds(states[0], w, f) && !Holds(states[|actors|], w, f)
      {
        GoneHoldsNothing(states[0], w, f);
        GoneHoldsNothing(states[|actors|], w, f);
      }
    }
  }

  /** With no process, pipe or kernel directory left, every frame is on the free list. */
  lemma NothingLeft(s: Snap, f: nat)
    requires Good(s) && s.procs == map[] && s.pipes == map[] && s.kpgdir == 0 && f in s.own
    ensures s.own[f] == Free
  {
    OneHolder(s, f);
    var w :| Holds(s, w, f);
    if w != Nobody {
      GoneHoldsNothing(s, w, f);
    }
  }

  // ---- The steps ----

  /** Good, and the run so far, folded for use in the class below. */
  ghost predicate History(states: seq<Snap>, actors: seq<Party>, now: Snap) {
    forall z: nat {:trigger Unfold(z)} :: Unfold(z) ==> Run(states, actors) && states[|actors|] == now
  }

  lemma Recall(states: seq<Snap>, actors: seq<Party>, now: Snap)
    requires History(states, actors, now)
    ensures Run(states, actors) && states[|actors|] == now && Good(now)
  {
    assert Unfold(0);
  }

  /** What the run so far says of process p. */
  lemma RecallTask(states: seq<Snap>, actors: seq<Party>, s: Snap, p: nat)
    requires History(states, actors, s) && p in s.procs
    ensures var t := s.procs[p];
            && t.pgdir in s.dirs && s.dirs[t.pgdir] == 0 && NoneAbove(s.mem, t.pgdir, if t.zombie then 0 else t.sz)
            && t.kstack in s.own && s.own[t.kstack] == Stack(p)
  {
    Recall(states, actors, s);
    Opened(s);
    assert TaskOk(s, p) && DirOk(s, s.procs[p].pgdir) && StackAt(s.own, RootsOf(s), p);
  }

  lemma Recorded(states: seq<Snap>, actors: seq<Party>, s: Snap, who: Party, s': Snap)
    requires History(states, actors, s) && who != Nobody && Step(s, s', who) && Good(s')
    ensures History(states + [s'], actors + [who], s')
  {
    Recall(states, actors, s);
    var t, a := states + [s'], actors + [who];
    forall i | 0 <= i < |a|
      ensures a[i] != Nobody && Step(t[i], t[i + 1], a[i])
    {
    }
  }

  /** A step that keeps owners, tables and data where party w has them leaves w untouched. */
  lemma KeepsParty(s: Snap, s': Snap, w: Party)
    requires Good(s) && Good(s') && s'.own.Keys == s.own.Keys && DataKept(s.mem, s.own, s'.mem, s'.own)
    requires forall f :: f in s.own && s'.own[f] != s.own[f] ==> !Holds(s, w, f) && !Holds(s', w, f)
    requires forall pd :: HasDir(s, w, pd) <==> HasDir(s', w, pd)
    requires w.Proc? ==> SameTask(s, s', w.p)
    requires w.Pipe? ==> (w.k in s.pipes <==> w.k in s'.pipes) && (w.k in s.pipes ==> s'.pipes[w.k] == s.pipes[w.k])
    ensures Untouched(s, s', w)
  {
    forall f | f in s.own
      ensures Holds(s, w, f) <==> Holds(s', w, f)
      ensures Holds(s, w, f) ==> s'.own[f] == s.own[f]
      ensures Holds(s, w, f) && HoldsData(s.own[f]) ==> f in s.mem && f in s'.mem && s'.mem[f] == s.mem[f]
    {
      assert KeptAt(s.mem, s.own, s'.mem, s'.own, f);
    }
  }

  /** A process other than the tenant of pd sees the same pages. */
  lemma OtherTask(s: Snap, s': Snap, q: nat, pd: nat)
    requires Good(s) && (q in s.procs <==> q in s'.procs) && (q in s.procs ==> s'.procs[q] == s.procs[q] && s.procs[q].pgdir != pd)
    requires forall p, u {:trigger Look(s'.mem, p, u)} :: p in s.dirs && p != pd && s.dirs[p] * 1024 <= u < VPAGES ==>
               Look(s'.mem, p, u) == Look(s.mem, p, u)
    ensures SameTask(s, s', q)
    ensures q in s.procs ==> NoneAbove(s'.mem, s.procs[q].pgdir, if s.procs[q].zombie then 0 else s.procs[q].sz)
  {
    if q in s.procs {
      assert TaskOk(s, q) && DirOk(s, s.procs[q].pgdir);
    }
  }

  /** While processes keep their directories, directories keep their tenants. */
  lemma TenantsKept(s: Snap, s': Snap)
    requires Good(s) && s'.procs.Keys == s.procs.Keys && s'.dirs == s.dirs && s'.kpgdir == s.kpgdir
    requires forall p :: p in s.procs ==> s'.procs[p].pgdir == s.procs[p].pgdir
    ensures forall pd {:trigger DirOk(s', pd)} :: DirOk(s', pd)
    ensures forall a, b {:trigger Apart(s', a, b)} :: Apart(s', a, b)
    ensures forall w, pd :: HasDir(s, w, pd) <==> HasDir(s', w, pd)
  {
    forall pd
      ensures DirOk(s', pd)
    {
      assert DirOk(s, pd);
      if pd in s.dirs {
        var w :| HasDir(s, w, pd);
        assert HasDir(s', w, pd);
      }
    }
    forall a, b
      ensures Apart(s', a, b)
    {
      assert Apart(s, a, b);
    }
  }

  /** Process p keeps its directory and its stack, and the others are as they were. */
  lemma PrivateGood(s: Snap, s': Snap, p: nat, t: Task)
    requires Good(s) && p in s.procs && t.pgdir == s.procs[p].pgdir && t.kstack == s.procs[p].kstack
    requires s' == Snap(s'.mem, s'.own, s.dirs, s.kpgdir, s.procs[p := t], s.pipes)
    requires Backed(s') && s'.mem.Keys == s'.own.Keys && LifeOf(s.own, s'.own, t.pgdir)
    requires SameOutside(s.mem, s'.mem, s.dirs, t.pgdir, 0, UPAGES)
    requires NoneAbove(s'.mem, t.pgdir, if t.zombie then 0 else t.sz)
    ensures Good(s')
  {
    TenantsKept(s, s');
    PrivateTasks(s, s', p, t);
  }

  lemma PrivateTasks(s: Snap, s': Snap, p: nat, t: Task)
    requires Good(s) && p in s.procs && t.pgdir == s.procs[p].pgdir && t.kstack == s.procs[p].kstack
    requires s'.dirs == s.dirs && s'.kpgdir == s.kpgdir && s'.procs == s.procs[p := t]
    requires SameOutside(s.mem, s'.mem, s.dirs, t.pgdir, 0, UPAGES)
    requires NoneAbove(s'.mem, t.pgdir, if t.zombie then 0 else t.sz)
    ensures forall q {:trigger TaskOk(s', q)} :: TaskOk(s', q)
  {
    forall q
      ensures TaskOk(s', q)
    {
      assert TaskOk(s, q) && TaskOk(s, p) && Apart(s, p, q);
      if q != p && q in s.procs {
        OtherTask(s, s', q, t.pgdir);
      }
    }
  }

  /** A fault, sbrk or exit of process p. */
  lemma PrivateStep(s: Snap, s': Snap, p: nat, t: Task)
    requires Good(s) && p in s.procs && t.pgdir == s.procs[p].pgdir && t.kstack == s.procs[p].kstack
    requires s' == Snap(s'.mem, s'.own, s.dirs, s.kpgdir, s.procs[p := t], s.pipes)
    requires Backed(s') && s'.mem.Keys == s'.own.Keys
    requires Private(s.mem, s.own, s.dirs, s'.mem, s'.own, t.pgdir)
    requires NoneAbove(s'.mem, t.pgdir, if t.zombie then 0 else t.sz)
    ensures Good(s') && Step(s, s', Proc(p))
  {
    PrivateGood(s, s', p, t);
    OneTenant(s);
    OneTenant(s');
    assert HasDir(s, Proc(p), t.pgdir) && HasDir(s', Proc(p), t.pgdir);
    forall w | w != Proc(p) && w != Nobody
      ensures Untouched(s, s', w)
    {
      if w.Proc? {
        assert Apart(s, p, w.p);
        OtherTask(s, s', w.p, t.pgdir);
      }
      KeepsParty(s, s', w);
    }
  }

  // ---- fork and userinit ----

  /** A new process q with stack and directory d from the free list. */
  ghost predicate Born(s: Snap, s': Snap, q: nat) {
    && q !in s.procs && q in s'.procs && s'.procs[q].pgdir !in s.dirs && s'.procs[q].pgdir != 0
    && s'.own.Keys == s.own.Keys && s'.kpgdir == s.kpgdir && s'.pipes == s.pipes
    && s'.procs == s.procs[q := s'.procs[q]] && s'.dirs == s.dirs[s'.procs[q].pgdir := 0]
    && (forall f :: f in s.own && s'.own[f] != s.own[f] ==>
          s.own[f] == Free && (s'.own[f] == Stack(q) || f == s'.procs[q].pgdir || Of(s'.own[f], s'.procs[q].pgdir)))
    && s'.procs[q].pgdir in s'.own && s'.own[s'.procs[q].pgdir] == Dir
    && SameLook(s.mem, s'.mem, s.dirs) && DataKept(s.mem, s.own, s'.mem, s'.own)
    && NoneAbove(s'.mem, s'.procs[q].pgdir, if s'.procs[q].zombie then 0 else s'.procs[q].sz)
  }

  lemma BornGood(s: Snap, s': Snap, q: nat)
    requires Good(s) && Born(s, s', q) && Backed(s') && s'.mem.Keys == s'.own.Keys
    ensures Good(s')
  {
    var d := s'.procs[q].pgdir;
    forall pd
      ensures DirOk(s', pd)
    {
      assert DirOk(s, pd);
      if pd in s.dirs {
        var w :| HasDir(s, w, pd);
        assert HasDir(s', w, pd);
      }
      assert HasDir(s', Proc(q), d);
    }
    forall r
      ensures TaskOk(s', r)
    {
      assert TaskOk(s, r);
      if r != q {
        OtherTask(s, s', r, d);
      }
    }
    forall a, b
      ensures Apart(s', a, b)
    {
      assert Apart(s, a, b) && TaskOk(s, a) && TaskOk(s, b);
    }
  }

  lemma BornStep(s: Snap, s': Snap, q: nat)
    requires Good(s) && Born(s, s', q) && Backed(s') && s'.mem.Keys == s'.own.Keys
    ensures Good(s') && Step(s, s', Proc(q))
  {
    BornGood(s, s', q);
    OneTenant(s');
    assert HasDir(s', Proc(q), s'.procs[q].pgdir);
    forall w | w != Proc(q) && w != Nobody
      ensures Untouched(s, s', w)
    {
      if w.Proc? {
        assert TaskOk(s, w.p);
        OtherTask(s, s', w.p, s'.procs[q].pgdir);
      }
      KeepsParty(s, s', w);
    }
  }

  // ---- exec ----

  /** Process p has the new directory d instead of the old one, whose frames are free. */
  ghost predicate Reborn(s: Snap, s': Snap, p: nat) {
    && p in s.procs && p in s'.procs && !s'.procs[p].zombie && s'.procs[p].kstack == s.procs[p].kstack
    && var pd, d := s.procs[p].pgdir, s'.procs[p].pgdir;
       && d !in s.dirs && d != 0 && s'.dirs == s.dirs[d := 0] - {pd} && s'.procs == s.procs[p := s'.procs[p]]
       && s'.kpgdir == s.kpgdir && s'.pipes == s.pipes && Replaced(s.own, s'.own, pd, d)
       && SameLook(s.mem, s'.mem, s.dirs - {pd}) && DataKept(s.mem, s.own, s'.mem, s'.own)
       && NoneAbove(s'.mem, d, s'.procs[p].sz)
  }

  lemma RebornOther(s: Snap, s': Snap, p: nat, q: nat)
    requires Good(s) && Reborn(s, s', p) && q != p
    ensures SameTask(s, s', q) && TaskOk(s', q)
  {
    assert TaskOk(s, q) && TaskOk(s, p) && Apart(s, p, q);
    if q in s.procs {
      assert DirOk(s, s.procs[q].pgdir);
    }
  }

  lemma RebornGood(s: Snap, s': Snap, p: nat)
    requires Good(s) && Reborn(s, s', p) && Backed(s') && s'.mem.Keys == s'.own.Keys
    ensures Good(s')
  {
    RebornTenants(s, s', p);
    forall q
      ensures TaskOk(s', q)
    {
      assert TaskOk(s, p);
      if q != p {
        RebornOther(s, s', p, q);
      }
    }
  }

  lemma RebornTenants(s: Snap, s': Snap, p: nat)
    requires Good(s) && Reborn(s, s', p)
    ensures s'.kpgdir != 0 ==> s'.kpgdir in s'.dirs
    ensures forall x {:trigger DirOk(s', x)} :: DirOk(s', x)
    ensures forall a, b {:trigger Apart(s', a, b)} :: Apart(s', a, b)
  {
    assert TaskOk(s, p);
    forall x
      ensures DirOk(s', x)
    {
      assert DirOk(s, x);
      if x in s.dirs && x in s'.dirs {
        var w :| HasDir(s, w, x);
        assert HasDir(s', w, x);
      }
      assert HasDir(s', Proc(p), s'.procs[p].pgdir);
    }
    forall a, b
      ensures Apart(s', a, b)
    {
      assert Apart(s, a, b) && TaskOk(s, a) && TaskOk(s, b);
    }
  }

  lemma RebornStep(s: Snap, s': Snap, p: nat)
    requires Good(s) && Reborn(s, s', p) && Backed(s') && s'.mem.Keys == s'.own.Keys
    ensures Good(s') && Step(s, s', Proc(p))
  {
    RebornGood(s, s', p);
    forall w | w != Proc(p) && w != Nobody
      ensures Untouched(s, s', w)
    {
      if w.Proc? {
        RebornOther(s, s', p, w.p);
      }
      forall f | f in s.own && s'.own[f] != s.own[f]
        ensures !Holds(s, w, f) && !Holds(s', w, f)
      {
        RebornFrame(s, s', p, w, f);
      }
      KeepsParty(s, s', w);
    }
  }

  lemma RebornFrame(s: Snap, s': Snap, p: nat, w: Party, f: nat)
    requires Good(s) && Good(s') && Reborn(s, s', p) && w != Proc(p) && w != Nobody
    requires f in s.own && s'.own[f] != s.own[f]
    ensures !Holds(s, w, f) && !Holds(s', w, f)
  {
    Opened(s);
    assert TaskOk(s, p) && DirAt(s.own, s.procs[p].pgdir);
    OneTenant(s);
    OneTenant(s');
    assert HasDir(s, Proc(p), s.procs[p].pgdir) && HasDir(s', Proc(p), s'.procs[p].pgdir);
  }

  // ---- wait ----

  /** Process q is gone and exactly the frames it held are free. */
  ghost predicate Reaped(s: Snap, s': Snap, q: nat) {
    && q in s.procs && s'.procs == s.procs - {q} && s'.dirs == s.dirs - {s.procs[q].pgdir}
    && s'.own.Keys == s.own.Keys && s'.kpgdir == s.kpgdir && s'.pipes == s.pipes
    && (forall f :: f in s.own ==> s'.own[f] == if Holds(s, Proc(q), f) then Free else s.own[f])
    && SameLook(s.mem, s'.mem, s'.dirs) && DataKept(s.mem, s.own, s'.mem, s'.own)
  }

  lemma ReapedGood(s: Snap, s': Snap, q: nat)
    requires Good(s) && Reaped(s, s', q) && Backed(s') && s'.mem.Keys == s'.own.Keys
    ensures Good(s')
  {
    assert TaskOk(s, q);
    forall pd
      ensures DirOk(s', pd)
    {
      assert DirOk(s, pd);
      if pd in s'.dirs {
        var w :| HasDir(s, w, pd);
        assert HasDir(s', w, pd);
      }
    }
    forall r
      ensures TaskOk(s', r)
    {
      assert TaskOk(s, r) && Apart(s, q, r);
      if r in s'.procs {
        LeftTask(s, s', q, r);
      }
    }
    forall a, b
      ensures Apart(s', a, b)
    {
      assert Apart(s, a, b);
    }
  }

  lemma LeftTask(s: Snap, s': Snap, q: nat, r: nat)
    requires Good(s) && Reaped(s, s', q) && r in s.procs && r != q
    ensures SameTask(s, s', r)
    ensures NoneAbove(s'.mem, s.procs[r].pgdir, if s.procs[r].zombie then 0 else s.procs[r].sz)
  {
    assert TaskOk(s, r) && Apart(s, q, r) && DirOk(s, s.procs[r].pgdir);
  }

  lemma ReapedStep(s: Snap, s': Snap, q: nat)
    requires Good(s) && Reaped(s, s', q) && Backed(s') && s'.mem.Keys == s'.own.Keys
    ensures Good(s') && Step(s, s', Proc(q))
  {
    ReapedGood(s, s', q);
    forall w | w != Proc(q) && w != Nobody
      ensures Untouched(s, s', w)
    {
      if w.Proc? && w.p in s.procs {
        LeftTask(s, s', q, w.p);
      }
      forall f | f in s.own && s'.own[f] != s.own[f]
        ensures !Holds(s, w, f) && !Holds(s', w, f)
      {
        OneHolder(s, f);
      }
      KeepsParty(s, s', w);
    }
  }

  /** wait's frees, said in terms of holders. */
  lemma TornHeld(s: Snap, own': Owners, q: nat)
    requires Good(s) && q in s.procs && s.procs[q].kstack in s.own
    requires TornDown(s.own[s.procs[q].kstack := Free], own', s.procs[q].pgdir)
    ensures forall f :: f in s.own ==> own'[f] == if Holds(s, Proc(q), f) then Free else s.own[f]
  {
    var t := s.procs[q];
    Opened(s);
    assert TaskOk(s, q) && DirAt(s.own, t.pgdir) && StackAt(s.own, RootsOf(s), q);
    forall f | f in s.own
      ensures own'[f] == if Holds(s, Proc(q), f) then Free else s.own[f]
    {
      assert OwnedAt(s.mem, s.own, s.dirs, f) && RootAt(s.own, RootsOf(s), f);
      if f == t.pgdir {
        assert Holds(s, Proc(q), f);
      }
    }
  }

  /** A call that fails and gives everything back. */
  lemma SettledStep(s: Snap, s': Snap, who: Party)
    requires Good(s) && s' == Snap(s'.mem, s.own, s.dirs, s.kpgdir, s.procs, s.pipes)
    requires SameLook(s.mem, s'.mem, s.dirs) && DataKept(s.mem, s.own, s'.mem, s.own) && Backed(s') && s'.mem.Keys == s.own.Keys
    ensures Good(s') && Step(s, s', who)
  {
    SameTenants(s, s');
    forall w | w != Nobody
      ensures Untouched(s, s', w)
    {
      if w.Proc? {
        NotZero(s, w.p);
        OtherTask(s, s', w.p, 0);
      }
      KeepsParty(s, s', w);
    }
  }

  /** While processes and directories stay, directories keep their tenants. */
  lemma SameTenants(s: Snap, s': Snap)
    requires Good(s) && s'.procs == s.procs && s'.dirs == s.dirs && s'.kpgdir == s.kpgdir && SameLook(s.mem, s'.mem, s.dirs)
    ensures forall pd {:trigger DirOk(s', pd)} :: DirOk(s', pd)
    ensures forall q {:trigger TaskOk(s', q)} :: TaskOk(s', q)
    ensures forall a, b {:trigger Apart(s', a, b)} :: Apart(s', a, b)
  {
    TenantsKept(s, s');
    forall q
      ensures TaskOk(s', q)
    {
      assert TaskOk(s, q);
      if q in s.procs {
        NotZero(s, q);
        OtherTask(s, s', q, 0);
      }
    }
  }

  lemma NotZero(s: Snap, p: nat)
    requires Good(s)
    ensures p in s.procs ==> s.procs[p].pgdir != 0
  {
    Opened(s);
    assert TaskOk(s, p);
    if p in s.procs {
      assert DirAt(s.own, s.procs[p].pgdir) && PageAt(s.mem, s.procs[p].pgdir);
    }
  }

  // ---- pipes ----

  /** Pipe k takes a page, or gives it back. */
  ghost predicate PipeChange(s: Snap, s': Snap, k: nat, f: nat, takes: bool) {
    && s' == Snap(s'.mem, s.own[f := if takes then PipePage(k) else Free], s.dirs, s.kpgdir, s.procs,
                  if takes then s.pipes[k := f] else s.pipes - {k})
    && f in s.own && (if takes then s.own[f] == Free && k !in s.pipes else s.own[f] == PipePage(k))
    && SameLook(s.mem, s'.mem, s.dirs) && DataKept(s.mem, s.own, s'.mem, s'.own)
  }

  lemma PipeStep(s: Snap, s': Snap, k: nat, f: nat, takes: bool)
    requires Good(s) && PipeChange(s, s', k, f, takes) && Backed(s') && s'.mem.Keys == s'.own.Keys
    ensures Good(s') && Step(s, s', Pipe(k))
  {
    SameTenants(s, s');
    forall w | w != Pipe(k) && w != Nobody
      ensures Untouched(s, s', w)
    {
      if w.Proc? {
        NotZero(s, w.p);
        OtherTask(s, s', w.p, 0);
      }
      KeepsParty(s, s', w);
    }
  }

  // ---- the kernel's directory ----

  lemma KernStep(s: Snap, s': Snap)
    requires Good(s) && s.kpgdir == 0 && s'.kpgdir !in s.dirs && s'.kpgdir != 0
    requires s' == Snap(s'.mem, s'.own, s.dirs[s'.kpgdir := 0], s'.kpgdir, s.procs, s.pipes)
    requires Built(s.own, s'.own, s'.kpgdir) && SameLook(s.mem, s'.mem, s.dirs) && DataKept(s.mem, s.own, s'.mem, s'.own)
    requires Backed(s') && s'.mem.Keys == s'.own.Keys
    ensures Good(s') && Step(s, s', Kern)
  {
    var d := s'.kpgdir;
    forall pd
      ensures DirOk(s', pd)
    {
      assert DirOk(s, pd);
      if pd in s.dirs {
        var w :| HasDir(s, w, pd);
        assert HasDir(s', w, pd);
      }
      assert HasDir(s', Kern, d);
    }
    forall q
      ensures TaskOk(s', q)
    {
      assert TaskOk(s, q);
      OtherTask(s, s', q, d);
    }
    forall a, b
      ensures Apart(s', a, b)
    {
      assert Apart(s, a, b);
    }
    OneTenant(s');
    forall w | w != Kern && w != Nobody
      ensures Untouched(s, s', w)
    {
      if w.Proc? {
        assert TaskOk(s, w.p);
        OtherTask(s, s', w.p, d);
      }
      KeepsParty(s, s', w);
    }
  }

  // ---- The steps, added to the run so far ----

  lemma Behind(s: Snap, freelist: nat, free: seq<nat>)
    requires Kept(s.mem, s.own, s.dirs, RootsOf(s), freelist, free)
    ensures Backed(s)
  {
    assert Unfold(0);
  }

  lemma PrivateRecorded(states: seq<Snap>, actors: seq<Party>, s: Snap, s': Snap, p: nat, t: Task, freelist: nat, free: seq<nat>)
    requires History(states, actors, s) && s'.mem.Keys == s'.own.Keys && Kept(s'.mem, s'.own, s'.dirs, RootsOf(s), freelist, free)
    requires p in s.procs && t.pgdir == s.procs[p].pgdir && t.kstack == s.procs[p].kstack
    requires s' == Snap(s'.mem, s'.own, s.dirs, s.kpgdir, s.procs[p := t], s.pipes)
    requires Private(s.mem, s.own, s.dirs, s'.mem, s'.own, t.pgdir)
    requires NoneAbove(s'.mem, t.pgdir, if t.zombie then 0 else t.sz)
    ensures History(states + [s'], actors + [Proc(p)], s') && Step(s, s', Proc(p)) && RootsOf(s') == RootsOf(s)
  {
    Recall(states, actors, s);
    StacksMore(s.procs, p, t);
    Behind(s', freelist, free);
    PrivateStep(s, s', p, t);
    Recorded(states, actors, s, Proc(p), s');
  }

  lemma ForkRecorded(states: seq<Snap>, actors: seq<Party>, s: Snap, s': Snap, q: nat, freelist: nat, free: seq<nat>)
    requires History(states, actors, s) && s'.mem.Keys == s'.own.Keys && Kept(s'.mem, s'.own, s'.dirs, RootsOf(s'), freelist, free)
    requires q !in s.procs && q in s'.procs && s'.procs == s.procs[q := s'.procs[q]]
    requires s' == Snap(s'.mem, s'.own, s.dirs[s'.procs[q].pgdir := 0], s.kpgdir, s'.procs, s.pipes)
    requires s'.procs[q].pgdir !in s.dirs && s'.procs[q].pgdir != 0
    requires Forked(s.own, s'.own, q, s'.procs[q].kstack, s'.procs[q].pgdir)
    requires SameLook(s.mem, s'.mem, s.dirs) && DataKept(s.mem, s.own, s'.mem, s'.own)
    requires !s'.procs[q].zombie && NoneAbove(s'.mem, s'.procs[q].pgdir, s'.procs[q].sz)
    ensures History(states + [s'], actors + [Proc(q)], s') && Step(s, s', Proc(q))
  {
    Recall(states, actors, s);
    Behind(s', freelist, free);
    BornStep(s, s', q);
    Recorded(states, actors, s, Proc(q), s');
  }

  lemma ExecRecorded(states: seq<Snap>, actors: seq<Party>, s: Snap, s': Snap, p: nat, freelist: nat, free: seq<nat>)
    requires History(states, actors, s) && s'.mem.Keys == s'.own.Keys && Kept(s'.mem, s'.own, s'.dirs, RootsOf(s), freelist, free)
    requires Reborn(s, s', p)
    ensures History(states + [s'], actors + [Proc(p)], s') && Step(s, s', Proc(p)) && RootsOf(s') == RootsOf(s)
  {
    Recall(states, actors, s);
    StacksMore(s.procs, p, s'.procs[p]);
    Behind(s', freelist, free);
    RebornStep(s, s', p);
    Recorded(states, actors, s, Proc(p), s');
  }

  /** Exactly the frames that party w held are free now. */
  ghost predicate Freed(s: Snap, own': Owners, w: Party) {
    own'.Keys == s.own.Keys && forall f :: f in s.own ==> own'[f] == if Holds(s, w, f) then Free else s.own[f]
  }

  lemma WaitRecorded(states: seq<Snap>, actors: seq<Party>, s: Snap, s': Snap, q: nat, freelist: nat, free: seq<nat>)
    requires History(states, actors, s) && s'.mem.Keys == s'.own.Keys && Kept(s'.mem, s'.own, s'.dirs, RootsOf(s'), freelist, free) && q in s.procs
    requires s' == Snap(s'.mem, s'.own, s.dirs - {s.procs[q].pgdir}, s.kpgdir, s.procs - {q}, s.pipes)
    requires s.procs[q].kstack in s.own && TornDown(s.own[s.procs[q].kstack := Free], s'.own, s.procs[q].pgdir)
    requires SameLook(s.mem, s'.mem, s'.dirs) && DataKept(s.mem, s.own, s'.mem, s'.own)
    ensures History(states + [s'], actors + [Proc(q)], s') && Step(s, s', Proc(q)) && Freed(s, s'.own, Proc(q))
  {
    Recall(states, actors, s);
    Behind(s', freelist, free);
    TornHeld(s, s'.own, q);
    ReapedStep(s, s', q);
    Recorded(states, actors, s, Proc(q), s');
  }

  lemma PipeRecorded(states: seq<Snap>, actors: seq<Party>, s: Snap, s': Snap, k: nat, f: nat, takes: bool, freelist: nat, free: seq<nat>)
    requires History(states, actors, s) && s'.mem.Keys == s'.own.Keys && Kept(s'.mem, s'.own, s'.dirs, RootsOf(s'), freelist, free)
    requires PipeChange(s, s', k, f, takes)
    ensures History(states + [s'], actors + [Pipe(k)], s') && Step(s, s', Pipe(k))
  {
    Recall(states, actors, s);
    Behind(s', freelist, free);
    PipeStep(s, s', k, f, takes);
    Recorded(states, actors, s, Pipe(k), s');
  }

  lemma NothingRecorded(states: seq<Snap>, actors: seq<Party>, s: Snap, s': Snap, who: Party, freelist: nat, free: seq<nat>)
    requires History(states, actors, s) && s'.mem.Keys == s'.own.Keys && Kept(s'.mem, s'.own, s'.dirs, RootsOf(s'), freelist, free) && who != Nobody
    requires s' == Snap(s'.mem, s.own, s.dirs, s.kpgdir, s.procs, s.pipes)
    requires SameLook(s.mem, s'.mem, s.dirs) && DataKept(s.mem, s.own, s'.mem, s'.own)
    ensures History(states + [s'], actors + [who], s') && Step(s, s', who)
  {
    Recall(states, actors, s);
    Behind(s', freelist, free);
    SettledStep(s, s', who);
    Recorded(states, actors, s, who, s');
  }

  lemma KernRecorded(states: seq<Snap>, actors: seq<Party>, s: Snap, s': Snap, freelist: nat, free: seq<nat>)
    requires History(states, actors, s) && s'.mem.Keys == s'.own.Keys && Kept(s'.mem, s'.own, s'.dirs, RootsOf(s'), freelist, free)
    requires s.kpgdir == 0 && s'.kpgdir !in s.dirs && s'.kpgdir != 0
    requires s' == Snap(s'.mem, s'.own, s.dirs[s'.kpgdir := 0], s'.kpgdir, s.procs, s.pipes)
    requires Built(s.own, s'.own, s'.kpgdir) && SameLook(s.mem, s'.mem, s.dirs) && DataKept(s.mem, s.own, s'.mem, s'.own)
    ensures History(states + [s'], actors + [Kern], s') && Step(s, s', Kern)
  {
    Recall(states, actors, s);
    Behind(s', freelist, free);
    KernStep(s, s');
    Recorded(states, actors, s, Kern, s');
  }

  lemma StacksMore(procs: map<nat, Task>, q: nat, t: Task)
    ensures Stacks(procs[q := t]) == Stacks(procs)[q := t.kstack]
    ensures q in procs && procs[q].kstack == t.kstack ==> Stacks(procs[q := t]) == Stacks(procs)
    ensures Stacks(procs - {q}) == Stacks(procs) - {q}
  {
  }

  lemma NobodyMoved(mem: Memory, own: Owners, dirs: Dirs, mem': Memory, pd: nat)
    requires Sealed(mem, own, dirs) && mem'.Keys == mem.Keys && SameLook(mem, mem', dirs) && DataKept(mem, own, mem', own)
    ensures Private(mem, own, dirs, mem', own, pd)
    ensures forall p, v {:trigger Look(mem', p, v)} :: p in dirs && dirs[p] == 0 && 0 <= v < UPAGES ==> Look(mem', p, v) == Look(mem, p, v)
  {
    OthersKept(mem, own, dirs, mem', own, pd);
  }

  lemma OnePage(mem: Memory, pd: nat, page: seq<Word>)
    requires Contents(mem, pd, 0) == page
    ensures Meaning(mem, pd, PGSIZE) == [page]
  {
  }

  /** setupkvm on kmap takes 65 frames. */
  method KernelSpace(m: Machine, data: nat) returns (pd: nat)
    requires m.Valid() && 0x80100 < data < 0x8E000
    modifies m
    ensures m.Valid() && m.roots == old(m.roots) && (pd != 0 <==> |old(m.free)| >= 65)
    ensures SameLook(old(m.mem), m.mem, old(m.dirs)) && DataKept(old(m.mem), old(m.own), m.mem, m.own)
    ensures pd != 0 ==> pd !in old(m.dirs) && m.dirs == old(m.dirs)[pd := 0] && Built(old(m.own), m.own, pd)
  {
    KernelTables(data);
    pd := m.SetupKvm(KernelRows(data));
  }

  /** The process table and the pipes over physical memory, with the run so far. */
  class Kernel {
    const m: Machine
    const data: nat // the first page of the kernel's data
    var kpgdir: nat
    var procs: map<nat, Task>
    var pipes: map<nat, nat>
    ghost var states: seq<Snap>
    ghost var actors: seq<Party>

    ghost function Now(): Snap
      reads this`kpgdir, this`procs, this`pipes, m`mem, m`own, m`dirs
    {
      Snap(m.mem, m.own, m.dirs, kpgdir, procs, pipes)
    }

    ghost predicate Valid()
      reads this, m
    {
      && m.Valid() && 0x80100 < data < 0x8E000 && m.roots == RootsOf(Now())
      && History(states, actors, Now())
    }

    /** The last step of the run was one of party who, from state s. */
    ghost predicate Stepped(s: Snap, states0: seq<Snap>, actors0: seq<Party>, who: Party)
      reads this, m
    {
      Valid() && states == states0 + [Now()] && actors == actors0 + [who] && Step(s, Now(), who)
    }

    /** After kinit: all frames free. */
    constructor (machine: Machine, data: nat)
      requires machine.Valid() && machine.dirs == map[] && machine.roots == Roots(map[], map[]) && 0x80100 < data < 0x8E000
      requires forall f :: f in machine.own ==> machine.own[f] == Free
      ensures Valid() && m == machine && this.data == data && kpgdir == 0 && procs == map[] && pipes == map[]
      ensures states == [Now()] && actors == []
    {
      m := machine;
      this.data := data;
      kpgdir := 0;
      procs := map[];
      pipes := map[];
      actors := [];
      states := [Snap(machine.mem, machine.own, machine.dirs, 0, map[], map[])];
      new;
      machine.Open();
      assert RootsOf(Now()) == machine.roots;
    }

    /** kvmalloc: false when there is no memory for the kernel's directory. */
    method KvmAlloc() returns (ok: bool)
      requires Valid() && kpgdir == 0
      modifies this, m
      ensures ok <==> |old(m.free)| >= 65
      ensures ok ==> kpgdir != 0 && Stepped(old(Now()), old(states), old(actors), Kern) && procs == old(procs) && pipes == old(pipes)
    {
      ghost var s := Now();
      kpgdir := KernelSpace(m, data);
      ok := kpgdir != 0;
      if ok {
        KernRecorded(states, actors, s, Now(), m.freelist, m.free);
        states, actors := states + [Now()], actors + [Kern];
      }
    }

    /** A process with a new stack and directory enters the table. */
    method Enter(ghost s: Snap, q: nat, t: Task)
      requires 0x80100 < data < 0x8E000 && m.Valid() && History(states, actors, s) && q !in s.procs
      requires Now() == Snap(m.mem, m.own, s.dirs[t.pgdir := 0], s.kpgdir, s.procs, s.pipes)
      requires m.roots == RootsOf(s).(stacks := RootsOf(s).stacks[q := t.kstack]) && t.pgdir !in s.dirs && t.pgdir != 0
      requires Forked(s.own, m.own, q, t.kstack, t.pgdir)
      requires SameLook(s.mem, m.mem, s.dirs) && DataKept(s.mem, s.own, m.mem, m.own)
      requires !t.zombie && NoneAbove(m.mem, t.pgdir, t.sz)
      modifies this
      ensures procs == old(procs)[q := t] && Stepped(s, old(states), old(actors), Proc(q))
    {
      StacksMore(procs, q, t);
      procs := procs[q := t];
      ForkRecorded(states, actors, s, Now(), q, m.freelist, m.free);
      states, actors := states + [Now()], actors + [Proc(q)];
    }

    /** userinit: the first process, in slot p. */
    method First(p: nat, code: seq<Word>) returns (ok: bool)
      requires Valid() && p !in procs && |code| == ENTRIES
      modifies this, m
      ensures ok <==> |old(m.free)| >= 68
      ensures ok ==> Stepped(old(Now()), old(states), old(actors), Proc(p))
      ensures ok ==> p in procs && procs == old(procs)[p := Task(procs[p].kstack, procs[p].pgdir, PGSIZE, 0, false)]
      ensures ok ==> Meaning(m.mem, procs[p].pgdir, PGSIZE) == [code]
    {
      ghost var s := Now();
      KernelTables(data);
      var kstack, d := UserInit(m, p, code, KernelRows(data));
      ok := d != 0;
      if ok {
        OnePage(m.mem, d, code);
        Enter(s, p, Task(kstack, d, PGSIZE, 0, false));
      }
    }

    /** The page fault of process p at addr. */
    method Fault(p: nat, addr: nat) returns (r: Fault)
      requires Valid() && p in procs && !procs[p].zombie && procs[p].sz <= KERNBASE
      modifies this`states, this`actors, m`mem, m`freelist, m`free, m`own
      ensures !r.RemapPanic? ==> Stepped(old(Now()), old(states), old(actors), Proc(p))
      ensures !r.RemapPanic? ==> Meaning(m.mem, procs[p].pgdir, procs[p].sz) == Meaning(old(m.mem), procs[p].pgdir, procs[p].sz)
      ensures r.RemapPanic? ==> Look(old(m.mem), procs[p].pgdir, addr / PGSIZE).present
    {
      ghost var s := Now();
      RecallTask(states, actors, s, p);
      var t := procs[p];
      r := PageFault(m, t.pgdir, t.sz, t.guard, addr);
      if !r.RemapPanic? {
        assert procs[p := t] == procs;
        PrivateRecorded(states, actors, s, Now(), p, t, m.freelist, m.free);
        states, actors := states + [Now()], actors + [Proc(p)];
      }
    }

    /** sys_sbrk of process p. */
    method Grow(p: nat, n: int) returns (r: int)
      requires Valid() && p in procs && !procs[p].zombie && procs[p].sz <= KERNBASE
      requires -0x8000_0000 <= n < 0x8000_0000
      modifies this, m`mem, m`freelist, m`free, m`own
      ensures Stepped(old(Now()), old(states), old(actors), Proc(p))
      ensures r == old(procs)[p].sz || r == -1
      ensures r == -1 <==> SbrkFails(old(procs)[p].sz, n)
      ensures n >= 0 ==> r == old(procs)[p].sz
      ensures procs == old(procs)[p := old(procs)[p].(sz := SbrkSize(old(procs)[p].sz, n))]
      ensures n > 0 && r + n <= KERNBASE ==>
                Meaning(m.mem, procs[p].pgdir, r + n) == Meaning(old(m.mem), procs[p].pgdir, r) + Zeros(PageUp(r + n) - PageUp(r))
      ensures n <= 0 && r != -1 ==>
                Meaning(m.mem, procs[p].pgdir, procs[p].sz) == Meaning(old(m.mem), procs[p].pgdir, r)[..PageUp(procs[p].sz)]
    {
      ghost var s := Now();
      RecallTask(states, actors, s, p);
      var t := procs[p];
      var sz;
      r, sz := Sbrk(m, t.pgdir, t.sz, n);
      procs := procs[p := t.(sz := sz)];
      PrivateRecorded(states, actors, s, Now(), p, t.(sz := sz), m.freelist, m.free);
      states, actors := states + [Now()], actors + [Proc(p)];
    }

    /** fork by process p into slot q, whose p->guard_page is left as it was. */
    method Fork(p: nat, q: nat, stale: nat) returns (ok: bool)
      requires Valid() && p in procs && !procs[p].zombie && procs[p].sz <= KERNBASE && q !in procs
      modifies this, m
      ensures ok <==> |old(m.free)| >= 66 + CopyNeed(old(m.mem), old(procs)[p].pgdir, PageUp(old(procs)[p].sz))
      ensures Stepped(old(Now()), old(states), old(actors), Proc(q))
      ensures !ok ==> procs == old(procs) && m.own == old(m.own)
      ensures ok ==> q in procs && procs == old(procs)[q := Task(procs[q].kstack, procs[q].pgdir, old(procs)[p].sz, stale, false)]
      ensures ok ==> Meaning(m.mem, procs[q].pgdir, procs[q].sz) == Meaning(old(m.mem), old(procs)[p].pgdir, procs[q].sz)
    {
      ghost var s := Now();
      RecallTask(states, actors, s, p);
      var t := procs[p];
      KernelTables(data);
      var kstack, d := ForkMemory(m, q, t.pgdir, t.sz, KernelRows(data));
      ok := d != 0;
      if ok {
        Enter(s, q, Task(kstack, d, t.sz, stale, false));
      } else {
        NothingRecorded(states, actors, s, Now(), Proc(q), m.freelist, m.free);
        states, actors := states + [Now()], actors + [Proc(q)];
      }
    }

    /**
     exec by process p, with arguments of the given lengths.  p->guard_page is set as soon as the
     segments are loaded, so an exec that fails after that has changed it.
     */
    method Exec(p: nat, segs: seq<Segment>, args: seq<nat>) returns (ok: bool)
      requires Valid() && p in procs && !procs[p].zombie && forall i :: 0 <= i < |args| ==> args[i] < KERNBASE
      modifies this, m
      ensures Stepped(old(Now()), old(states), old(actors), Proc(p))
      ensures p in procs && procs == old(procs)[p := procs[p]] && procs[p].kstack == old(procs)[p].kstack && !procs[p].zombie
      ensures procs[p].guard == if Loads(|old(m.free)| - 65, segs) then GuardOf(segs) else old(procs)[p].guard
      ensures ok <==> Succeeds(|old(m.free)| - 65, segs, args)
      ensures !ok ==> m.own == old(m.own) && procs[p] == old(procs)[p].(guard := procs[p].guard)
      ensures ok ==> procs[p].sz == TopOf(segs) && WithStack(m.mem, procs[p].pgdir, procs[p].sz)
      ensures ok ==> Replaced(old(m.own), m.own, old(procs)[p].pgdir, procs[p].pgdir)
    {
      ghost var s := Now();
      RecallTask(states, actors, s, p);
      var t := procs[p];
      m.Seal();
      KernelTables(data);
      var d, sz, guard := ExecMemory(m, t.pgdir, segs, args, t.guard, KernelRows(data));
      ok := d != 0;
      if ok {
        procs := procs[p := t.(pgdir := d, sz := sz, guard := guard)];
        ExecRecorded(states, actors, s, Now(), p, m.freelist, m.free);
      } else {
        procs := procs[p := t.(guard := guard)];
        NobodyMoved(s.mem, s.own, s.dirs, m.mem, t.pgdir);
        PrivateRecorded(states, actors, s, Now(), p, t.(guard := guard), m.freelist, m.free);
      }
      states, actors := states + [Now()], actors + [Proc(p)];
    }

    /** exit of process p, as far as its memory goes. */
    method Exit(p: nat)
      requires Valid() && p in procs && !procs[p].zombie
      modifies this, m`mem, m`freelist, m`free, m`own
      ensures Stepped(old(Now()), old(states), old(actors), Proc(p))
      ensures procs == old(procs)[p := old(procs)[p].(zombie := true)]
      ensures Released(old(m.own), m.own, procs[p].pgdir, 0, UPAGES)
    {
      ghost var s := Now();
      RecallTask(states, actors, s, p);
      var t := procs[p];
      ExitMemory(m, t.pgdir);
      procs := procs[p := t.(zombie := true)];
      PrivateRecorded(states, actors, s, Now(), p, t.(zombie := true), m.freelist, m.free);
      states, actors := states + [Now()], actors + [Proc(p)];
    }

    /** wait reaps zombie q: exactly the frames that q held are free now. */
    method Wait(q: nat)
      requires Valid() && q in procs && procs[q].zombie
      modifies this, m
      ensures Stepped(old(Now()), old(states), old(actors), Proc(q))
      ensures procs == old(procs) - {q} && Freed(old(Now()), m.own, Proc(q))
    {
      ghost var s := Now();
      RecallTask(states, actors, s, q);
      var t := procs[q];
      WaitMemory(m, q, t.pgdir, t.kstack);
      StacksMore(procs, q, t);
      procs := procs - {q};
      WaitRecorded(states, actors, s, Now(), q, m.freelist, m.free);
      states, actors := states + [Now()], actors + [Proc(q)];
    }

    /** pipealloc's page for pipe k. */
    method PipeAlloc(k: nat) returns (ok: bool)
      requires Valid() && k !in pipes
      modifies this, m
      ensures Stepped(old(Now()), old(states), old(actors), Pipe(k))
      ensures ok <==> old(m.free) != []
      ensures if ok then k in pipes && pipes == old(pipes)[k := pipes[k]] else pipes == old(pipes) && m.own == old(m.own)
    {
      ghost var s := Now();
      var f := m.TakePipe(k);
      ok := f != 0;
      if ok {
        pipes := pipes[k := f];
        assert m.roots == RootsOf(Now());
        PipeRecorded(states, actors, s, Now(), k, f, true, m.freelist, m.free);
      } else {
        NothingRecorded(states, actors, s, Now(), Pipe(k), m.freelist, m.free);
      }
      states, actors := states + [Now()], actors + [Pipe(k)];
    }

    /** pipeclose's kfree of pipe k's page. */
    method PipeFree(k: nat)
      requires Valid() && k in pipes
      modifies this, m
      ensures Stepped(old(Now()), old(states), old(actors), Pipe(k))
      ensures pipes == old(pipes) - {k} && m.own == old(m.own)[old(pipes)[k] := Free]
    {
      ghost var s := Now();
      var f := pipes[k];
      m.FreePipe(k, f);
      pipes := pipes - {k};
      assert m.roots == RootsOf(Now());
      PipeRecorded(states, actors, s, Now(), k, f, false, m.freelist, m.free);
      states, actors := states + [Now()], actors + [Pipe(k)];
    }
  }
}
