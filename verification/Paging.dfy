/**
 Two-level page tables in physical memory (vm.c; 32-bit paging, section 4.3 of the Intel
 SDM, volume 3A), their flat meaning, and the ownership of every physical frame.
 A frame is named by its number, pa / PGSIZE, and a virtual page by va / PGSIZE.
 */
module Paging {

  const PGSIZE: nat := 4096
  const ENTRIES: nat := 1024      // NPDENTRIES, NPTENTRIES
  const VPAGES: nat := 0x100000   // pages of the whole address space
  const UPAGES: nat := 0x80000    // pages below KERNBASE
  const PTE_W: nat := 2
  const PTE_U: nat := 4

  /** A 32-bit word read as an entry: bits 12-31, bit 0 (PTE_P), and the flags in bits 1-11. */
  datatype Word = Word(frame: nat, present: bool, perm: nat)

  const ZERO := Word(0, false, 0)

  type Memory = map<nat, seq<Word>>

  // ---- Entries ----

  /** pa | perm | PTE_P */
  function Entry(frame: nat, perm: nat): Word {
    Word(frame, true, perm)
  }

  function Cell(mem: Memory, f: nat, i: nat): Word {
    if f in mem && i < |mem[f]| then mem[f][i] else ZERO
  }

  function Poke(mem: Memory, f: nat, i: nat, w: Word): (r: Memory)
    requires f in mem && i < |mem[f]|
    ensures r.Keys == mem.Keys
    ensures forall g, j :: g in mem ==> Cell(r, g, j) == if g == f && j == i then w else Cell(mem, g, j)
  {
    mem[f := mem[f][i := w]]
  }

  predicate Flag(perm: nat, bit: nat)
    requires bit > 0
  {
    perm / bit % 2 == 1
  }

  /** The flags of a page: the writable and the user bit must be set in the directory entry as well. */
  function Granted(pde: nat, pte: nat): (perm: nat)
    ensures pde == PTE_W + PTE_U ==> perm == pte
    ensures Flag(perm, PTE_W) <==> Flag(pde, PTE_W) && Flag(pte, PTE_W)
    ensures Flag(perm, PTE_U) <==> Flag(pde, PTE_U) && Flag(pte, PTE_U)
  {
    pte - (if Flag(pte, PTE_W) && !Flag(pde, PTE_W) then PTE_W else 0) - (if Flag(pte, PTE_U) && !Flag(pde, PTE_U) then PTE_U else 0)
  }

  /** The flat meaning of directory pd, as the processor sees it: the entry of page v with the flags both levels grant, or ZERO. */
  function Look(mem: Memory, pd: nat, v: nat): (w: Word)
    ensures w != ZERO <==> w.present
  {
    var e := Cell(mem, pd, v / 1024);
    if !e.present then ZERO
    else
      var w := Cell(mem, e.frame, v % 1024);
      if w.present then w.(perm := Granted(e.perm, w.perm)) else ZERO
  }

  function ZeroPage(): (p: seq<Word>)
    ensures |p| == ENTRIES && forall i :: 0 <= i < ENTRIES ==> p[i] == ZERO
  {
    seq(ENTRIES, _ => ZERO)
  }

  /** What a process reads in page v: an absent page reads as zeros. */
  function Contents(mem: Memory, pd: nat, v: nat): seq<Word> {
    var w := Look(mem, pd, v);
    if w.present && w.frame in mem then mem[w.frame] else ZeroPage()
  }

  // ---- Ownership ----

  /** Held: a page that a kernel function in progress holds. The others are named by what refers to them. */
  datatype Owner = Free | Held | Stack(p: nat) | PipePage(k: nat) | Dir | Table(pd: nat, d: nat) | User(pd: nat, v: nat)

  type Owners = map<nat, Owner>

  /** The kernel stack of each process and the page of each pipe. */
  datatype Roots = Roots(stacks: map<nat, nat>, pipes: map<nat, nat>)

  predicate IsRoot(o: Owner) {
    o.Stack? || o.PipePage?
  }

  /** Frames that no page table has anything to do with. */
  predicate Plain(o: Owner) {
    o.Free? || o.Held? || IsRoot(o)
  }

  /** Directories, each with the number of leading entries whose tables are already freed. */
  type Dirs = map<nat, nat>

  ghost predicate PageAt(mem: Memory, f: nat)
    requires f in mem
  {
    |mem[f]| == ENTRIES && f > 0
  }

  ghost predicate DirAt(own: Owners, pd: nat) {
    pd in own && own[pd] == Dir
  }

  ghost predicate TableAt(mem: Memory, own: Owners, pd: nat, d: nat) {
    var e := Cell(mem, pd, d);
    e.present ==> e.frame in own && own[e.frame] == Table(pd, d) && e.perm == PTE_W + PTE_U
  }

  ghost predicate UserAt(mem: Memory, own: Owners, pd: nat, v: nat) {
    var w := Look(mem, pd, v);
    w.present ==> w.frame in own && own[w.frame] == User(pd, v)
  }

  /** A frame's owner really refers to it. */
  ghost predicate OwnedAt(mem: Memory, own: Owners, dirs: Dirs, f: nat)
    requires f in own
  {
    match own[f]
    case Dir => f in dirs
    case Table(pd, d) =>
      pd in dirs && dirs[pd] <= d < ENTRIES && Cell(mem, pd, d).present && Cell(mem, pd, d).frame == f
    case User(pd, v) =>
      pd in dirs && dirs[pd] * 1024 <= v < UPAGES && Look(mem, pd, v).present && Look(mem, pd, v).frame == f
    case _ => true
  }

  /** The stack of process p, or the page of pipe k, is the frame that says so. */
  ghost predicate StackAt(own: Owners, roots: Roots, p: nat) {
    p in roots.stacks ==> roots.stacks[p] in own && own[roots.stacks[p]] == Stack(p)
  }

  ghost predicate PipeAt(own: Owners, roots: Roots, k: nat) {
    k in roots.pipes ==> roots.pipes[k] in own && own[roots.pipes[k]] == PipePage(k)
  }

  ghost predicate RootAt(own: Owners, roots: Roots, f: nat)
    requires f in own
  {
    match own[f]
    case Stack(p) => p in roots.stacks && roots.stacks[p] == f
    case PipePage(k) => k in roots.pipes && roots.pipes[k] == f
    case _ => true
  }

  ghost predicate Rooted(own: Owners, roots: Roots) {
    && (forall p {:trigger StackAt(own, roots, p)} :: StackAt(own, roots, p))
    && (forall k {:trigger PipeAt(own, roots, k)} :: PipeAt(own, roots, k))
    && (forall f {:trigger RootAt(own, roots, f)} :: f in own ==> RootAt(own, roots, f))
  }

  /** No kernel function is half-way through: every frame is free or referred to. */
  ghost predicate Settled(own: Owners) {
    forall f :: f in own ==> own[f] != Held
  }

  /** Every frame has exactly one owner, which refers to it, and every reference is to a frame so owned. */
  ghost predicate Inv(mem: Memory, own: Owners, dirs: Dirs, roots: Roots) {
    TableInv(mem, own, dirs) && Rooted(own, roots)
  }

  lemma RootsKept(own: Owners, own': Owners, roots: Roots)
    requires Rooted(own, roots) && own'.Keys == own.Keys
    requires forall f :: f in own && own'[f] != own[f] ==> !IsRoot(own[f]) && !IsRoot(own'[f])
    ensures Rooted(own', roots)
  {
    forall p
      ensures StackAt(own', roots, p) && PipeAt(own', roots, p)
    {
      assert StackAt(own, roots, p) && PipeAt(own, roots, p);
    }
    forall f | f in own'
      ensures RootAt(own', roots, f)
    {
      assert RootAt(own, roots, f);
    }
  }

  /** A held frame becomes the stack of a process that has none. */
  lemma AddStack(own: Owners, roots: Roots, p: nat, f: nat)
    requires Rooted(own, roots) && f in own && own[f] == Held && p !in roots.stacks
    ensures Rooted(own[f := Stack(p)], roots.(stacks := roots.stacks[p := f]))
  {
    var own', roots' := own[f := Stack(p)], roots.(stacks := roots.stacks[p := f]);
    forall q
      ensures StackAt(own', roots', q) && PipeAt(own', roots', q)
    {
      assert StackAt(own, roots, q) && PipeAt(own, roots, q);
    }
    forall g | g in own'
      ensures RootAt(own', roots', g)
    {
      assert RootAt(own, roots, g);
    }
  }

  lemma DropStack(own: Owners, roots: Roots, p: nat)
    requires Rooted(own, roots) && p in roots.stacks
    ensures roots.stacks[p] in own && own[roots.stacks[p]] == Stack(p)
    ensures Rooted(own[roots.stacks[p] := Held], roots.(stacks := roots.stacks - {p}))
  {
    assert StackAt(own, roots, p);
    var own', roots' := own[roots.stacks[p] := Held], roots.(stacks := roots.stacks - {p});
    forall q
      ensures StackAt(own', roots', q) && PipeAt(own', roots', q)
    {
      assert StackAt(own, roots, q) && PipeAt(own, roots, q);
    }
    forall g | g in own'
      ensures RootAt(own', roots', g)
    {
      assert RootAt(own, roots, g);
    }
  }

  lemma AddPipe(own: Owners, roots: Roots, k: nat, f: nat)
    requires Rooted(own, roots) && f in own && own[f] == Held && k !in roots.pipes
    ensures Rooted(own[f := PipePage(k)], roots.(pipes := roots.pipes[k := f]))
  {
    var own', roots' := own[f := PipePage(k)], roots.(pipes := roots.pipes[k := f]);
    forall q
      ensures StackAt(own', roots', q) && PipeAt(own', roots', q)
    {
      assert StackAt(own, roots, q) && PipeAt(own, roots, q);
    }
    forall g | g in own'
      ensures RootAt(own', roots', g)
    {
      assert RootAt(own, roots, g);
    }
  }

  lemma DropPipe(own: Owners, roots: Roots, k: nat)
    requires Rooted(own, roots) && k in roots.pipes
    ensures roots.pipes[k] in own && own[roots.pipes[k]] == PipePage(k)
    ensures Rooted(own[roots.pipes[k] := Held], roots.(pipes := roots.pipes - {k}))
  {
    assert PipeAt(own, roots, k);
    var own', roots' := own[roots.pipes[k] := Held], roots.(pipes := roots.pipes - {k});
    forall q
      ensures StackAt(own', roots', q) && PipeAt(own', roots', q)
    {
      assert StackAt(own, roots, q) && PipeAt(own, roots, q);
    }
    forall g | g in own'
      ensures RootAt(own', roots', g)
    {
      assert RootAt(own, roots, g);
    }
  }

  /** Every frame has one owner as far as page tables go, and the tables reach exactly the frames they own. */
  ghost predicate TableInv(mem: Memory, own: Owners, dirs: Dirs) {
    && own.Keys == mem.Keys
    && (forall f {:trigger PageAt(mem, f)} :: f in mem ==> PageAt(mem, f))
    && (forall pd {:trigger DirAt(own, pd)} :: pd in dirs ==> DirAt(own, pd))
    && (forall pd, d :: pd in dirs && dirs[pd] <= d < ENTRIES ==> TableAt(mem, own, pd, d))
    && (forall pd, v :: pd in dirs && dirs[pd] * 1024 <= v < UPAGES ==> UserAt(mem, own, pd, v))
    && (forall f {:trigger OwnedAt(mem, own, dirs, f)} :: f in own ==> OwnedAt(mem, own, dirs, f))
  }

  /** Directories keep their meaning, except page v of directory pd. */
  ghost predicate SameLookBut(mem: Memory, mem': Memory, dirs: Dirs, pd: nat, v: nat) {
    forall p, u {:trigger Look(mem', p, u)} :: p in dirs && dirs[p] * 1024 <= u < VPAGES && !(p == pd && u == v) ==>
      Look(mem', p, u) == Look(mem, p, u)
  }

  ghost predicate SameLook(mem: Memory, mem': Memory, dirs: Dirs) {
    forall p, u {:trigger Look(mem', p, u)} :: p in dirs && dirs[p] * 1024 <= u < VPAGES ==> Look(mem', p, u) == Look(mem, p, u)
  }

  // ---- The primitive changes ----

  /** A page the kernel holds, or a free one, may be overwritten: no table changes. */
  lemma WriteLoose(mem: Memory, own: Owners, dirs: Dirs, f: nat, page: seq<Word>)
    requires TableInv(mem, own, dirs) && f in own && (own[f] == Held || own[f] == Free) && |page| == ENTRIES
    ensures TableInv(mem[f := page], own, dirs) && SameLook(mem, mem[f := page], dirs)
  {
    var mem' := mem[f := page];
    forall p, d | p in dirs && dirs[p] <= d < ENTRIES
      ensures Cell(mem', p, d) == Cell(mem, p, d)
      ensures TableAt(mem', own, p, d)
    {
      assert DirAt(own, p) && TableAt(mem, own, p, d);
    }
    forall p, u | p in dirs && dirs[p] * 1024 <= u < VPAGES
      ensures Look(mem', p, u) == Look(mem, p, u)
    {
      assert DirAt(own, p) && TableAt(mem, own, p, u / 1024);
    }
    forall p, u | p in dirs && dirs[p] * 1024 <= u < UPAGES
      ensures UserAt(mem', own, p, u)
    {
      assert DirAt(own, p) && UserAt(mem, own, p, u);
    }
    forall g | g in own
      ensures PageAt(mem', g) && OwnedAt(mem', own, dirs, g)
    {
      assert PageAt(mem, g) && OwnedAt(mem, own, dirs, g);
    }
  }

  /** Passing a frame between the free list, a kernel function, a process and a pipe changes no table. */
  lemma Retag(mem: Memory, own: Owners, dirs: Dirs, f: nat, o: Owner)
    requires TableInv(mem, own, dirs) && f in own && Plain(own[f]) && Plain(o)
    ensures TableInv(mem, own[f := o], dirs)
  {
    var own' := own[f := o];
    forall p | p in dirs
      ensures DirAt(own', p)
    {
      assert DirAt(own, p);
    }
    forall p, d | p in dirs && dirs[p] <= d < ENTRIES
      ensures TableAt(mem, own', p, d)
    {
      assert DirAt(own, p) && TableAt(mem, own, p, d);
    }
    forall p, u | p in dirs && dirs[p] * 1024 <= u < UPAGES
      ensures UserAt(mem, own', p, u)
    {
      assert DirAt(own, p) && UserAt(mem, own, p, u);
    }
    forall g | g in own'
      ensures OwnedAt(mem, own', dirs, g)
    {
      assert OwnedAt(mem, own, dirs, g);
    }
  }

  /** walkpgdir: a zeroed page becomes the table of directory entry d. */
  lemma AddTable(mem: Memory, own: Owners, dirs: Dirs, pd: nat, d: nat, f: nat)
    requires TableInv(mem, own, dirs) && pd in dirs && dirs[pd] == 0 && d < ENTRIES
    requires !Cell(mem, pd, d).present && f in own && own[f] == Held && mem[f] == ZeroPage()
    ensures pd in mem && |mem[pd]| == ENTRIES
    ensures var mem' := Poke(mem, pd, d, Entry(f, PTE_W + PTE_U));
            TableInv(mem', own[f := Table(pd, d)], dirs) && SameLook(mem, mem', dirs)
  {
    assert DirAt(own, pd) && PageAt(mem, pd) && PageAt(mem, f);
    var e := Entry(f, PTE_W + PTE_U);
    var mem' := Poke(mem, pd, d, e);
    var own' := own[f := Table(pd, d)];
    forall p | p in dirs
      ensures DirAt(own', p)
    {
      assert DirAt(own, p);
    }
    forall p, c | p in dirs && dirs[p] <= c < ENTRIES
      ensures Cell(mem', p, c) == if p == pd && c == d then e else Cell(mem, p, c)
      ensures TableAt(mem', own', p, c)
    {
      assert DirAt(own, p) && TableAt(mem, own, p, c);
    }
    forall p, u | p in dirs && dirs[p] * 1024 <= u < VPAGES
      ensures Look(mem', p, u) == Look(mem, p, u)
    {
      assert DirAt(own, p) && TableAt(mem, own, p, u / 1024);
    }
    forall p, u | p in dirs && dirs[p] * 1024 <= u < UPAGES
      ensures UserAt(mem', own', p, u)
    {
      assert DirAt(own, p) && UserAt(mem, own, p, u);
    }
    forall g | g in own'
      ensures PageAt(mem', g) && OwnedAt(mem', own', dirs, g)
    {
      assert PageAt(mem, g) && OwnedAt(mem, own, dirs, g);
    }
  }

  /** A write to entry v % 1024 of the table of page v changes the meaning of page v alone. */
  lemma WriteEntry(mem: Memory, own: Owners, dirs: Dirs, pd: nat, v: nat, w: Word)
    requires TableInv(mem, own, dirs) && pd in dirs && dirs[pd] == 0 && v < VPAGES
    requires Cell(mem, pd, v / 1024).present
    ensures var t := Cell(mem, pd, v / 1024).frame;
            && t in mem && |mem[t]| == ENTRIES
            && var mem' := Poke(mem, t, v % 1024, w);
               && SameLookBut(mem, mem', dirs, pd, v) && Look(mem', pd, v) == (if w.present then w else ZERO)
               && (forall p, d :: p in dirs && dirs[p] <= d < ENTRIES ==> Cell(mem', p, d) == Cell(mem, p, d))
  {
    assert TableAt(mem, own, pd, v / 1024);
    var t := Cell(mem, pd, v / 1024).frame;
    assert PageAt(mem, t);
    var mem' := Poke(mem, t, v % 1024, w);
    forall p, d | p in dirs && dirs[p] <= d < ENTRIES
      ensures Cell(mem', p, d) == Cell(mem, p, d)
    {
      assert DirAt(own, p);
    }
    forall p, u | p in dirs && dirs[p] * 1024 <= u < VPAGES && !(p == pd && u == v)
      ensures Look(mem', p, u) == Look(mem, p, u)
    {
      assert DirAt(own, p) && TableAt(mem, own, p, u / 1024);
    }
  }

  /** The table frame that holds page v's entry. */
  function TableOf(mem: Memory, pd: nat, v: nat): nat {
    Cell(mem, pd, v / 1024).frame
  }

  ghost predicate HasTable(mem: Memory, dirs: Dirs, pd: nat, v: nat) {
    && pd in dirs && dirs[pd] == 0 && v < VPAGES
    && Cell(mem, pd, v / 1024).present && Cell(mem, pd, v / 1024).perm == PTE_W + PTE_U
    && TableOf(mem, pd, v) in mem && |mem[TableOf(mem, pd, v)]| == ENTRIES
  }

  function SetEntry(mem: Memory, pd: nat, v: nat, w: Word): Memory
    requires TableOf(mem, pd, v) in mem && |mem[TableOf(mem, pd, v)]| == ENTRIES
  {
    Poke(mem, TableOf(mem, pd, v), v % 1024, w)
  }

  /** Inv after a change of one entry, given the new owners of the frames it mentions. */
  lemma InvSetEntry(mem: Memory, own: Owners, dirs: Dirs, pd: nat, v: nat, w: Word, own': Owners)
    requires TableInv(mem, own, dirs) && HasTable(mem, dirs, pd, v) && own'.Keys == own.Keys
    requires forall f :: f in own && own'[f] != own[f] ==>
               && (own[f] == Held || (own[f] == User(pd, v) && w != Look(mem, pd, v)))
               && (own'[f] == Held || (own'[f] == User(pd, v) && w.frame == f && w.present && v < UPAGES))
    requires v < UPAGES && w.present ==> Look(mem, pd, v).present ==> w.frame == Look(mem, pd, v).frame
    requires v < UPAGES && w.present ==> w.frame in own && own'[w.frame] == User(pd, v)
    requires v < UPAGES && !w.present ==> forall f :: f in own ==> own'[f] != User(pd, v)
    ensures TableInv(SetEntry(mem, pd, v, w), own', dirs)
    ensures SameLookBut(mem, SetEntry(mem, pd, v, w), dirs, pd, v)
    ensures Look(SetEntry(mem, pd, v, w), pd, v) == if w.present then w else ZERO
  {
    WriteEntry(mem, own, dirs, pd, v, w);
    var mem' := SetEntry(mem, pd, v, w);
    forall p | p in dirs
      ensures DirAt(own', p)
    {
      assert DirAt(own, p);
    }
    forall p, d | p in dirs && dirs[p] <= d < ENTRIES
      ensures TableAt(mem', own', p, d)
    {
      assert DirAt(own, p) && TableAt(mem, own, p, d);
    }
    forall p, u | p in dirs && dirs[p] * 1024 <= u < UPAGES
      ensures UserAt(mem', own', p, u)
    {
      assert DirAt(own, p) && UserAt(mem, own, p, u);
    }
    forall g | g in own'
      ensures PageAt(mem', g) && OwnedAt(mem', own', dirs, g)
    {
      assert PageAt(mem, g) && OwnedAt(mem, own, dirs, g);
    }
  }

  /** mappages on a user page: the frame passes from the kernel to page v. */
  lemma MapUser(mem: Memory, own: Owners, dirs: Dirs, pd: nat, v: nat, w: Word)
    requires TableInv(mem, own, dirs) && HasTable(mem, dirs, pd, v) && v < UPAGES && Look(mem, pd, v) == ZERO
    requires w.present && w.frame in own && own[w.frame] == Held
    ensures TableInv(SetEntry(mem, pd, v, w), own[w.frame := User(pd, v)], dirs)
    ensures SameLookBut(mem, SetEntry(mem, pd, v, w), dirs, pd, v) && Look(SetEntry(mem, pd, v, w), pd, v) == w
  {
    InvSetEntry(mem, own, dirs, pd, v, w, own[w.frame := User(pd, v)]);
  }

  /** deallocuvm clears the entry: the frame passes back to the kernel. */
  lemma UnmapUser(mem: Memory, own: Owners, dirs: Dirs, pd: nat, v: nat)
    requires TableInv(mem, own, dirs) && HasTable(mem, dirs, pd, v) && v < UPAGES && Look(mem, pd, v).present
    ensures var f := Look(mem, pd, v).frame;
            && f in own && own[f] == User(pd, v)
            && TableInv(SetEntry(mem, pd, v, ZERO), own[f := Held], dirs)
            && SameLookBut(mem, SetEntry(mem, pd, v, ZERO), dirs, pd, v) && Look(SetEntry(mem, pd, v, ZERO), pd, v) == ZERO
  {
    assert UserAt(mem, own, pd, v);
    var f := Look(mem, pd, v).frame;
    forall g | g in own && g != f
      ensures own[g] != User(pd, v)
    {
      assert OwnedAt(mem, own, dirs, g);
    }
    InvSetEntry(mem, own, dirs, pd, v, ZERO, own[f := Held]);
  }

  /** clearpteu: other flags for a page, on the same frame. */
  lemma FlagUser(mem: Memory, own: Owners, dirs: Dirs, pd: nat, v: nat, w: Word)
    requires TableInv(mem, own, dirs) && HasTable(mem, dirs, pd, v) && v < UPAGES
    requires if w.present then Look(mem, pd, v).present && w.frame == Look(mem, pd, v).frame else Look(mem, pd, v) == ZERO
    ensures TableInv(SetEntry(mem, pd, v, w), own, dirs)
    ensures SameLookBut(mem, SetEntry(mem, pd, v, w), dirs, pd, v)
    ensures Look(SetEntry(mem, pd, v, w), pd, v) == if w.present then w else ZERO
  {
    assert UserAt(mem, own, pd, v);
    forall g | g in own
      ensures !w.present ==> own[g] != User(pd, v)
    {
      assert OwnedAt(mem, own, dirs, g);
    }
    InvSetEntry(mem, own, dirs, pd, v, w, own);
  }

  /** mappages on a page at or above KERNBASE: no frame changes hands. */
  lemma MapKernel(mem: Memory, own: Owners, dirs: Dirs, pd: nat, v: nat, w: Word)
    requires TableInv(mem, own, dirs) && HasTable(mem, dirs, pd, v) && UPAGES <= v && w.present
    ensures TableInv(SetEntry(mem, pd, v, w), own, dirs)
    ensures SameLookBut(mem, SetEntry(mem, pd, v, w), dirs, pd, v) && Look(SetEntry(mem, pd, v, w), pd, v) == w
  {
    InvSetEntry(mem, own, dirs, pd, v, w, own);
  }

  /** setupkvm: a zeroed page becomes a directory that maps nothing. */
  lemma NewDir(mem: Memory, own: Owners, dirs: Dirs, pd: nat)
    requires TableInv(mem, own, dirs) && pd in own && own[pd] == Held && mem[pd] == ZeroPage()
    ensures pd !in dirs && TableInv(mem, own[pd := Dir], dirs[pd := 0])
    ensures forall u :: 0 <= u < VPAGES ==> Look(mem, pd, u) == ZERO
  {
    var own', dirs' := own[pd := Dir], dirs[pd := 0];
    assert pd in dirs ==> DirAt(own, pd);
    forall p | p in dirs'
      ensures DirAt(own', p)
    {
      assert p != pd ==> DirAt(own, p);
    }
    forall p, d | p in dirs' && dirs'[p] <= d < ENTRIES
      ensures TableAt(mem, own', p, d)
    {
      assert p != pd ==> DirAt(own, p) && TableAt(mem, own, p, d);
    }
    forall p, u | p in dirs' && dirs'[p] * 1024 <= u < UPAGES
      ensures UserAt(mem, own', p, u)
    {
      assert p != pd ==> DirAt(own, p) && UserAt(mem, own, p, u);
    }
    forall g | g in own'
      ensures OwnedAt(mem, own', dirs', g)
    {
      assert OwnedAt(mem, own, dirs, g);
    }
  }

  /** freevm's loop: entry d of a directory without user pages gives up its table. */
  lemma DropTable(mem: Memory, own: Owners, dirs: Dirs, pd: nat)
    requires TableInv(mem, own, dirs) && pd in dirs && dirs[pd] < ENTRIES
    requires forall v :: dirs[pd] * 1024 <= v < UPAGES ==> Look(mem, pd, v) == ZERO
    ensures var d := dirs[pd];
            var f := Cell(mem, pd, d).frame;
            && (Cell(mem, pd, d).present ==> f in own && own[f] == Table(pd, d))
            && TableInv(mem, if Cell(mem, pd, d).present then own[f := Held] else own, dirs[pd := d + 1])
  {
    var d := dirs[pd];
    var f := Cell(mem, pd, d).frame;
    assert TableAt(mem, own, pd, d);
    var own' := if Cell(mem, pd, d).present then own[f := Held] else own;
    var dirs' := dirs[pd := d + 1];
    forall p | p in dirs'
      ensures DirAt(own', p)
    {
      assert DirAt(own, p);
    }
    forall p, c | p in dirs' && dirs'[p] <= c < ENTRIES
      ensures TableAt(mem, own', p, c)
    {
      assert DirAt(own, p) && TableAt(mem, own, p, c);
    }
    forall p, u | p in dirs' && dirs'[p] * 1024 <= u < UPAGES
      ensures UserAt(mem, own', p, u)
    {
      assert DirAt(own, p) && UserAt(mem, own, p, u);
    }
    forall g | g in own'
      ensures OwnedAt(mem, own', dirs', g)
    {
      assert OwnedAt(mem, own, dirs, g);
    }
  }

  /** freevm's end: the directory itself goes back to the kernel. */
  lemma DropDir(mem: Memory, own: Owners, dirs: Dirs, pd: nat)
    requires TableInv(mem, own, dirs) && pd in dirs && dirs[pd] == ENTRIES
    ensures pd in own && own[pd] == Dir
    ensures TableInv(mem, own[pd := Held], dirs - {pd})
  {
    var own', dirs' := own[pd := Held], dirs - {pd};
    assert DirAt(own, pd);
    forall p | p in dirs'
      ensures DirAt(own', p)
    {
      assert DirAt(own, p);
    }
    forall p, d | p in dirs' && dirs'[p] <= d < ENTRIES
      ensures TableAt(mem, own', p, d)
    {
      assert DirAt(own, p) && TableAt(mem, own, p, d);
    }
    forall p, u | p in dirs' && dirs'[p] * 1024 <= u < UPAGES
      ensures UserAt(mem, own', p, u)
    {
      assert DirAt(own, p) && UserAt(mem, own, p, u);
    }
    forall g | g in own'
      ensures OwnedAt(mem, own', dirs', g)
    {
      assert OwnedAt(mem, own, dirs, g);
    }
  }
}
