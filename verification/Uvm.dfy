/**
 User address spaces: allocuvm and copyuvm (vm.c), the demand-fill arm of T_PGFLT
 (trap.c) and lazy growth by sbrk (sysproc.c, proc.c), with what a process reads from
 its address space before and after each.
 */
module Uvm {
  import opened Paging
  import opened Params
  import opened Vm

  /** The pages below PGROUNDUP(sz), as the process reads them: absent pages are zeros. */
  ghost function Meaning(mem: Memory, pd: nat, sz: nat): (s: seq<seq<Word>>)
    ensures |s| == PageUp(sz)
    ensures forall v :: 0 <= v < PageUp(sz) ==> s[v] == Contents(mem, pd, v)
  {
    seq(PageUp(sz), v requires 0 <= v < PageUp(sz) => Contents(mem, pd, v))
  }

  ghost function Zeros(n: nat): (s: seq<seq<Word>>)
    ensures |s| == n && forall i :: 0 <= i < n ==> s[i] == ZeroPage()
  {
    seq(n, _ => ZeroPage())
  }

  /** No page at or above PGROUNDUP(sz) is present. */
  ghost predicate NoneAbove(mem: Memory, pd: nat, sz: nat) {
    forall v :: PageUp(sz) <= v < UPAGES ==> Look(mem, pd, v) == ZERO
  }

  // ---- Contents under the changes of Vm ----

  /** A page whose entry and frame are untouched reads the same. */
  lemma ContentsKept(mem: Memory, own: Owners, dirs: Dirs, mem': Memory, own': Owners, pd: nat, v: nat)
    requires Sealed(mem, own, dirs) && pd in dirs && dirs[pd] == 0 && v < UPAGES
    requires own'.Keys == own.Keys && mem'.Keys == mem.Keys && DataKept(mem, own, mem', own')
    requires Look(mem', pd, v) == Look(mem, pd, v)
    requires forall f :: f in own && own[f] == User(pd, v) ==> own'[f] == User(pd, v)
    ensures Contents(mem', pd, v) == Contents(mem, pd, v)
  {
    Unsealed(mem, own, dirs);
    assert UserAt(mem, own, pd, v);
    assert KeptAt(mem, own, mem', own', Look(mem, pd, v).frame);
  }

  /** Directories other than pd map the same frames, with the same data. */
  ghost predicate SpacesKept(mem: Memory, mem': Memory, dirs: Dirs, pd: nat) {
    forall p, v {:trigger Contents(mem', p, v)} :: p in dirs && p != pd && dirs[p] == 0 && 0 <= v < UPAGES ==>
      Look(mem', p, v) == Look(mem, p, v) && Contents(mem', p, v) == Contents(mem, p, v)
  }

  lemma OthersKept(mem: Memory, own: Owners, dirs: Dirs, mem': Memory, own': Owners, pd: nat)
    requires Sealed(mem, own, dirs) && own'.Keys == own.Keys && mem'.Keys == mem.Keys && DataKept(mem, own, mem', own')
    requires SameOutside(mem, mem', dirs, pd, 0, VPAGES)
    requires forall f :: f in own && own[f].User? && own[f].pd != pd ==> own'[f] == own[f]
    ensures SpacesKept(mem, mem', dirs, pd)
  {
    forall p, v | p in dirs && p != pd && dirs[p] == 0 && 0 <= v < UPAGES
      ensures Look(mem', p, v) == Look(mem, p, v) && Contents(mem', p, v) == Contents(mem, p, v)
    {
      ContentsKept(mem, own, dirs, mem', own', p, v);
    }
  }

  // ---- allocuvm ----

  /** The frames that mapping page a takes: the page and, if its table is absent, the table. */
  function PageCost(mem: Memory, pd: nat, a: nat): nat {
    if Cell(mem, pd, a / 1024).present then 1 else 2
  }

  lemma PageFilled(mem0: Memory, own0: Owners, mem1: Memory, own1: Owners, mem2: Memory, own2: Owners, dirs: Dirs, pd: nat, a: nat, f: nat)
    requires f in own0 && own0[f] == Free && own1 == own0[f := Held] && mem0.Keys == mem1.Keys == mem2.Keys == own0.Keys
    requires SameLook(mem0, mem1, dirs) && DataKept(mem0, own0, mem1, own1) && mem1[f] == ZeroPage()
    requires MovesInto(own1, own2, pd, a, f) && SameOutside(mem1, mem2, dirs, pd, a, a + 1)
    requires DataKept(mem1, own1, mem2, own2) && mem2[f] == mem1[f]
    requires Look(mem2, pd, a) == Entry(f, PTE_W + PTE_U)
    ensures Filled(mem0, own0, dirs, mem2, own2, pd, a, a + 1)
  {
    KeptTrans(mem0, own0, mem1, own1, mem2, own2);
    OutsideMore(mem0, mem1, mem2, dirs, pd, a, a, a + 1);
  }

  /** A kernel frame that holds the given page. */
  method NewFrame(m: Machine, page: seq<Word>) returns (f: nat)
    requires m.Valid() && |page| == ENTRIES
    modifies m`mem, m`freelist, m`free, m`own
    ensures m.Valid() && SameLook(old(m.mem), m.mem, m.dirs) && DataKept(old(m.mem), old(m.own), m.mem, m.own)
    ensures f == 0 ==> m.own == old(m.own) && m.mem == old(m.mem)
    ensures f != 0 ==> f in old(m.own) && old(m.own)[f] == Free && m.own == old(m.own)[f := Held] && m.mem == old(m.mem)[f := page]
    ensures f != 0 ==> m.mem.Keys == old(m.mem).Keys && old(m.free) != [] && m.free == old(m.free)[1..]
    ensures f == 0 <==> old(m.free) == []
    ensures forall p, e {:trigger Cell(m.mem, p, e)} :: p in m.dirs ==> Cell(m.mem, p, e) == Cell(old(m.mem), p, e)
  {
    m.Open();
    assert forall p :: p in m.dirs ==> DirAt(m.own, p);
    f := m.Kalloc();
    if f != 0 {
      m.Fill(f, page);
    }
  }

  /** One page of allocuvm: held is a frame that could not be mapped. */
  method AllocPage(m: Machine, pd: nat, a: nat) returns (done: bool, held: nat)
    requires m.Valid() && pd in m.dirs && m.dirs[pd] == 0 && a < UPAGES && Look(m.mem, pd, a) == ZERO
    modifies m`mem, m`freelist, m`free, m`own
    ensures m.Valid()
    ensures done ==> Filled(old(m.mem), old(m.own), m.dirs, m.mem, m.own, pd, a, a + 1)
    ensures !done ==> Stuck(old(m.mem), old(m.own), m.dirs, m.mem, m.own, held)
    ensures done <==> |old(m.free)| >= PageCost(old(m.mem), pd, a)
    ensures done ==> |m.free| == |old(m.free)| - PageCost(old(m.mem), pd, a)
    ensures done ==> Tabled(old(m.mem), m.mem, pd, a / 1024, a / 1024 + 1)
  {
    var f := NewFrame(m, ZeroPage());
    if f == 0 {
      return false, 0;
    }
    ghost var mem1, own1 := m.mem, m.own;
    assert Look(m.mem, pd, a) == Look(old(m.mem), pd, a);
    var r := m.MapPage(pd, a, f, PTE_W + PTE_U);
    if r.Mapped? {
      PageFilled(old(m.mem), old(m.own), mem1, own1, m.mem, m.own, m.dirs, pd, a, f);
      return true, 0;
    }
    KeptTrans(old(m.mem), old(m.own), mem1, own1, m.mem, m.own);
    return false, f;
  }

  ghost predicate ZeroFilled(mem: Memory, pd: nat, lo: int, hi: int) {
    forall u :: lo <= u < hi && 0 <= u ==>
      Look(mem, pd, u).present && Look(mem, pd, u).perm == PTE_W + PTE_U && Contents(mem, pd, u) == ZeroPage()
  }

  /** Pages filled before keep their zeros while no page loses its frame. */
  lemma StillFilled(mem: Memory, own: Owners, dirs: Dirs, mem': Memory, own': Owners, pd: nat, lo: nat, a: nat)
    requires Sealed(mem, own, dirs) && pd in dirs && dirs[pd] == 0 && lo <= a < UPAGES
    requires mem'.Keys == mem.Keys && own'.Keys == own.Keys && DataKept(mem, own, mem', own')
    requires forall f :: f in own && own[f].User? ==> own'[f] == own[f]
    requires SameOutside(mem, mem', dirs, pd, a, a + 1) && ZeroFilled(mem, pd, lo, a)
    ensures ZeroFilled(mem', pd, lo, a)
  {
    forall u | lo <= u < a
      ensures Look(mem', pd, u).present && Look(mem', pd, u).perm == PTE_W + PTE_U && Contents(mem', pd, u) == ZeroPage()
    {
      assert Look(mem', pd, u) == Look(mem, pd, u);
      ContentsKept(mem, own, dirs, mem', own', pd, u);
    }
  }

  /** allocuvm has filled pages lo..n. */
  ghost predicate Filled(mem: Memory, own: Owners, dirs: Dirs, mem': Memory, own': Owners, pd: nat, lo: nat, n: nat) {
    && mem'.Keys == mem.Keys == own.Keys
    && OnlyTakes(own, own', pd) && DataKept(mem, own, mem', own')
    && ZeroFilled(mem', pd, lo, n) && SameOutside(mem, mem', dirs, pd, lo, n)
  }

  lemma FilledMore(mem: Memory, own: Owners, dirs: Dirs, mem1: Memory, own1: Owners, mem2: Memory, own2: Owners, pd: nat, lo: nat, n: nat)
    requires Sealed(mem1, own1, dirs) && pd in dirs && dirs[pd] == 0 && lo <= n < UPAGES
    requires Filled(mem, own, dirs, mem1, own1, pd, lo, n)
    requires Filled(mem1, own1, dirs, mem2, own2, pd, n, n + 1)
    ensures Filled(mem, own, dirs, mem2, own2, pd, lo, n + 1)
  {
    StillFilled(mem1, own1, dirs, mem2, own2, pd, lo, n);
    TakesTrans(mem, own, mem1, own1, mem2, own2, pd);
    OutsideMore(mem, mem1, mem2, dirs, pd, lo, n, n + 1);
  }

  /** A frame was taken off the free list, but its page could not be mapped. */
  ghost predicate Stuck(mem: Memory, own: Owners, dirs: Dirs, mem': Memory, own': Owners, held: nat) {
    && SameLook(mem, mem', dirs) && DataKept(mem, own, mem', own') && mem'.Keys == mem.Keys
    && (held == 0 ==> own' == own)
    && (held != 0 ==> held in own && own[held] == Free && own' == own[held := Held])
  }

  /** allocuvm's loop: fills pages lo..n with fresh zeroed frames; n < hi when memory ran out. */
  method AllocPages(m: Machine, pd: nat, lo: nat, hi: nat) returns (n: nat, held: nat, ghost mem1: Memory, ghost own1: Owners)
    requires m.Valid() && pd in m.dirs && m.dirs[pd] == 0 && lo <= hi <= UPAGES
    requires forall u :: lo <= u < hi ==> Look(m.mem, pd, u) == ZERO
    modifies m`mem, m`freelist, m`free, m`own
    ensures m.Valid() && lo <= n <= hi
    ensures Sealed(mem1, own1, m.dirs) && Filled(old(m.mem), old(m.own), m.dirs, mem1, own1, pd, lo, n)
    ensures n == hi ==> m.mem == mem1 && m.own == own1
    ensures n < hi ==> Stuck(mem1, own1, m.dirs, m.mem, m.own, held)
    ensures n == hi <==> |old(m.free)| >= AllocNeed(old(m.mem), pd, lo, hi)
    ensures n == hi ==> |m.free| == |old(m.free)| - AllocNeed(old(m.mem), pd, lo, hi)
    ensures n == hi ==> Tabled(old(m.mem), m.mem, pd, lo / 1024, EndEntry(lo, hi))
  {
    n, held := lo, 0;
    while n < hi
      invariant lo <= n <= hi && m.Valid()
      invariant Filled(old(m.mem), old(m.own), m.dirs, m.mem, m.own, pd, lo, n)
      invariant |m.free| == |old(m.free)| - AllocNeed(old(m.mem), pd, lo, n)
      invariant Tabled(old(m.mem), m.mem, pd, lo / 1024, EndEntry(lo, n))
    {
      mem1, own1 := m.mem, m.own;
      m.Seal();
      NeedMore(old(m.mem), pd, lo, n + 1, hi);
      var done;
      done, held := AllocNext(m, pd, lo, n, old(m.mem), old(m.own));
      if !done {
        return;
      }
      n := n + 1;
    }
    mem1, own1 := m.mem, m.own;
    m.Seal();
  }

  /** One turn of allocuvm's loop. */
  method AllocNext(m: Machine, pd: nat, lo: nat, n: nat, ghost mem0: Memory, ghost own0: Owners) returns (done: bool, held: nat)
    requires m.Valid() && pd in m.dirs && m.dirs[pd] == 0 && lo <= n < UPAGES && Look(mem0, pd, n) == ZERO
    requires Filled(mem0, own0, m.dirs, m.mem, m.own, pd, lo, n) && Tabled(mem0, m.mem, pd, lo / 1024, EndEntry(lo, n))
    modifies m`mem, m`freelist, m`free, m`own
    ensures m.Valid()
    ensures done ==> Filled(mem0, own0, m.dirs, m.mem, m.own, pd, lo, n + 1) && Tabled(mem0, m.mem, pd, lo / 1024, EndEntry(lo, n + 1))
    ensures !done ==> Stuck(old(m.mem), old(m.own), m.dirs, m.mem, m.own, held)
    ensures var cost := AllocNeed(mem0, pd, lo, n + 1) - AllocNeed(mem0, pd, lo, n);
            (done <==> |old(m.free)| >= cost) && (done ==> |m.free| == |old(m.free)| - cost)
  {
    ghost var mem1, own1 := m.mem, m.own;
    m.Seal();
    assert Look(m.mem, pd, n) == Look(mem0, pd, n);
    EntryStep(mem0, mem1, mem1, pd, lo, n);
    done, held := AllocPage(m, pd, n);
    if done {
      EntryStep(mem0, mem1, m.mem, pd, lo, n);
      FilledMore(mem0, own0, m.dirs, mem1, own1, m.mem, m.own, pd, lo, n);
    }
  }

  /** The frames that pages lo..hi take: one each and one for each table that is not there. */
  function AllocNeed(mem: Memory, pd: nat, lo: nat, hi: nat): nat
    requires lo <= hi
  {
    hi - lo + Absent(mem, pd, lo / 1024, EndEntry(lo, hi))
  }

  lemma NeedMore(mem: Memory, pd: nat, lo: nat, n: nat, hi: nat)
    requires lo <= n <= hi
    ensures AllocNeed(mem, pd, lo, n) <= AllocNeed(mem, pd, lo, hi)
  {
    AbsentMore(mem, pd, lo / 1024, EndEntry(lo, n), EndEntry(lo, hi));
  }

  /** Tables may stay behind, but the frames of the pages are given back. */
  ghost predicate OnlyTables(own: Owners, own': Owners, pd: nat) {
    && own'.Keys == own.Keys
    && (forall f :: f in own && own'[f] != own[f] ==> own[f] == Free && own'[f].Table? && own'[f].pd == pd)
  }

  lemma Undone(mem: Memory, own: Owners, dirs: Dirs, mem1: Memory, o1: Owners, o2: Owners, pd: nat, lo: nat, hi: nat)
    requires Sealed(mem, own, dirs) && Sealed(mem1, o1, dirs) && pd in dirs && dirs[pd] == 0 && lo <= hi <= UPAGES
    requires OnlyTakes(own, o1, pd) && SameOutside(mem, mem1, dirs, pd, lo, hi) && Released(o1, o2, pd, lo, hi)
    requires forall u :: lo <= u < hi ==> Look(mem, pd, u) == ZERO
    ensures OnlyTables(own, o2, pd)
  {
    Unsealed(mem, own, dirs);
    Unsealed(mem1, o1, dirs);
    forall f | f in own
      ensures o2[f] != own[f] ==> own[f] == Free && o2[f].Table? && o2[f].pd == pd
    {
      assert OwnedAt(mem, own, dirs, f) && OwnedAt(mem1, o1, dirs, f);
      if o1[f].User? && o1[f].pd == pd && !(lo <= o1[f].v < hi) {
        assert Look(mem1, pd, o1[f].v) == Look(mem, pd, o1[f].v);
        assert UserAt(mem, own, pd, o1[f].v);
      }
    }
  }

  lemma UndoOwners(mem0: Memory, own0: Owners, dirs: Dirs, mem1: Memory, own1: Owners, own2: Owners, own3: Owners, own4: Owners,
                   pd: nat, lo: nat, n: nat, hi: nat, held: nat)
    requires Sealed(mem0, own0, dirs) && Sealed(mem1, own1, dirs) && pd in dirs && dirs[pd] == 0 && lo <= n <= hi <= UPAGES
    requires Filled(mem0, own0, dirs, mem1, own1, pd, lo, n) && Released(own2, own3, pd, lo, hi)
    requires forall u :: lo <= u < hi ==> Look(mem0, pd, u) == ZERO
    requires if held == 0 then own2 == own1 && own4 == own3
             else held in own1 && own1[held] == Free && own2 == own1[held := Held] && own4 == own3[held := Free]
    ensures OnlyTables(own0, own4, pd)
    ensures forall f :: f in own0 && own0[f] != Free ==> own1[f] == own2[f] == own3[f] == own4[f] == own0[f]
  {
    Undone(mem0, own0, dirs, mem1, own1, own4, pd, lo, hi);
    Unsealed(mem0, own0, dirs);
    forall f | f in own0 && own0[f] != Free
      ensures own1[f] == own2[f] == own3[f] == own4[f] == own0[f]
    {
      assert OwnedAt(mem0, own0, dirs, f);
    }
  }

  lemma UndoLook(mem0: Memory, mem1: Memory, mem2: Memory, mem3: Memory, mem4: Memory, dirs: Dirs, pd: nat, lo: nat, n: nat, hi: nat)
    requires SameOutside(mem0, mem1, dirs, pd, lo, n) && SameLook(mem1, mem2, dirs) && n <= hi
    requires SameOutside(mem2, mem3, dirs, pd, lo, hi) && SameLook(mem3, mem4, dirs)
    requires forall u :: lo <= u < hi ==> Look(mem0, pd, u) == ZERO && Look(mem3, pd, u) == ZERO
    ensures SameLook(mem0, mem4, dirs)
  {
  }

  lemma KeptAll(m0: Memory, o0: Owners, m1: Memory, o1: Owners, m2: Memory, o2: Owners, m3: Memory, o3: Owners, m4: Memory, o4: Owners)
    requires m0.Keys == m1.Keys == m2.Keys == m3.Keys == m4.Keys == o0.Keys == o1.Keys == o2.Keys == o3.Keys == o4.Keys
    requires DataKept(m0, o0, m1, o1) && DataKept(m1, o1, m2, o2) && DataKept(m2, o2, m3, o3) && DataKept(m3, o3, m4, o4)
    requires forall f :: f in o0 && o0[f] != Free ==> o1[f] == o2[f] == o3[f] == o4[f] == o0[f]
    ensures DataKept(m0, o0, m4, o4)
  {
    forall f
      ensures KeptAt(m0, o0, m4, o4, f)
    {
      assert KeptAt(m0, o0, m1, o1, f) && KeptAt(m1, o1, m2, o2, f) && KeptAt(m2, o2, m3, o3, f) && KeptAt(m3, o3, m4, o4, f);
    }
  }

  /**
   allocuvm: the pages between the two sizes get fresh zeroed frames, or the user map is
   as before and every frame but those of new tables is free again.
   */
  method AllocUvm(m: Machine, pd: nat, oldsz: nat, newsz: nat) returns (sz: nat, ghost ok: bool)
    requires m.Valid() && pd in m.dirs && m.dirs[pd] == 0
    requires newsz < KERNBASE ==> forall u :: PageUp(oldsz) <= u < PageUp(newsz) ==> Look(m.mem, pd, u) == ZERO
    modifies m`mem, m`freelist, m`free, m`own
    ensures m.Valid() && DataKept(old(m.mem), old(m.own), m.mem, m.own)
    ensures ok <==> newsz < KERNBASE && (newsz < oldsz || |old(m.free)| >= AllocNeed(old(m.mem), pd, PageUp(oldsz), PageUp(newsz)))
    ensures sz == if ok then (if newsz < oldsz then oldsz else newsz) else 0
    ensures ok ==> OnlyTakes(old(m.own), m.own, pd) && ZeroFilled(m.mem, pd, PageUp(oldsz), PageUp(newsz))
    ensures ok ==> SameOutside(old(m.mem), m.mem, m.dirs, pd, PageUp(oldsz), PageUp(newsz))
    ensures ok && newsz < oldsz ==> m.mem == old(m.mem) && m.free == old(m.free)
    ensures ok && newsz >= oldsz ==>
              && |m.free| == |old(m.free)| - AllocNeed(old(m.mem), pd, PageUp(oldsz), PageUp(newsz))
              && Tabled(old(m.mem), m.mem, pd, PageUp(oldsz) / 1024, EndEntry(PageUp(oldsz), PageUp(newsz)))
    ensures !ok ==> SameLook(old(m.mem), m.mem, m.dirs) && OnlyTables(old(m.own), m.own, pd)
  {
    if newsz >= KERNBASE {
      return 0, false;
    }
    if newsz < oldsz {
      return oldsz, true;
    }
    m.Seal();
    var n, held;
    ghost var mem1, own1;
    n, held, mem1, own1 := AllocPages(m, pd, PageUp(oldsz), PageUp(newsz));
    if n == PageUp(newsz) {
      return newsz, true;
    }
    AllocUndo(m, pd, oldsz, newsz, held, old(m.mem), old(m.own), mem1, own1, n);
    return 0, false;
  }

  /** allocuvm out of memory: unmap what was mapped, then free the frame at hand. */
  method AllocUndo(m: Machine, pd: nat, oldsz: nat, newsz: nat, held: nat,
                   ghost mem0: Memory, ghost own0: Owners, ghost mem1: Memory, ghost own1: Owners, ghost n: nat)
    requires m.Valid() && pd in m.dirs && m.dirs[pd] == 0 && oldsz <= newsz < KERNBASE
    requires Sealed(mem0, own0, m.dirs) && Sealed(mem1, own1, m.dirs) && PageUp(oldsz) <= n < PageUp(newsz)
    requires Filled(mem0, own0, m.dirs, mem1, own1, pd, PageUp(oldsz), n) && Stuck(mem1, own1, m.dirs, m.mem, m.own, held)
    requires forall u :: PageUp(oldsz) <= u < PageUp(newsz) ==> Look(mem0, pd, u) == ZERO
    modifies m`mem, m`freelist, m`free, m`own
    ensures m.Valid() && DataKept(mem0, own0, m.mem, m.own)
    ensures SameLook(mem0, m.mem, m.dirs) && OnlyTables(own0, m.own, pd)
  {
    ghost var lo, hi := PageUp(oldsz), PageUp(newsz);
    ghost var mem2, own2 := m.mem, m.own;
    var _ := m.DeallocUvm(pd, newsz, oldsz);
    ghost var mem3, own3 := m.mem, m.own;
    if held != 0 {
      m.Kfree(held);
    }
    assert DataKept(mem3, own3, m.mem, m.own);
    AllUndone(mem0, own0, mem1, own1, mem2, own2, mem3, own3, m.mem, m.own, m.dirs, pd, lo, n, hi, held);
  }

  lemma AllUndone(mem0: Memory, own0: Owners, mem1: Memory, own1: Owners, mem2: Memory, own2: Owners, mem3: Memory, own3: Owners,
                  mem4: Memory, own4: Owners, dirs: Dirs, pd: nat, lo: nat, n: nat, hi: nat, held: nat)
    requires Sealed(mem0, own0, dirs) && Sealed(mem1, own1, dirs) && pd in dirs && dirs[pd] == 0 && lo <= n <= hi <= UPAGES
    requires forall u :: lo <= u < hi ==> Look(mem0, pd, u) == ZERO && Look(mem3, pd, u) == ZERO
    requires Filled(mem0, own0, dirs, mem1, own1, pd, lo, n) && Stuck(mem1, own1, dirs, mem2, own2, held)
    requires Released(own2, own3, pd, lo, hi) && SameOutside(mem2, mem3, dirs, pd, lo, hi) && DataKept(mem2, own2, mem3, own3)
    requires own4 == (if held == 0 then own3 else own3[held := Free]) && SameLook(mem3, mem4, dirs) && DataKept(mem3, own3, mem4, own4)
    requires mem2.Keys == mem3.Keys == mem4.Keys && (held == 0 || held in own3)
    ensures DataKept(mem0, own0, mem4, own4) && SameLook(mem0, mem4, dirs) && OnlyTables(own0, own4, pd)
  {
    UndoOwners(mem0, own0, dirs, mem1, own1, own2, own3, own4, pd, lo, n, hi, held);
    UndoLook(mem0, mem1, mem2, mem3, mem4, dirs, pd, lo, n, hi);
    KeptAll(mem0, own0, mem1, own1, mem2, own2, mem3, own3, mem4, own4);
  }

  // ---- copyuvm ----

  /** Page v of directory d is a copy of page v of directory pd. */
  ghost predicate CopyAt(mem: Memory, pd: nat, d: nat, v: nat) {
    && Look(mem, d, v).present == Look(mem, pd, v).present
    && (Look(mem, pd, v).present ==> Look(mem, d, v).perm == Look(mem, pd, v).perm && Look(mem, d, v).frame != Look(mem, pd, v).frame)
    && Contents(mem, d, v) == Contents(mem, pd, v)
  }

  ghost predicate Copied(mem: Memory, pd: nat, d: nat, n: nat) {
    && (forall v :: 0 <= v < n ==> CopyAt(mem, pd, d, v))
    && (forall v :: n <= v < UPAGES ==> Look(mem, d, v) == ZERO)
  }

  /** Directory d under construction: it took free frames, and everything else is as it was. */
  ghost predicate Growing(mem: Memory, own: Owners, dirs: Dirs, mem': Memory, own': Owners, d: nat) {
    && mem'.Keys == mem.Keys == own.Keys && d !in dirs
    && (forall z: nat {:trigger Unfold(z)} :: Unfold(z) ==>
          Built(own, own', d) && DataKept(mem, own, mem', own') && SameLook(mem, mem', dirs))
  }

  lemma GrowingFacts(mem: Memory, own: Owners, dirs: Dirs, mem': Memory, own': Owners, d: nat)
    requires Growing(mem, own, dirs, mem', own', d)
    ensures Built(own, own', d) && DataKept(mem, own, mem', own') && SameLook(mem, mem', dirs)
  {
    assert Unfold(0);
  }

  /** A change of page v of directory d alone, with frames from the free list. */
  ghost predicate PageStep(mem: Memory, own: Owners, dirs: Dirs, mem': Memory, own': Owners, d: nat, v: nat) {
    && mem'.Keys == mem.Keys == own.Keys
    && OnlyTakes(own, own', d) && DataKept(mem, own, mem', own') && SameOutside(mem, mem', dirs, d, v, v + 1)
  }

  lemma GrowingMore(mem: Memory, own: Owners, dirs: Dirs, mem1: Memory, own1: Owners, mem2: Memory, own2: Owners, d: nat, v: nat)
    requires Growing(mem, own, dirs, mem1, own1, d) && PageStep(mem1, own1, dirs[d := 0], mem2, own2, d, v)
    ensures Growing(mem, own, dirs, mem2, own2, d)
  {
    GrowingFacts(mem, own, dirs, mem1, own1, d);
    BuiltTakes(mem, own, mem1, own1, mem2, own2, d);
    forall p, u | p in dirs && dirs[p] * 1024 <= u < VPAGES
      ensures Look(mem2, p, u) == Look(mem, p, u)
    {
      assert p != d;
      assert Look(mem2, p, u) == Look(mem1, p, u);
    }
  }

  lemma SameParent(mem: Memory, own: Owners, dirs: Dirs, mem': Memory, own': Owners, d: nat, pd: nat, v: nat)
    requires Growing(mem, own, dirs, mem', own', d) && pd in dirs && dirs[pd] == 0 && v < VPAGES
    ensures Look(mem', pd, v) == Look(mem, pd, v)
  {
    GrowingFacts(mem, own, dirs, mem', own', d);
  }

  /** Earlier copies stay copies. */
  lemma CopiedMore(mem1: Memory, own1: Owners, dirs: Dirs, mem2: Memory, own2: Owners, pd: nat, d: nat, v: nat)
    requires Sealed(mem1, own1, dirs) && pd in dirs && dirs[pd] == 0 && d in dirs && dirs[d] == 0 && pd != d && v < UPAGES
    requires PageStep(mem1, own1, dirs, mem2, own2, d, v) && Copied(mem1, pd, d, v) && CopyAt(mem2, pd, d, v)
    ensures Copied(mem2, pd, d, v + 1)
  {
    forall u | 0 <= u < v
      ensures CopyAt(mem2, pd, d, u)
    {
      assert CopyAt(mem1, pd, d, u);
      assert Look(mem2, pd, u) == Look(mem1, pd, u) && Look(mem2, d, u) == Look(mem1, d, u);
      ContentsKept(mem1, own1, dirs, mem2, own2, pd, u);
      ContentsKept(mem1, own1, dirs, mem2, own2, d, u);
    }
    forall u | v + 1 <= u < UPAGES
      ensures Look(mem2, d, u) == ZERO
    {
      assert Look(mem2, d, u) == Look(mem1, d, u);
    }
  }

  /** A frame off the free list, filled and then mapped at page v. */
  lemma PagePlaced(mem0: Memory, own0: Owners, mem1: Memory, own1: Owners, mem2: Memory, own2: Owners, dirs: Dirs, d: nat, v: nat, f: nat)
    requires f in own0 && own0[f] == Free && own1 == own0[f := Held] && mem0.Keys == mem1.Keys == mem2.Keys == own0.Keys
    requires SameLook(mem0, mem1, dirs) && DataKept(mem0, own0, mem1, own1)
    requires MovesInto(own1, own2, d, v, f) && SameOutside(mem1, mem2, dirs, d, v, v + 1) && DataKept(mem1, own1, mem2, own2)
    ensures PageStep(mem0, own0, dirs, mem2, own2, d, v)
  {
    KeptTrans(mem0, own0, mem1, own1, mem2, own2);
    OutsideMore(mem0, mem1, mem2, dirs, d, v, v, v + 1);
  }

  lemma PageCopied(mem0: Memory, own0: Owners, mem1: Memory, own1: Owners, mem2: Memory, own2: Owners, dirs: Dirs,
                   pd: nat, d: nat, v: nat, f: nat)
    requires Sealed(mem0, own0, dirs) && pd in dirs && dirs[pd] == 0 && d in dirs && dirs[d] == 0 && pd != d && v < UPAGES
    requires f in own0 && own0[f] == Free && own1 == own0[f := Held] && mem0.Keys == mem1.Keys == mem2.Keys
    requires SameLook(mem0, mem1, dirs) && DataKept(mem0, own0, mem1, own1)
    requires Look(mem0, pd, v).present && mem1[f] == Contents(mem0, pd, v)
    requires MovesInto(own1, own2, d, v, f) && SameOutside(mem1, mem2, dirs, d, v, v + 1)
    requires DataKept(mem1, own1, mem2, own2) && mem2[f] == mem1[f]
    requires Look(mem2, d, v) == Entry(f, Look(mem0, pd, v).perm)
    ensures PageStep(mem0, own0, dirs, mem2, own2, d, v) && CopyAt(mem2, pd, d, v)
  {
    PagePlaced(mem0, own0, mem1, own1, mem2, own2, dirs, d, v, f);
    Unsealed(mem0, own0, dirs);
    assert UserAt(mem0, own0, pd, v);
    assert Look(mem2, pd, v) == Look(mem0, pd, v);
    ContentsKept(mem0, own0, dirs, mem2, own2, pd, v);
  }

  /** The frames that copying page v takes. */
  function CopyCost(mem: Memory, pd: nat, d: nat, v: nat): nat {
    if Look(mem, pd, v).present then PageCost(mem, d, v) else 0
  }

  /** Directory d has a new table for entry e, if `used`; its other entries have one exactly if they had. */
  ghost predicate TabledIf(mem: Memory, mem': Memory, d: nat, e: nat, used: bool) {
    forall i :: 0 <= i < ENTRIES ==> (Cell(mem', d, i).present <==> Cell(mem, d, i).present || (used && i == e))
  }

  /** Some page below n under directory entry e is present. */
  ghost predicate Used(mem: Memory, pd: nat, e: nat, n: nat) {
    exists u :: 0 <= u < n && u / 1024 == e && Look(mem, pd, u).present
  }

  /** The frames that a copy of the pages below n takes: one for each present page and one for each table. */
  ghost function CopyNeed(mem: Memory, pd: nat, n: nat): nat {
    if n == 0 then 0
    else CopyNeed(mem, pd, n - 1) + if !Look(mem, pd, n - 1).present then 0 else if Used(mem, pd, (n - 1) / 1024, n - 1) then 1 else 2
  }

  lemma {:induction false} CopyNeedMore(mem: Memory, pd: nat, n: nat, hi: nat)
    requires n <= hi
    ensures CopyNeed(mem, pd, n) <= CopyNeed(mem, pd, hi)
    decreases hi
  {
    if n < hi {
      CopyNeedMore(mem, pd, n, hi - 1);
    }
  }

  /** The child has exactly the tables that its pages below v need. */
  ghost predicate TablesOf(mem0: Memory, pd: nat, mem: Memory, d: nat, v: nat) {
    forall e :: 0 <= e < UPAGES / 1024 ==> (Cell(mem, d, e).present <==> Used(mem0, pd, e, v))
  }

  lemma TablesOfMore(mem0: Memory, pd: nat, mem: Memory, mem': Memory, d: nat, v: nat, ok: bool)
    requires TablesOf(mem0, pd, mem, d, v) && v < UPAGES && Look(mem, pd, v) == Look(mem0, pd, v)
    requires ok ==> TabledIf(mem, mem', d, v / 1024, Look(mem, pd, v).present)
    ensures ok ==> TablesOf(mem0, pd, mem', d, v + 1)
    ensures CopyNeed(mem0, pd, v + 1) == CopyNeed(mem0, pd, v) + CopyCost(mem, pd, d, v)
  {
    forall e | 0 <= e < UPAGES / 1024
      ensures Used(mem0, pd, e, v + 1) <==> Used(mem0, pd, e, v) || (Look(mem0, pd, v).present && e == v / 1024)
    {
    }
  }

  /** One round of copyuvm's loop. */
  method CopyPage(m: Machine, pd: nat, d: nat, v: nat) returns (ok: bool)
    requires m.Valid() && pd in m.dirs && m.dirs[pd] == 0 && d in m.dirs && m.dirs[d] == 0 && pd != d && v < UPAGES
    requires Look(m.mem, d, v) == ZERO
    modifies m`mem, m`freelist, m`free, m`own
    ensures m.Valid()
    ensures ok ==> PageStep(old(m.mem), old(m.own), m.dirs, m.mem, m.own, d, v) && CopyAt(m.mem, pd, d, v)
    ensures !ok ==> m.own == old(m.own) && SameLook(old(m.mem), m.mem, m.dirs) && DataKept(old(m.mem), old(m.own), m.mem, m.own)
    ensures ok <==> |old(m.free)| >= CopyCost(old(m.mem), pd, d, v)
    ensures ok ==> |m.free| == |old(m.free)| - CopyCost(old(m.mem), pd, d, v)
    ensures ok ==> TabledIf(old(m.mem), m.mem, d, v / 1024, Look(old(m.mem), pd, v).present)
  {
    m.Open();
    var t := m.WalkPgdir(pd, v, false);
    if t == 0 || !m.mem[t][v % 1024].present {
      assert Look(m.mem, pd, v) == ZERO;
      return true;
    }
    var w := m.mem[t][v % 1024];
    assert w == Look(m.mem, pd, v);
    assert UserAt(m.mem, m.own, pd, v) && PageAt(m.mem, w.frame);
    ok := CopyPresent(m, pd, d, v, w);
  }

  /** A present page: a new frame, a copy of the data, the same flags. */
  method CopyPresent(m: Machine, pd: nat, d: nat, v: nat, w: Word) returns (ok: bool)
    requires m.Valid() && pd in m.dirs && m.dirs[pd] == 0 && d in m.dirs && m.dirs[d] == 0 && pd != d && v < UPAGES
    requires Look(m.mem, d, v) == ZERO && w == Look(m.mem, pd, v) && w.present && w.frame in m.mem && |m.mem[w.frame]| == ENTRIES
    modifies m`mem, m`freelist, m`free, m`own
    ensures m.Valid()
    ensures ok ==> PageStep(old(m.mem), old(m.own), m.dirs, m.mem, m.own, d, v) && CopyAt(m.mem, pd, d, v)
    ensures !ok ==> m.own == old(m.own) && SameLook(old(m.mem), m.mem, m.dirs) && DataKept(old(m.mem), old(m.own), m.mem, m.own)
    ensures ok <==> |old(m.free)| >= PageCost(old(m.mem), d, v)
    ensures ok ==> |m.free| == |old(m.free)| - PageCost(old(m.mem), d, v)
    ensures ok ==> Tabled(old(m.mem), m.mem, d, v / 1024, v / 1024 + 1)
  {
    m.Seal();
    var f := NewFrame(m, m.mem[w.frame]);
    if f == 0 {
      return false;
    }
    ghost var mem1, own1 := m.mem, m.own;
    assert Look(mem1, d, v) == Look(old(m.mem), d, v);
    var r := m.MapPage(d, v, f, w.perm);
    if r.Mapped? {
      PageCopied(old(m.mem), old(m.own), mem1, own1, m.mem, m.own, m.dirs, pd, d, v, f);
      return true;
    }
    m.Kfree(f);
    assert m.own == old(m.own);
    return false;
  }

  /** copyuvm's loop over the pages below sz. */
  method CopyPages(m: Machine, pd: nat, d: nat, sz: nat, ghost mem0: Memory, ghost own0: Owners, ghost dirs0: Dirs) returns (ok: bool)
    requires m.Valid() && m.dirs == dirs0[d := 0] && pd in dirs0 && dirs0[pd] == 0 && pd != d && sz <= KERNBASE
    requires Growing(mem0, own0, dirs0, m.mem, m.own, d) && Copied(m.mem, pd, d, 0) && TablesOf(mem0, pd, m.mem, d, 0)
    modifies m`mem, m`freelist, m`free, m`own
    ensures m.Valid() && Growing(mem0, own0, dirs0, m.mem, m.own, d)
    ensures ok ==> Copied(m.mem, pd, d, PageUp(sz))
    ensures ok <==> |old(m.free)| >= CopyNeed(mem0, pd, PageUp(sz))
    ensures ok ==> |m.free| == |old(m.free)| - CopyNeed(mem0, pd, PageUp(sz))
  {
    var v := 0;
    while v * PGSIZE < sz
      invariant m.Valid() && Growing(mem0, own0, dirs0, m.mem, m.own, d)
      invariant v <= PageUp(sz) && Copied(m.mem, pd, d, v)
      invariant TablesOf(mem0, pd, m.mem, d, v)
      invariant |m.free| == |old(m.free)| - CopyNeed(mem0, pd, v)
    {
      m.Seal();
      ghost var mem1, own1 := m.mem, m.own;
      SameParent(mem0, own0, dirs0, mem1, own1, d, pd, v);
      ok := CopyPage(m, pd, d, v);
      TablesOfMore(mem0, pd, mem1, m.mem, d, v, ok);
      CopyNeedMore(mem0, pd, v + 1, PageUp(sz));
      if !ok {
        NothingTaken(mem1, own1, m.dirs, m.mem, d, v);
        GrowingMore(mem0, own0, dirs0, mem1, own1, m.mem, m.own, d, v);
        return;
      }
      GrowingMore(mem0, own0, dirs0, mem1, own1, m.mem, m.own, d, v);
      CopiedMore(mem1, own1, m.dirs, m.mem, m.own, pd, d, v);
      v := v + 1;
    }
    ok := true;
  }

  lemma NothingTaken(mem1: Memory, own: Owners, dirs: Dirs, mem2: Memory, d: nat, v: nat)
    requires mem1.Keys == mem2.Keys == own.Keys && SameLook(mem1, mem2, dirs) && DataKept(mem1, own, mem2, own)
    ensures PageStep(mem1, own, dirs, mem2, own, d, v)
  {
  }

  /**
   copyuvm: the child gets the kernel's part and, page by page, a copy of the parent's
   data in frames of its own; or it gets nothing and the owner of every frame is as before.
   */
  method CopyUvm(m: Machine, pd: nat, sz: nat, rows: seq<Kmap>) returns (d: nat)
    requires m.Valid() && pd in m.dirs && m.dirs[pd] == 0 && sz <= KERNBASE && RowsOk(rows)
    modifies m
    ensures m.Valid() && DataKept(old(m.mem), old(m.own), m.mem, m.own) && SameLook(old(m.mem), m.mem, old(m.dirs))
    ensures d == 0 ==> m.own == old(m.own) && m.dirs == old(m.dirs)
    ensures d != 0 ==> d !in old(m.dirs) && m.dirs == old(m.dirs)[d := 0] && Built(old(m.own), m.own, d)
    ensures d != 0 ==> Copied(m.mem, pd, d, PageUp(sz))
    ensures d != 0 <==> |old(m.free)| >= 1 + TablesFor(rows) + CopyNeed(old(m.mem), pd, PageUp(sz))
    ensures d != 0 ==> |m.free| == |old(m.free)| - 1 - TablesFor(rows) - CopyNeed(old(m.mem), pd, PageUp(sz))
    ensures m.roots == old(m.roots)
  {
    m.Seal();
    d := m.SetupKvm(rows);
    if d == 0 {
      return;
    }
    NoUserRows(m.mem, d, rows);
    NoUserTables(old(m.mem), pd, m.mem, d, rows);
    var ok := CopyPages(m, pd, d, sz, old(m.mem), old(m.own), old(m.dirs));
    GrowingFacts(old(m.mem), old(m.own), old(m.dirs), m.mem, m.own, d);
    if !ok {
      m.DropSpace(d, true, old(m.mem), old(m.own), old(m.dirs));
      d := 0;
    }
  }

  lemma NoUserRows(mem: Memory, d: nat, rows: seq<Kmap>)
    requires RowsOk(rows) && forall u :: 0 <= u < VPAGES ==> Look(mem, d, u) == RowsMap(rows, u)
    ensures forall u :: 0 <= u < UPAGES ==> Look(mem, d, u) == ZERO
  {
    forall u | 0 <= u < UPAGES
      ensures RowsMap(rows, u) == ZERO
    {
      NoUserRow(rows, |rows|, u);
      assert rows[..|rows|] == rows;
    }
  }

  /** The kernel's part takes no table below KERNBASE. */
  lemma NoUserTables(mem0: Memory, pd: nat, mem: Memory, d: nat, rows: seq<Kmap>)
    requires RowsOk(rows) && forall e :: 0 <= e < ENTRIES ==> (Cell(mem, d, e).present <==> Spanned(rows, e))
    ensures TablesOf(mem0, pd, mem, d, 0)
  {
  }

  lemma {:induction false} NoUserRow(rows: seq<Kmap>, n: nat, u: nat)
    requires RowsOk(rows) && n <= |rows| && u < UPAGES
    ensures RowsMap(rows[..n], u) == ZERO
  {
    if n > 0 {
      assert rows[..n][..n - 1] == rows[..n - 1];
      NoUserRow(rows, n - 1, u);
    }
  }

  // ---- The lazy address space ----

  /** Filling absent pages with zeros changes nothing a process reads, and adds no byte above sz. */
  lemma FilledMeaning(mem: Memory, own: Owners, dirs: Dirs, mem': Memory, own': Owners, pd: nat, lo: nat, hi: nat, sz: nat)
    requires Sealed(mem, own, dirs) && pd in dirs && dirs[pd] == 0 && lo <= hi <= UPAGES && sz <= KERNBASE
    requires Filled(mem, own, dirs, mem', own', pd, lo, hi)
    requires forall u :: lo <= u < hi ==> Look(mem, pd, u) == ZERO
    ensures Meaning(mem', pd, sz) == Meaning(mem, pd, sz)
  {
    forall v | 0 <= v < PageUp(sz)
      ensures Contents(mem', pd, v) == Contents(mem, pd, v)
    {
      if !(lo <= v < hi) {
        assert Look(mem', pd, v) == Look(mem, pd, v);
        ContentsKept(mem, own, dirs, mem', own', pd, v);
      }
    }
  }

  /** An address space without pages above sz, read up to a larger size, ends in zeros. */
  lemma GrownMeaning(mem: Memory, pd: nat, sz: nat, newsz: nat)
    requires NoneAbove(mem, pd, sz) && sz <= newsz <= KERNBASE
    ensures Meaning(mem, pd, newsz) == Meaning(mem, pd, sz) + Zeros(PageUp(newsz) - PageUp(sz))
  {
  }

  /** Eager growth by allocuvm and lazy growth by sbrk mean the same. */
  lemma EagerIsLazy(mem: Memory, own: Owners, dirs: Dirs, mem': Memory, own': Owners, pd: nat, sz: nat, newsz: nat)
    requires Sealed(mem, own, dirs) && pd in dirs && dirs[pd] == 0 && sz <= newsz <= KERNBASE && NoneAbove(mem, pd, sz)
    requires Filled(mem, own, dirs, mem', own', pd, PageUp(sz), PageUp(newsz))
    ensures Meaning(mem', pd, newsz) == Meaning(mem, pd, newsz)
    ensures Meaning(mem', pd, newsz) == Meaning(mem, pd, sz) + Zeros(PageUp(newsz) - PageUp(sz))
  {
    FilledMeaning(mem, own, dirs, mem', own', pd, PageUp(sz), PageUp(newsz), newsz);
    GrownMeaning(mem, pd, sz, newsz);
  }

  /** deallocuvm truncates. */
  lemma ShrunkMeaning(mem: Memory, own: Owners, dirs: Dirs, mem': Memory, own': Owners, pd: nat, sz: nat, newsz: nat)
    requires Sealed(mem, own, dirs) && pd in dirs && dirs[pd] == 0 && newsz <= sz <= KERNBASE && mem'.Keys == mem.Keys
    requires Released(own, own', pd, PageUp(newsz), PageUp(sz)) && DataKept(mem, own, mem', own')
    requires SameOutside(mem, mem', dirs, pd, PageUp(newsz), PageUp(sz))
    ensures Meaning(mem', pd, newsz) == Meaning(mem, pd, sz)[..PageUp(newsz)]
  {
    forall v | 0 <= v < PageUp(newsz)
      ensures Contents(mem', pd, v) == Contents(mem, pd, v)
    {
      assert Look(mem', pd, v) == Look(mem, pd, v);
      ContentsKept(mem, own, dirs, mem', own', pd, v);
    }
  }

  /** The child of copyuvm reads what its parent reads. */
  lemma CopiedMeaning(mem: Memory, pd: nat, d: nat, sz: nat)
    requires sz <= KERNBASE && Copied(mem, pd, d, PageUp(sz))
    ensures Meaning(mem, d, sz) == Meaning(mem, pd, sz) && NoneAbove(mem, d, sz)
  {
    forall v | 0 <= v < PageUp(sz)
      ensures Contents(mem, d, v) == Contents(mem, pd, v)
    {
      assert CopyAt(mem, pd, d, v);
    }
  }

  datatype Fault = Filling | Killed | RemapPanic

  /** A running process moves frames only between the free list and its own directory. */
  ghost predicate LifeOf(own: Owners, own': Owners, d: nat) {
    && own'.Keys == own.Keys
    && (forall f :: f in own && own'[f] != own[f] ==>
          (own[f] == Free || Of(own[f], d)) && (own'[f] == Free || Of(own'[f], d)))
  }

  /** What process pd's own faults and sbrk calls do to the rest of the machine. */
  ghost predicate Private(mem: Memory, own: Owners, dirs: Dirs, mem': Memory, own': Owners, pd: nat) {
    LifeOf(own, own', pd) && DataKept(mem, own, mem', own') && SpacesKept(mem, mem', dirs, pd)
    && SameOutside(mem, mem', dirs, pd, 0, UPAGES)
  }

  /** The frames that the fill of page v takes before it fails or panics. */
  function FaultNeed(mem: Memory, pd: nat, v: nat): nat {
    if Look(mem, pd, v).present then 1 else PageCost(mem, pd, v)
  }

  /** The demand-fill arm of T_PGFLT for a process of size sz that faulted at addr. */
  method PageFault(m: Machine, pd: nat, sz: nat, guard: nat, addr: nat) returns (r: Fault)
    requires m.Valid() && pd in m.dirs && m.dirs[pd] == 0 && sz <= KERNBASE && NoneAbove(m.mem, pd, sz)
    modifies m`mem, m`freelist, m`free, m`own
    ensures m.Valid() && (!r.RemapPanic? ==> NoneAbove(m.mem, pd, sz))
    ensures r.Killed? <==>
              addr >= sz || addr / PGSIZE * PGSIZE == guard || |old(m.free)| < FaultNeed(old(m.mem), pd, addr / PGSIZE)
    ensures r.RemapPanic? <==>
              addr < sz && addr / PGSIZE * PGSIZE != guard && Look(old(m.mem), pd, addr / PGSIZE).present && old(m.free) != []
    ensures r.Filling? ==> Look(m.mem, pd, addr / PGSIZE).present && Look(m.mem, pd, addr / PGSIZE).perm == PTE_W + PTE_U
    ensures !r.RemapPanic? ==> Meaning(m.mem, pd, sz) == Meaning(old(m.mem), pd, sz)
    ensures !r.RemapPanic? ==> Private(old(m.mem), old(m.own), m.dirs, m.mem, m.own, pd)
    ensures r.Killed? ==> m.own == old(m.own)
  {
    if addr >= sz {
      return Killed;
    }
    var page := addr / PGSIZE;
    if page * PGSIZE == guard {
      return Killed;
    }
    m.Seal();
    r := DemandFill(m, pd, page);
    if r.Filling? {
      FilledMeaning(old(m.mem), old(m.own), m.dirs, m.mem, m.own, pd, page, page + 1, sz);
      FilledPrivate(old(m.mem), old(m.own), m.dirs, m.mem, m.own, pd, page, page + 1);
    } else if r.Killed? {
      FilledMeaning(old(m.mem), old(m.own), m.dirs, m.mem, m.own, pd, 0, 0, sz);
      FilledPrivate(old(m.mem), old(m.own), m.dirs, m.mem, m.own, pd, 0, 0);
    }
    forall v | PageUp(sz) <= v < UPAGES
      ensures !r.RemapPanic? ==> Look(m.mem, pd, v) == Look(old(m.mem), pd, v)
    {
    }
  }

  lemma FilledPrivate(mem: Memory, own: Owners, dirs: Dirs, mem': Memory, own': Owners, pd: nat, lo: nat, hi: nat)
    requires Sealed(mem, own, dirs) && hi <= UPAGES && Filled(mem, own, dirs, mem', own', pd, lo, hi)
    ensures Private(mem, own, dirs, mem', own', pd)
  {
    OthersKept(mem, own, dirs, mem', own', pd);
  }

  lemma ReleasedPrivate(mem: Memory, own: Owners, dirs: Dirs, mem': Memory, own': Owners, pd: nat, lo: int, hi: int)
    requires Sealed(mem, own, dirs) && mem'.Keys == mem.Keys && 0 <= lo && hi <= UPAGES
    requires Released(own, own', pd, lo, hi) && DataKept(mem, own, mem', own') && SameOutside(mem, mem', dirs, pd, lo, hi)
    ensures Private(mem, own, dirs, mem', own', pd)
  {
    OthersKept(mem, own, dirs, mem', own', pd);
  }

  /** A fresh zeroed frame for page v, unless there is no memory or the page is present. */
  method DemandFill(m: Machine, pd: nat, v: nat) returns (r: Fault)
    requires m.Valid() && pd in m.dirs && m.dirs[pd] == 0 && v < UPAGES
    modifies m`mem, m`freelist, m`free, m`own
    ensures m.Valid()
    ensures r.RemapPanic? <==> Look(old(m.mem), pd, v).present && old(m.free) != []
    ensures r.Filling? ==>
              Look(old(m.mem), pd, v) == ZERO && Filled(old(m.mem), old(m.own), m.dirs, m.mem, m.own, pd, v, v + 1)
    ensures r.Killed? ==> m.own == old(m.own) && Filled(old(m.mem), old(m.own), m.dirs, m.mem, m.own, pd, 0, 0)
    ensures r.Killed? <==> |old(m.free)| < FaultNeed(old(m.mem), pd, v)
  {
    var f := NewFrame(m, ZeroPage());
    if f == 0 {
      return Killed;
    }
    ghost var mem1, own1 := m.mem, m.own;
    assert Look(mem1, pd, v) == Look(old(m.mem), pd, v);
    var res := m.MapPage(pd, v, f, PTE_W + PTE_U);
    match res
    case Mapped =>
      PageFilled(old(m.mem), old(m.own), mem1, own1, m.mem, m.own, m.dirs, pd, v, f);
      return Filling;
    case NoMemory =>
      m.Kfree(f);
      assert m.own == old(m.own);
      return Killed;
    case Remap =>
      return RemapPanic;
  }

  /** growproc reports failure: deallocuvm has returned size 0. */
  predicate SbrkFails(sz: nat, n: int) {
    n < 0 && (sz + n == 0 || sz == 0)
  }

  /** The size that sys_sbrk leaves: growth is modulo 2^32, and a shrink below 0 wraps and does nothing. */
  function SbrkSize(sz: nat, n: int): (r: nat)
    requires sz < UINT && -0x8000_0000 <= n < 0x8000_0000
    ensures n > 0 ==> r == sz + n || r == sz + n - UINT
    ensures n <= 0 ==> r == sz || 0 < r == sz + n
    ensures r < UINT && (0 < sz + n < UINT ==> r == sz + n)
  {
    if n > 0 then (sz + n) % UINT else if sz + n <= 0 then sz else sz + n
  }

  /** The size down to which pages are dropped. */
  function SbrkKeeps(sz: nat, n: int): nat {
    if n < 0 && sz + n >= 0 then sz + n else sz
  }

  /** sbrk(-sz) drops every page, yet reports failure and keeps the size; no other shrink does. */
  lemma SbrkToZero(sz: nat, n: int)
    requires -0x8000_0000 <= n < 0 < sz < UINT
    ensures SbrkKeeps(sz, n) < SbrkSize(sz, n) <==> sz + n == 0
    ensures SbrkFails(sz, n) <==> sz + n == 0
  {
  }

  /**
   sys_sbrk.  Growth only changes sz (modulo 2^32); a shrink runs deallocuvm.  A shrink
   to size 0 reports failure and keeps sz, although the pages are gone; a shrink below 0
   wraps round and does nothing.
   */
  method Sbrk(m: Machine, pd: nat, sz: nat, n: int) returns (r: int, newsz: nat)
    requires m.Valid() && pd in m.dirs && m.dirs[pd] == 0 && sz <= KERNBASE && NoneAbove(m.mem, pd, sz)
    requires -0x8000_0000 <= n < 0x8000_0000
    modifies m`mem, m`freelist, m`free, m`own
    ensures m.Valid() && newsz == SbrkSize(sz, n)
    ensures r == sz || r == -1
    ensures r == -1 <==> SbrkFails(sz, n)
    ensures n >= 0 ==> r == sz
    ensures Released(old(m.own), m.own, pd, PageUp(SbrkKeeps(sz, n)), PageUp(sz))
    ensures Private(old(m.mem), old(m.own), m.dirs, m.mem, m.own, pd)
    ensures n > 0 ==> m.mem == old(m.mem) && m.own == old(m.own)
    ensures n > 0 && sz + n <= KERNBASE ==>
              newsz == sz + n && Meaning(m.mem, pd, newsz) == Meaning(old(m.mem), pd, r) + Zeros(PageUp(newsz) - PageUp(r))
    ensures n > 0 ==> sz < newsz && NoneAbove(m.mem, pd, newsz)
    ensures n <= 0 && r != -1 ==>
              Meaning(m.mem, pd, newsz) == Meaning(old(m.mem), pd, sz)[..PageUp(newsz)] && NoneAbove(m.mem, pd, newsz)
    ensures r == -1 ==> Meaning(m.mem, pd, newsz) == Zeros(PageUp(sz)) && NoneAbove(m.mem, pd, 0)
  {
    r, newsz := sz, sz;
    m.Seal();
    if n > 0 {
      newsz := (sz + n) % UINT;
      if sz + n <= KERNBASE {
        GrownMeaning(m.mem, pd, sz, newsz);
      }
    } else if n < 0 {
      r, newsz := Shrink(m, pd, sz, n);
    } else {
      ShrunkMeaning(m.mem, m.own, m.dirs, m.mem, m.own, pd, sz, sz);
    }
  }

  /** growproc for n < 0. */
  method Shrink(m: Machine, pd: nat, sz: nat, n: int) returns (r: int, newsz: nat)
    requires m.Valid() && pd in m.dirs && m.dirs[pd] == 0 && sz <= KERNBASE && NoneAbove(m.mem, pd, sz)
    requires -0x8000_0000 <= n < 0
    modifies m`mem, m`freelist, m`free, m`own
    ensures m.Valid() && newsz == SbrkSize(sz, n) && (r == sz || r == -1)
    ensures r == -1 <==> SbrkFails(sz, n)
    ensures Released(old(m.own), m.own, pd, PageUp(SbrkKeeps(sz, n)), PageUp(sz))
    ensures Private(old(m.mem), old(m.own), m.dirs, m.mem, m.own, pd)
    ensures r != -1 ==>
              Meaning(m.mem, pd, newsz) == Meaning(old(m.mem), pd, sz)[..PageUp(newsz)] && NoneAbove(m.mem, pd, newsz)
    ensures r == -1 ==> Meaning(m.mem, pd, newsz) == Zeros(PageUp(sz)) && NoneAbove(m.mem, pd, 0)
  {
    r, newsz := sz, sz;
    m.Seal();
    var want := (sz + n) % UINT;
    assert want == if sz + n >= 0 then sz + n else sz + n + UINT;
    var got := m.DeallocUvm(pd, sz, want);
    ghost var keeps := SbrkKeeps(sz, n);
    assert PageUp(keeps) <= PageUp(sz);
    assert want < sz ==> want == keeps;
    assert want >= sz ==> keeps == sz || keeps == want;
    ReleasedPrivate(old(m.mem), old(m.own), m.dirs, m.mem, m.own, pd, PageUp(keeps), PageUp(sz));
    ShrunkMeaning(old(m.mem), old(m.own), m.dirs, m.mem, m.own, pd, sz, keeps);
    ShrunkAbove(old(m.mem), m.mem, m.dirs, pd, sz, keeps);
    if got == 0 {
      r := -1;
      GrownMeaning(m.mem, pd, 0, sz);
    } else {
      newsz := got;
    }
  }

  lemma ShrunkAbove(mem: Memory, mem': Memory, dirs: Dirs, pd: nat, sz: nat, newsz: nat)
    requires pd in dirs && dirs[pd] == 0 && newsz <= sz <= KERNBASE && NoneAbove(mem, pd, sz)
    requires SameOutside(mem, mem', dirs, pd, PageUp(newsz), PageUp(sz))
    requires forall u :: PageUp(newsz) <= u < PageUp(sz) ==> Look(mem', pd, u) == ZERO
    ensures NoneAbove(mem', pd, newsz)
  {
  }

  // ---- The frames of a process ----

  /** fork took the kernel stack of process p and its directory from the free list. */
  ghost predicate Forked(own: Owners, own': Owners, p: nat, kstack: nat, d: nat) {
    && kstack in own && own[kstack] == Free && kstack != d
    && Built(own[kstack := Stack(p)], own', d) && own'[kstack] == Stack(p)
  }

  /**
   The memory side of fork: a kernel stack for child p and a copy of the address space in
   frames of its own, or no change of owners.  The parent and all others read what they read.
   */
  method ForkMemory(m: Machine, p: nat, pd: nat, sz: nat, rows: seq<Kmap>) returns (kstack: nat, d: nat)
    requires m.Valid() && p !in m.roots.stacks && pd in m.dirs && m.dirs[pd] == 0 && sz <= KERNBASE && RowsOk(rows)
    modifies m
    ensures m.Valid() && SameLook(old(m.mem), m.mem, old(m.dirs)) && SpacesKept(old(m.mem), m.mem, old(m.dirs), d)
    ensures DataKept(old(m.mem), old(m.own), m.mem, m.own)
    ensures d == 0 ==> m.own == old(m.own) && m.dirs == old(m.dirs) && m.roots == old(m.roots)
    ensures d != 0 ==> d !in old(m.dirs) && m.dirs == old(m.dirs)[d := 0] && Forked(old(m.own), m.own, p, kstack, d)
    ensures d != 0 ==> m.roots == old(m.roots).(stacks := old(m.roots).stacks[p := kstack])
    ensures d != 0 ==> Copied(m.mem, pd, d, PageUp(sz)) && NoneAbove(m.mem, d, sz)
    ensures d != 0 ==> Meaning(m.mem, d, sz) == Meaning(old(m.mem), pd, sz)
    ensures d != 0 <==> |old(m.free)| >= 2 + TablesFor(rows) + CopyNeed(old(m.mem), pd, PageUp(sz))
    ensures d != 0 ==> |m.free| == |old(m.free)| - 2 - TablesFor(rows) - CopyNeed(old(m.mem), pd, PageUp(sz))
  {
    m.Seal();
    d := 0;
    kstack := m.TakeStack(p);
    if kstack == 0 {
      OthersKept(old(m.mem), old(m.own), old(m.dirs), m.mem, m.own, d);
      return;
    }
    d := CopyUvm(m, pd, sz, rows);
    if d == 0 {
      ForkUndo(m, p, kstack, old(m.mem), old(m.own), old(m.dirs));
      assert m.roots == old(m.roots);
      kstack := 0;
    } else {
      CopiedMeaning(m.mem, pd, d, sz);
      ForkedKept(old(m.mem), old(m.own), old(m.dirs), m.mem, m.own, p, kstack, d);
      SameMeaning(old(m.mem), m.mem, old(m.dirs), d, pd, sz);
    }
  }

  /** fork without memory for the copy gives the stack back. */
  method ForkUndo(m: Machine, p: nat, kstack: nat, ghost mem0: Memory, ghost own0: Owners, ghost dirs0: Dirs)
    requires m.Valid() && p in m.roots.stacks && m.roots.stacks[p] == kstack && m.dirs == dirs0
    requires Sealed(mem0, own0, dirs0) && kstack in own0 && own0[kstack] == Free && m.own == own0[kstack := Stack(p)]
    requires DataKept(mem0, m.own, m.mem, m.own) && SameLook(mem0, m.mem, dirs0)
    modifies m
    ensures m.Valid() && m.own == own0 && m.dirs == dirs0 && m.roots == old(m.roots).(stacks := old(m.roots).stacks - {p})
    ensures DataKept(mem0, own0, m.mem, m.own) && SameLook(mem0, m.mem, dirs0) && SpacesKept(mem0, m.mem, dirs0, 0)
  {
    ghost var mem1, own1 := m.mem, m.own;
    m.FreeStack(p, kstack);
    assert m.own == own0;
    forall f
      ensures KeptAt(mem0, own0, m.mem, own0, f)
    {
      assert KeptAt(mem0, own1, mem1, own1, f);
    }
    OthersKept(mem0, own0, dirs0, m.mem, own0, 0);
  }

  lemma ForkedKept(mem: Memory, own: Owners, dirs: Dirs, mem': Memory, own': Owners, p: nat, kstack: nat, d: nat)
    requires Sealed(mem, own, dirs) && mem'.Keys == mem.Keys && Forked(own, own', p, kstack, d)
    requires DataKept(mem, own[kstack := Stack(p)], mem', own') && SameLook(mem, mem', dirs)
    ensures DataKept(mem, own, mem', own') && SpacesKept(mem, mem', dirs, d)
  {
    forall f
      ensures KeptAt(mem, own, mem', own', f)
    {
      assert KeptAt(mem, own[kstack := Stack(p)], mem', own', f);
    }
    OthersKept(mem, own, dirs, mem', own', d);
  }

  lemma SameMeaning(mem: Memory, mem': Memory, dirs: Dirs, pd: nat, p: nat, sz: nat)
    requires SpacesKept(mem, mem', dirs, pd) && p in dirs && dirs[p] == 0 && sz <= KERNBASE
    ensures p != pd ==> Meaning(mem', p, sz) == Meaning(mem, p, sz)
  {
  }

  lemma {:induction false} CopyNeedSame(mem: Memory, mem': Memory, pd: nat, n: nat)
    requires forall u :: 0 <= u < n ==> (Look(mem', pd, u).present <==> Look(mem, pd, u).present)
    ensures CopyNeed(mem', pd, n) == CopyNeed(mem, pd, n)
  {
    if n > 0 {
      CopyNeedSame(mem, mem', pd, n - 1);
      assert Used(mem', pd, (n - 1) / 1024, n - 1) <==> Used(mem, pd, (n - 1) / 1024, n - 1);
    }
  }

  lemma StillEmpty(mem: Memory, mem': Memory, dirs: Dirs, d: nat)
    requires d in dirs && dirs[d] == 0 && SameOutside(mem, mem', dirs, d, 0, 1)
    requires forall v :: 0 <= v < UPAGES ==> Look(mem, d, v) == ZERO
    ensures NoneAbove(mem', d, PGSIZE)
  {
  }

  /** inituvm: a page with the first program, at address 0 of an empty address space. */
  method InitUvm(m: Machine, d: nat, code: seq<Word>, ghost mem0: Memory, ghost own0: Owners, ghost dirs0: Dirs) returns (ok: bool)
    requires m.Valid() && m.dirs == dirs0[d := 0] && Growing(mem0, own0, dirs0, m.mem, m.own, d) && |code| == ENTRIES
    requires !Cell(m.mem, d, 0).present && forall v :: 0 <= v < UPAGES ==> Look(m.mem, d, v) == ZERO
    modifies m`mem, m`freelist, m`free, m`own
    ensures m.Valid() && (ok <==> |old(m.free)| >= 2)
    ensures ok ==> Growing(mem0, own0, dirs0, m.mem, m.own, d) && NoneAbove(m.mem, d, PGSIZE) && Contents(m.mem, d, 0) == code
  {
    ghost var mem1, own1 := m.mem, m.own;
    var f := NewFrame(m, code);
    if f == 0 {
      return false;
    }
    ghost var mem2, own2 := m.mem, m.own;
    assert Look(mem2, d, 0) == Look(mem1, d, 0);
    var r := m.MapPage(d, 0, f, PTE_W + PTE_U);
    ok := r.Mapped?;
    if ok {
      PagePlaced(mem1, own1, mem2, own2, m.mem, m.own, m.dirs, d, 0, f);
      GrowingMore(mem0, own0, dirs0, mem1, own1, m.mem, m.own, d, 0);
      StillEmpty(mem1, m.mem, m.dirs, d);
    }
  }

  /**
   The memory side of userinit.  It fails by a panic or, in inituvm, by using the address 0
   that kalloc returned; the state then does not matter.
   */
  method UserInit(m: Machine, p: nat, code: seq<Word>, rows: seq<Kmap>) returns (kstack: nat, d: nat)
    requires m.Valid() && p !in m.roots.stacks && RowsOk(rows) && |code| == ENTRIES
    modifies m
    ensures d != 0 <==> |old(m.free)| >= 4 + TablesFor(rows)
    ensures d != 0 ==> m.Valid() && SameLook(old(m.mem), m.mem, old(m.dirs)) && DataKept(old(m.mem), old(m.own), m.mem, m.own)
    ensures d != 0 ==> d !in old(m.dirs) && m.dirs == old(m.dirs)[d := 0] && Forked(old(m.own), m.own, p, kstack, d)
    ensures d != 0 ==> m.roots == old(m.roots).(stacks := old(m.roots).stacks[p := kstack])
    ensures d != 0 ==> NoneAbove(m.mem, d, PGSIZE) && Contents(m.mem, d, 0) == code
  {
    m.Seal();
    d := 0;
    kstack := m.TakeStack(p);
    if kstack == 0 {
      return;
    }
    ghost var own1 := m.own;
    d := m.SetupKvm(rows);
    if d == 0 {
      return;
    }
    NoUserRows(m.mem, d, rows);
    NoUserTables(m.mem, d, m.mem, d, rows);
    var ok := InitUvm(m, d, code, old(m.mem), own1, old(m.dirs));
    if !ok {
      d := 0;
      return;
    }
    GrowingFacts(old(m.mem), own1, old(m.dirs), m.mem, m.own, d);
    ForkedKept(old(m.mem), old(m.own), old(m.dirs), m.mem, m.own, p, kstack, d);
  }

  /**
   fork copies the guard page that exec made with clearpteu, but not p->guard_page.  A child
   whose slot says no guard page, and which touches that page while memory is free, makes
   mappages panic instead of being killed.
   */
  method ChildTouchesGuard(m: Machine, p: nat, pd: nat, sz: nat, guard: nat, rows: seq<Kmap>) returns (r: Fault)
    requires m.Valid() && p !in m.roots.stacks && pd in m.dirs && m.dirs[pd] == 0 && RowsOk(rows)
    requires sz <= KERNBASE && NoneAbove(m.mem, pd, sz) && guard == guard / PGSIZE * PGSIZE && 0 < guard < sz
    requires Look(m.mem, pd, guard / PGSIZE).present
    requires |m.free| > 2 + TablesFor(rows) + CopyNeed(m.mem, pd, PageUp(sz))
    modifies m
    ensures r.RemapPanic?
  {
    var v := guard / PGSIZE;
    var _ := m.ClearPteU(pd, v);
    forall u | 0 <= u < PageUp(sz)
      ensures Look(m.mem, pd, u).present <==> Look(old(m.mem), pd, u).present
    {
    }
    CopyNeedSame(old(m.mem), m.mem, pd, PageUp(sz));
    var kstack, d := ForkMemory(m, p, pd, sz, rows);
    assert CopyAt(m.mem, pd, d, v);
    r := PageFault(m, d, sz, 0, guard);
  }

  // ---- exec ----

  /** What allocuvm does to a directory under construction, whether it succeeds or not. */
  lemma GrowingAlloc(mem: Memory, own: Owners, dirs: Dirs, mem1: Memory, own1: Owners, mem2: Memory, own2: Owners, d: nat)
    requires Growing(mem, own, dirs, mem1, own1, d) && mem2.Keys == mem1.Keys
    requires OnlyTakes(own1, own2, d) && DataKept(mem1, own1, mem2, own2) && SameOutside(mem1, mem2, dirs[d := 0], d, 0, UPAGES)
    ensures Growing(mem, own, dirs, mem2, own2, d)
  {
    GrowingFacts(mem, own, dirs, mem1, own1, d);
    BuiltTakes(mem, own, mem1, own1, mem2, own2, d);
    forall p, u | p in dirs && dirs[p] * 1024 <= u < VPAGES
      ensures Look(mem2, p, u) == Look(mem, p, u)
    {
      assert p != d;
      assert Look(mem2, p, u) == Look(mem1, p, u);
    }
  }

  /** The frames of an image of n pages from address 0 on: one for each page, and one for the table of every 1024. */
  function ImageFrames(n: nat): nat {
    if n == 0 then 0 else ImageFrames(n - 1) + if n % 1024 == 1 then 2 else 1
  }

  lemma DividedBy(n: nat, q: nat, r: nat)
    requires n == 1024 * q + r && r < 1024
    ensures n / 1024 == q && n % 1024 == r
  {
  }

  lemma {:induction false} FramesAt(n: nat, q: nat, r: nat)
    requires n == 1024 * q + r && r < 1024
    ensures ImageFrames(n) == n + q + if r > 0 then 1 else 0
    decreases n
  {
    DividedBy(n, q, r);
    if r > 0 {
      FramesAt(n - 1, q, r - 1);
    } else if q > 0 {
      FramesAt(n - 1, q - 1, 1023);
    }
  }

  lemma FramesAre(n: nat)
    ensures ImageFrames(n) == n + (n + 1023) / 1024
  {
    var q, r := n / 1024, n % 1024;
    FramesAt(n, q, r);
    if r > 0 {
      DividedBy(n + 1023, q + 1, r - 1);
    } else {
      DividedBy(n + 1023, q, 1023);
    }
  }

  /** Directory d has exactly the user tables of its first n pages. */
  ghost predicate TablesUpTo(mem: Memory, d: nat, n: nat) {
    forall e :: 0 <= e < UPAGES / 1024 ==> (Cell(mem, d, e).present <==> e < (n + 1023) / 1024)
  }

  lemma {:induction false} AbsentExact(mem: Memory, d: nat, lo: nat, c: nat, hi: nat)
    requires lo <= c <= hi && forall e :: lo <= e < hi ==> (Cell(mem, d, e).present <==> e < c)
    ensures Absent(mem, d, lo, hi) == hi - c
    decreases hi
  {
    if lo < hi {
      if c == hi {
        AbsentExact(mem, d, lo, c - 1, hi - 1);
      } else {
        AbsentExact(mem, d, lo, c, hi - 1);
      }
    }
  }

  /** What growth of an image costs, and the tables after it. */
  lemma ImageMore(mem: Memory, mem': Memory, d: nat, lo: nat, hi: nat)
    requires TablesUpTo(mem, d, lo) && lo <= hi <= UPAGES
    ensures AllocNeed(mem, d, lo, hi) == ImageFrames(hi) - ImageFrames(lo)
    ensures Tabled(mem, mem', d, lo / 1024, EndEntry(lo, hi)) ==> TablesUpTo(mem', d, hi)
  {
    if lo < hi {
      var a, b, c := lo / 1024, EndEntry(lo, hi), (lo + 1023) / 1024;
      assert b == (hi + 1023) / 1024 && a <= c <= b <= UPAGES / 1024;
      AbsentExact(mem, d, a, c, b);
      FramesAre(lo);
      FramesAre(hi);
    }
  }

  /** A page that a process may use. */
  predicate Usable(w: Word) {
    w.present && Flag(w.perm, PTE_U)
  }

  /** Pages below n are usable; other user pages are absent; the kernel's are not usable. */
  ghost predicate UsableUpTo(mem: Memory, d: nat, n: nat) {
    && (forall u :: 0 <= u < n ==> Usable(Look(mem, d, u)))
    && (forall u :: n <= u < UPAGES ==> Look(mem, d, u) == ZERO)
    && (forall u :: UPAGES <= u < VPAGES ==> !Usable(Look(mem, d, u)))
  }

  /** Directory d under construction: usable pages exactly up to size sz below KERNBASE, and their tables. */
  ghost predicate Image(mem: Memory, d: nat, sz: nat) {
    forall z: nat {:trigger Unfold(z)} :: Unfold(z) ==>
      sz <= KERNBASE && UsableUpTo(mem, d, PageUp(sz)) && TablesUpTo(mem, d, PageUp(sz))
  }

  lemma ImageFacts(mem: Memory, d: nat, sz: nat)
    requires Image(mem, d, sz)
    ensures sz <= KERNBASE && UsableUpTo(mem, d, PageUp(sz)) && TablesUpTo(mem, d, PageUp(sz))
  {
    assert Unfold(0);
  }

  lemma PagesGrown(mem: Memory, mem': Memory, dirs: Dirs, d: nat, lo: nat, hi: nat)
    requires d in dirs && dirs[d] == 0 && UsableUpTo(mem, d, lo) && lo <= hi <= UPAGES
    requires ZeroFilled(mem', d, lo, hi) && SameOutside(mem, mem', dirs, d, lo, hi)
    ensures UsableUpTo(mem', d, hi)
  {
  }

  lemma ImageGrown(mem: Memory, mem': Memory, dirs: Dirs, d: nat, sz: nat, newsz: nat)
    requires d in dirs && dirs[d] == 0 && Image(mem, d, sz) && sz <= newsz < KERNBASE
    requires ZeroFilled(mem', d, PageUp(sz), PageUp(newsz)) && SameOutside(mem, mem', dirs, d, PageUp(sz), PageUp(newsz))
    requires Tabled(mem, mem', d, PageUp(sz) / 1024, EndEntry(PageUp(sz), PageUp(newsz)))
    ensures Image(mem', d, newsz)
  {
    ImageFacts(mem, d, sz);
    PagesGrown(mem, mem', dirs, d, PageUp(sz), PageUp(newsz));
    ImageMore(mem, mem', d, PageUp(sz), PageUp(newsz));
  }

  /** allocuvm's result as exec sees it: 0 is failure. */
  function Grown(sz: nat, newsz: nat): nat {
    if newsz < sz then sz else newsz
  }

  /** One allocuvm of exec, on the new directory d of size sz. */
  method GrowImage(m: Machine, d: nat, sz: nat, newsz: nat, ghost mem0: Memory, ghost own0: Owners, ghost dirs0: Dirs) returns (r: nat)
    requires m.Valid() && m.dirs == dirs0[d := 0] && Growing(mem0, own0, dirs0, m.mem, m.own, d) && Image(m.mem, d, sz)
    modifies m`mem, m`freelist, m`free, m`own
    ensures m.Valid() && Growing(mem0, own0, dirs0, m.mem, m.own, d)
    ensures var cost := ImageFrames(PageUp(Grown(sz, newsz))) - ImageFrames(PageUp(sz));
            && (r != 0 <==> Grown(sz, newsz) != 0 && newsz < KERNBASE && |old(m.free)| >= cost)
            && (r != 0 ==> |m.free| == |old(m.free)| - cost)
    ensures r != 0 ==> r == Grown(sz, newsz) && Image(m.mem, d, r)
    ensures r != 0 ==> forall u :: PageUp(sz) <= u < PageUp(r) ==> Look(m.mem, d, u).perm == PTE_W + PTE_U
  {
    ghost var mem1, own1 := m.mem, m.own;
    ImageFacts(mem1, d, sz);
    assert newsz < KERNBASE ==> forall u :: PageUp(sz) <= u < PageUp(newsz) ==> Look(m.mem, d, u) == ZERO;
    if sz <= newsz < KERNBASE {
      ImageMore(mem1, mem1, d, PageUp(sz), PageUp(newsz));
    }
    ghost var ok;
    r, ok := AllocUvm(m, d, sz, newsz);
    GrowingAlloc(mem0, own0, dirs0, mem1, own1, m.mem, m.own, d);
    if ok && sz <= newsz {
      ImageGrown(mem1, m.mem, m.dirs, d, sz, newsz);
    }
  }

  /** A loadable segment: vaddr + memsz, and whether its contents can be read and its address is aligned. */
  datatype Segment = Segment(end: nat, loads: bool)

  /** The size after the segments. */
  function ImageSize(segs: seq<Segment>): nat {
    if segs == [] then 0
    else Grown(ImageSize(segs[..|segs| - 1]), segs[|segs| - 1].end)
  }

  /** It is the largest end of a segment. */
  lemma {:induction false} ImageReaches(segs: seq<Segment>)
    ensures forall i :: 0 <= i < |segs| ==> segs[i].end <= ImageSize(segs)
    ensures ImageSize(segs) == 0 || exists i :: 0 <= i < |segs| && segs[i].end == ImageSize(segs)
    decreases |segs|
  {
    if segs != [] {
      var rest := segs[..|segs| - 1];
      ImageReaches(rest);
      if i :| 0 <= i < |rest| && rest[i].end == ImageSize(rest) {
        assert segs[i] == rest[i];
      }
    }
  }

  /** Nothing in the segments themselves makes exec give up. */
  predicate Loadable(segs: seq<Segment>) {
    && (forall i :: 0 <= i < |segs| ==> segs[i].loads && segs[i].end < KERNBASE)
    && (segs != [] ==> segs[0].end > 0)
  }

  lemma {:induction false} SizesGrow(segs: seq<Segment>, i: nat)
    requires i <= |segs|
    ensures ImageSize(segs[..i]) <= ImageSize(segs)
    ensures i > 0 && segs[0].end > 0 ==> ImageSize(segs[..i]) > 0
    decreases |segs|
  {
    if i < |segs| {
      var front := segs[..|segs| - 1];
      SizesGrow(front, i);
      assert front[..i] == segs[..i];
    } else if i > 1 {
      SizesGrow(segs[..i - 1], i - 1);
      assert segs[..i] == segs && segs[..i - 1][..i - 1] == segs[..i - 1];
    } else {
      assert segs[..i] == segs;
    }
  }

  lemma FramesGrow(m: nat, n: nat)
    requires m <= n
    ensures ImageFrames(m) <= ImageFrames(n)
  {
    FramesAre(m);
    FramesAre(n);
  }

  /** Segment i in turn: what the sizes before and after it have to do with the whole. */
  lemma SegmentNext(segs: seq<Segment>, i: nat)
    requires i < |segs|
    ensures ImageSize(segs[..i + 1]) == Grown(ImageSize(segs[..i]), segs[i].end)
    ensures ImageFrames(PageUp(ImageSize(segs[..i]))) <= ImageFrames(PageUp(ImageSize(segs[..i + 1]))) <= ImageFrames(PageUp(ImageSize(segs)))
    ensures Loadable(segs) ==> ImageSize(segs[..i + 1]) > 0
    ensures ImageSize(segs[..i + 1]) == 0 ==> !Loadable(segs)
  {
    assert segs[..i + 1][..i] == segs[..i];
    SizesGrow(segs, i + 1);
    FramesGrow(PageUp(ImageSize(segs[..i])), PageUp(ImageSize(segs[..i + 1])));
    FramesGrow(PageUp(ImageSize(segs[..i + 1])), PageUp(ImageSize(segs)));
  }

  /** exec's loop over the program headers. */
  method LoadSegments(m: Machine, d: nat, segs: seq<Segment>, ghost mem0: Memory, ghost own0: Owners, ghost dirs0: Dirs)
    returns (ok: bool, sz: nat)
    requires m.Valid() && m.dirs == dirs0[d := 0] && Growing(mem0, own0, dirs0, m.mem, m.own, d) && Image(m.mem, d, 0)
    modifies m`mem, m`freelist, m`free, m`own
    ensures m.Valid() && Growing(mem0, own0, dirs0, m.mem, m.own, d)
    ensures ok <==> Loadable(segs) && |old(m.free)| >= ImageFrames(PageUp(ImageSize(segs)))
    ensures ok ==> sz == ImageSize(segs) && Image(m.mem, d, sz) && |m.free| == |old(m.free)| - ImageFrames(PageUp(sz))
  {
    sz := 0;
    var i := 0;
    while i < |segs|
      invariant 0 <= i <= |segs| && m.Valid() && Growing(mem0, own0, dirs0, m.mem, m.own, d)
      invariant sz == ImageSize(segs[..i]) && Image(m.mem, d, sz) && (i > 0 ==> segs[0].end > 0)
      invariant |m.free| == |old(m.free)| - ImageFrames(PageUp(sz))
      invariant forall j :: 0 <= j < i ==> segs[j].loads && segs[j].end < KERNBASE
    {
      SegmentNext(segs, i);
      sz := GrowImage(m, d, sz, segs[i].end, mem0, own0, dirs0);
      if sz == 0 || !segs[i].loads {
        return false, 0;
      }
      i := i + 1;
    }
    assert segs[..i] == segs;
    ok := true;
  }

  /** A new image with a guard page and a stack page on top. */
  ghost predicate WithStack(mem: Memory, d: nat, top: nat) {
    && top == top / PGSIZE * PGSIZE && 2 * PGSIZE <= top <= KERNBASE && NoneAbove(mem, d, top)
    && (forall u :: 0 <= u < top / PGSIZE && u != top / PGSIZE - 2 ==> Usable(Look(mem, d, u)))
    && Look(mem, d, top / PGSIZE - 2).present && Look(mem, d, top / PGSIZE - 2).perm == PTE_W
    && (forall u :: UPAGES <= u < VPAGES ==> !Usable(Look(mem, d, u)))
  }

  /** PGROUNDUP leaves the image as it is. */
  lemma ImageRounded(mem: Memory, d: nat, sz: nat)
    requires Image(mem, d, sz)
    ensures Image(mem, d, PageUp(sz) * PGSIZE)
  {
    ImageFacts(mem, d, sz);
  }

  lemma StackAdded(mem: Memory, mem': Memory, dirs: Dirs, d: nat, n: nat)
    requires d in dirs && dirs[d] == 0 && Image(mem, d, (n + 2) * PGSIZE)
    requires Look(mem, d, n).perm == PTE_W + PTE_U && Look(mem', d, n) == NotUser(Look(mem, d, n))
    requires SameOutside(mem, mem', dirs, d, n, n + 1)
    ensures WithStack(mem', d, (n + 2) * PGSIZE)
  {
    ImageFacts(mem, d, (n + 2) * PGSIZE);
    assert PageUp((n + 2) * PGSIZE) == (n + 2) * PGSIZE / PGSIZE == n + 2;
  }

  /** The guard page and the stack above the n pages of the image; 0 is failure. */
  method AddStackPages(m: Machine, d: nat, n: nat, ghost mem0: Memory, ghost own0: Owners, ghost dirs0: Dirs) returns (sz: nat)
    requires m.Valid() && m.dirs == dirs0[d := 0] && Growing(mem0, own0, dirs0, m.mem, m.own, d) && Image(m.mem, d, n * PGSIZE)
    modifies m`mem, m`freelist, m`free, m`own
    ensures m.Valid() && Growing(mem0, own0, dirs0, m.mem, m.own, d)
    ensures sz != 0 <==> (n + 2) * PGSIZE < KERNBASE && |old(m.free)| >= ImageFrames(n + 2) - ImageFrames(n)
    ensures sz != 0 ==> sz == (n + 2) * PGSIZE && WithStack(m.mem, d, sz)
  {
    assert PageUp(n * PGSIZE) == n && PageUp((n + 2) * PGSIZE) == n + 2;
    sz := GrowImage(m, d, n * PGSIZE, (n + 2) * PGSIZE, mem0, own0, dirs0);
    if sz != 0 {
      ghost var mem1, own1 := m.mem, m.own;
      var _ := m.ClearPteU(d, n);
      GrowingAlloc(mem0, own0, dirs0, mem1, own1, m.mem, m.own, d);
      StackAdded(mem1, m.mem, m.dirs, d, n);
    }
  }

  // ---- The arguments of exec ----

  /** copyout's loop with left bytes to go, at address a of page p. */
  predicate Copying(va: nat, len: nat, a: nat, left: nat, p: nat) {
    && left <= len && a < UINT && va / PGSIZE <= p
    && (left == len ==> a == va && p == va / PGSIZE)
    && (left < len ==> a == p % VPAGES * PGSIZE)
    && (0 < left < len ==> p * PGSIZE + left == va + len)
    && (left == 0 < len ==> p == (va + len - 1) / PGSIZE + 1)
  }

  /** The address after a page, in 32 bits. */
  lemma PageAfter(a: nat, p: nat)
    requires a < UINT && a / PGSIZE == p % VPAGES
    ensures (a / PGSIZE + 1) * PGSIZE % UINT == (p + 1) % VPAGES * PGSIZE
  {
    if a / PGSIZE + 1 == VPAGES {
      assert (p + 1) % VPAGES == 0;
    } else {
      assert (p + 1) % VPAGES == a / PGSIZE + 1;
    }
  }

  lemma CopyStep(va: nat, len: nat, a: nat, left: nat, p: nat)
    requires Copying(va, len, a, left, p) && va < UINT && 0 < left
    ensures va + len <= UINT ==> a / PGSIZE == p <= (va + len - 1) / PGSIZE
    ensures left == len ==> a / PGSIZE == va / PGSIZE
    ensures var n := PGSIZE - a % PGSIZE;
            Copying(va, len, (a / PGSIZE + 1) * PGSIZE % UINT, if n > left then 0 else left - n, p + 1)
  {
    assert a / PGSIZE == p % VPAGES;
    PageAfter(a, p);
  }

  /** copyout, as far as it can fail: every page of the range must be usable. */
  method CopyOut(m: Machine, pd: nat, va: nat, len: nat) returns (ok: bool)
    requires m.Valid() && pd in m.dirs && m.dirs[pd] == 0 && va < UINT
    modifies m`mem, m`freelist, m`free, m`own
    ensures m.Valid() && m.mem == old(m.mem) && m.own == old(m.own) && m.free == old(m.free)
    ensures 0 < len && va + len <= UINT ==>
              (ok <==> forall u :: va / PGSIZE <= u <= (va + len - 1) / PGSIZE ==> Usable(Look(m.mem, pd, u)))
    ensures 0 < len && !Usable(Look(m.mem, pd, va / PGSIZE)) ==> !ok
  {
    var a: nat, left: nat := va, len;
    ghost var p: nat := va / PGSIZE;
    while left > 0
      invariant m.Valid() && m.mem == old(m.mem) && m.own == old(m.own) && m.free == old(m.free)
      invariant Copying(va, len, a, left, p)
      invariant left < len ==> Usable(Look(m.mem, pd, va / PGSIZE))
      invariant va + len <= UINT ==> forall u :: va / PGSIZE <= u < p ==> Usable(Look(m.mem, pd, u))
    {
      CopyStep(va, len, a, left, p);
      ok := CheckPage(m, pd, a / PGSIZE);
      if !ok {
        return;
      }
      var n := PGSIZE - a % PGSIZE;
      if n > left {
        n := left;
      }
      left := left - n;
      a := (a / PGSIZE + 1) * PGSIZE % UINT;
      p := p + 1;
    }
    ok := true;
  }

  /** uva2ka: whether the page is there for the user. */
  method CheckPage(m: Machine, pd: nat, u: nat) returns (ok: bool)
    requires m.Valid() && pd in m.dirs && m.dirs[pd] == 0 && u < VPAGES
    modifies m`mem, m`freelist, m`free, m`own
    ensures m.Valid() && m.mem == old(m.mem) && m.own == old(m.own) && m.free == old(m.free)
    ensures ok <==> Usable(Look(m.mem, pd, u))
  {
    var t := m.WalkPgdir(pd, u, false);
    if t == 0 {
      return false;
    }
    var w := m.mem[t][u % 1024];
    assert Look(m.mem, pd, u) == if w.present then w else ZERO;
    return Usable(w);
  }

  /** sp below a string of len characters and its 0, as a multiple of 4. */
  function Pushed(sp: int, len: nat): (r: int)
    ensures r % 4 == 0 && r + len + 1 <= sp < r + len + 5
  {
    (sp - len - 1) / 4 * 4
  }

  /** The stack pointer after the strings, before it is cut to 32 bits. */
  function Sp(top: nat, lens: seq<nat>): int {
    if lens == [] then top else Pushed(Sp(top, lens[..|lens| - 1]), lens[|lens| - 1])
  }

  /** The strings and the argv array fit into the stack page. */
  predicate ArgsFit(top: nat, lens: seq<nat>) {
    |lens| <= MAXARG && Sp(top, lens) - 4 * (|lens| + 4) >= top - PGSIZE
  }

  lemma {:induction false} SpFalls(top: nat, lens: seq<nat>, i: nat)
    requires i <= |lens|
    ensures Sp(top, lens) <= Sp(top, lens[..i])
    decreases |lens|
  {
    if i < |lens| {
      SpFalls(top, lens[..|lens| - 1], i);
      assert lens[..|lens| - 1][..i] == lens[..i];
    } else {
      assert lens[..i] == lens;
    }
  }

  /** copyout of n bytes that end at most 3 bytes below sp succeeds exactly if they start in the stack page. */
  lemma PushFits(mem: Memory, d: nat, top: nat, sp: int, next: int, n: nat)
    requires WithStack(mem, d, top) && top - PGSIZE <= sp <= top && 0 < n <= KERNBASE && sp - 3 <= next + n <= sp
    ensures var va := next % UINT;
            if va + n <= UINT
            then next >= top - PGSIZE <==> forall u :: va / PGSIZE <= u <= (va + n - 1) / PGSIZE ==> Usable(Look(mem, d, u))
            else next < top - PGSIZE && !Usable(Look(mem, d, va / PGSIZE))
  {
    var va := next % UINT;
    if next >= 0 {
      assert va == next;
      var g := top / PGSIZE - 2;
      if next < top - PGSIZE {
        assert !Usable(Look(mem, d, g));
        assert va / PGSIZE <= g <= (va + n - 1) / PGSIZE;
      } else {
        assert va / PGSIZE == (va + n - 1) / PGSIZE == g + 1;
      }
    } else {
      assert va == next + UINT;
      assert UPAGES <= va / PGSIZE < VPAGES;
    }
  }

  /** One round of exec's argument loop: a string of len characters and its 0. */
  method PushString(m: Machine, d: nat, top: nat, sp: nat, len: nat) returns (ok: bool, sp': nat)
    requires m.Valid() && d in m.dirs && m.dirs[d] == 0 && WithStack(m.mem, d, top)
    requires len < KERNBASE && top - PGSIZE <= sp <= top
    modifies m`mem, m`freelist, m`free, m`own
    ensures m.Valid() && m.mem == old(m.mem) && m.own == old(m.own) && m.free == old(m.free)
    ensures ok <==> Pushed(sp, len) >= top - PGSIZE
    ensures ok ==> sp' == Pushed(sp, len)
  {
    sp' := Pushed(sp, len) % UINT;
    PushFits(m.mem, d, top, sp, Pushed(sp, len), len + 1);
    ok := CopyOut(m, d, sp', len + 1);
  }

  /** The return address, argc, argv and the argc + 1 pointers. */
  method PushVector(m: Machine, d: nat, top: nat, sp: nat, argc: nat) returns (ok: bool)
    requires m.Valid() && d in m.dirs && m.dirs[d] == 0 && WithStack(m.mem, d, top)
    requires argc <= MAXARG && top - PGSIZE <= sp <= top
    modifies m`mem, m`freelist, m`free, m`own
    ensures m.Valid() && m.mem == old(m.mem) && m.own == old(m.own) && m.free == old(m.free)
    ensures ok <==> sp - 4 * (argc + 4) >= top - PGSIZE
  {
    PushFits(m.mem, d, top, sp, sp - 4 * (argc + 4), 4 * (argc + 4));
    ok := CopyOut(m, d, (sp - 4 * (argc + 4)) % UINT, 4 * (argc + 4));
  }

  /** exec's loop that pushes the argument strings, and then the array of pointers. */
  method PushArgs(m: Machine, d: nat, top: nat, lens: seq<nat>) returns (ok: bool)
    requires m.Valid() && d in m.dirs && m.dirs[d] == 0 && WithStack(m.mem, d, top)
    requires forall i :: 0 <= i < |lens| ==> lens[i] < KERNBASE
    modifies m`mem, m`freelist, m`free, m`own
    ensures m.Valid() && m.mem == old(m.mem) && m.own == old(m.own) && m.free == old(m.free)
    ensures ok <==> ArgsFit(top, lens)
  {
    var argc, sp := 0, top;
    while argc < |lens|
      invariant 0 <= argc <= |lens| && argc <= MAXARG && sp == Sp(top, lens[..argc]) && top - PGSIZE <= sp <= top
      invariant m.Valid() && m.mem == old(m.mem) && m.own == old(m.own) && m.free == old(m.free)
    {
      if argc >= MAXARG {
        return false;
      }
      assert lens[..argc + 1][..argc] == lens[..argc];
      SpFalls(top, lens, argc + 1);
      ok, sp := PushString(m, d, top, sp, lens[argc]);
      if !ok {
        return;
      }
      argc := argc + 1;
    }
    assert lens[..argc] == lens;
    ok := PushVector(m, d, top, sp, argc);
  }

  // ---- exec as a whole ----

  /** PGROUNDUP of the size after the segments: where the guard page goes. */
  function GuardOf(segs: seq<Segment>): nat {
    PageUp(ImageSize(segs)) * PGSIZE
  }

  /** The size with the guard page and the stack page. */
  function TopOf(segs: seq<Segment>): nat {
    (PageUp(ImageSize(segs)) + 2) * PGSIZE
  }

  /** exec gets as far as setting p->guard_page, with `spare` frames left after setupkvm. */
  predicate Loads(spare: int, segs: seq<Segment>) {
    Loadable(segs) && spare >= ImageFrames(PageUp(ImageSize(segs)))
  }

  /** exec succeeds, with `spare` frames left after setupkvm. */
  predicate Succeeds(spare: int, segs: seq<Segment>, args: seq<nat>) {
    && Loadable(segs) && TopOf(segs) < KERNBASE
    && spare >= ImageFrames(PageUp(ImageSize(segs)) + 2)
    && ArgsFit(TopOf(segs), args)
  }

  /** Rows without PTE_U, as those of kmap. */
  predicate KernelOnly(rows: seq<Kmap>) {
    forall i :: 0 <= i < |rows| ==> !Flag(rows[i].perm, PTE_U)
  }

  lemma {:induction false} KernelOnlyMap(rows: seq<Kmap>, u: nat)
    requires KernelOnly(rows)
    ensures !Usable(RowsMap(rows, u))
    decreases |rows|
  {
    if rows != [] {
      KernelOnlyMap(rows[..|rows| - 1], u);
    }
  }

  /** setupkvm's directory is an image of size 0. */
  lemma EmptyImage(mem: Memory, d: nat, rows: seq<Kmap>)
    requires RowsOk(rows) && KernelOnly(rows) && forall u :: 0 <= u < VPAGES ==> Look(mem, d, u) == RowsMap(rows, u)
    requires forall e :: 0 <= e < ENTRIES ==> (Cell(mem, d, e).present <==> Spanned(rows, e))
    ensures Image(mem, d, 0)
  {
    NoUserRows(mem, d, rows);
    NoUserTables(mem, d, mem, d, rows);
    forall u | UPAGES <= u < VPAGES
      ensures !Usable(Look(mem, d, u))
    {
      KernelOnlyMap(rows, u);
    }
  }

  /** The segments, the stack and the arguments, in a directory that setupkvm has made. */
  method FillImage(m: Machine, d: nat, segs: seq<Segment>, args: seq<nat>, guard: nat,
                   ghost mem0: Memory, ghost own0: Owners, ghost dirs0: Dirs) returns (ok: bool, sz: nat, guard': nat)
    requires m.Valid() && m.dirs == dirs0[d := 0] && Growing(mem0, own0, dirs0, m.mem, m.own, d) && Image(m.mem, d, 0)
    requires forall i :: 0 <= i < |args| ==> args[i] < KERNBASE
    modifies m`mem, m`freelist, m`free, m`own
    ensures m.Valid() && Growing(mem0, own0, dirs0, m.mem, m.own, d)
    ensures guard' == if Loads(|old(m.free)|, segs) then GuardOf(segs) else guard
    ensures ok <==> Succeeds(|old(m.free)|, segs, args)
    ensures ok ==> sz == TopOf(segs) && WithStack(m.mem, d, sz)
  {
    FramesGrow(PageUp(ImageSize(segs)), PageUp(ImageSize(segs)) + 2);
    guard' := guard;
    ok, sz := LoadSegments(m, d, segs, mem0, own0, dirs0);
    if !ok {
      return;
    }
    ImageRounded(m.mem, d, sz);
    guard' := PageUp(sz) * PGSIZE;
    sz := AddStackPages(m, d, PageUp(sz), mem0, own0, dirs0);
    if sz == 0 {
      return false, 0, guard';
    }
    assert sz == TopOf(segs);
    ok := PushArgs(m, d, sz, args);
  }

  /** exec up to its commit: a new address space, or nothing at all; guard_page is set once the segments are in. */
  method BuildImage(m: Machine, segs: seq<Segment>, args: seq<nat>, guard: nat, rows: seq<Kmap>) returns (d: nat, sz: nat, guard': nat)
    requires m.Valid() && RowsOk(rows) && KernelOnly(rows) && forall i :: 0 <= i < |args| ==> args[i] < KERNBASE
    modifies m
    ensures m.Valid() && m.roots == old(m.roots) && SameLook(old(m.mem), m.mem, old(m.dirs))
    ensures DataKept(old(m.mem), old(m.own), m.mem, m.own)
    ensures guard' == if Loads(|old(m.free)| - 1 - TablesFor(rows), segs) then GuardOf(segs) else guard
    ensures d != 0 <==> Succeeds(|old(m.free)| - 1 - TablesFor(rows), segs, args)
    ensures d == 0 ==> m.own == old(m.own) && m.dirs == old(m.dirs)
    ensures d != 0 ==> d !in old(m.dirs) && m.dirs == old(m.dirs)[d := 0] && Built(old(m.own), m.own, d)
    ensures d != 0 ==> sz == TopOf(segs) && WithStack(m.mem, d, sz)
  {
    m.Seal();
    FramesGrow(PageUp(ImageSize(segs)), PageUp(ImageSize(segs)) + 2);
    guard', sz := guard, 0;
    d := m.SetupKvm(rows);
    if d == 0 {
      return;
    }
    EmptyImage(m.mem, d, rows);
    var ok;
    ok, sz, guard' := FillImage(m, d, segs, args, guard, old(m.mem), old(m.own), old(m.dirs));
    GrowingFacts(old(m.mem), old(m.own), old(m.dirs), m.mem, m.own, d);
    if !ok {
      m.DropSpace(d, true, old(m.mem), old(m.own), old(m.dirs));
      d := 0;
    }
  }

  /** Directory d, from the free list, replaced directory pd, all of whose frames are free. */
  ghost predicate Replaced(own: Owners, own': Owners, pd: nat, d: nat) {
    && own'.Keys == own.Keys && d in own && own[d] == Free && own'[d] == Dir
    && (forall f :: f in own && (f == pd || Of(own[f], pd)) ==> own'[f] == Free)
    && (forall f :: f in own && f != pd && !Of(own[f], pd) && f != d && own'[f] != own[f] ==> own[f] == Free && Of(own'[f], d))
  }

  /**
   exec: the process has the new address space and the old one's frames are free; or no frame and no
   page changed.  p->guard_page is the new one exactly if the segments could be loaded, even if the
   stack or the arguments then make exec fail.
   */
  method ExecMemory(m: Machine, pd: nat, segs: seq<Segment>, args: seq<nat>, guard: nat, rows: seq<Kmap>)
    returns (d: nat, sz: nat, guard': nat)
    requires m.Valid() && pd in m.dirs && m.dirs[pd] == 0 && RowsOk(rows) && KernelOnly(rows)
    requires forall i :: 0 <= i < |args| ==> args[i] < KERNBASE
    modifies m
    ensures m.Valid() && m.roots == old(m.roots)
    ensures DataKept(old(m.mem), old(m.own), m.mem, m.own)
    ensures guard' == if Loads(|old(m.free)| - 1 - TablesFor(rows), segs) then GuardOf(segs) else guard
    ensures d != 0 <==> Succeeds(|old(m.free)| - 1 - TablesFor(rows), segs, args)
    ensures d == 0 ==> m.own == old(m.own) && m.dirs == old(m.dirs) && SameLook(old(m.mem), m.mem, old(m.dirs))
    ensures d != 0 ==> d !in old(m.dirs) && m.dirs == old(m.dirs)[d := 0] - {pd} && Replaced(old(m.own), m.own, pd, d)
    ensures d != 0 ==> SameLook(old(m.mem), m.mem, old(m.dirs) - {pd})
    ensures d != 0 ==> sz == TopOf(segs) && WithStack(m.mem, d, sz)
  {
    m.Open();
    assert DirAt(m.own, pd);
    d, sz, guard' := BuildImage(m, segs, args, guard, rows);
    if d != 0 {
      ghost var mem1, own1 := m.mem, m.own;
      m.FreeVm(pd, true);
      Swapped(old(m.mem), old(m.own), old(m.dirs), mem1, own1, m.mem, m.own, pd, d);
      StillImage(mem1, m.mem, m.dirs, d, sz);
    }
  }

  lemma Swapped(mem: Memory, own: Owners, dirs: Dirs, mem1: Memory, own1: Owners, mem2: Memory, own2: Owners, pd: nat, d: nat)
    requires mem.Keys == mem1.Keys == own.Keys && pd in own && own[pd] == Dir && d !in dirs
    requires Built(own, own1, d) && DataKept(mem, own, mem1, own1) && SameLook(mem, mem1, dirs)
    requires TornDown(own1, own2, pd) && DataKept(mem1, own1, mem2, own2) && SameLook(mem1, mem2, dirs[d := 0] - {pd})
    ensures Replaced(own, own2, pd, d) && DataKept(mem, own, mem2, own2) && SameLook(mem, mem2, dirs - {pd})
  {
    KeptTrans(mem, own, mem1, own1, mem2, own2);
    forall p, u | p in dirs - {pd} && dirs[p] * 1024 <= u < VPAGES
      ensures Look(mem2, p, u) == Look(mem, p, u)
    {
      assert p in dirs[d := 0] - {pd} && (dirs[d := 0] - {pd})[p] == dirs[p];
      assert Look(mem1, p, u) == Look(mem, p, u);
    }
  }

  lemma StillImage(mem: Memory, mem': Memory, dirs: Dirs, d: nat, sz: nat)
    requires WithStack(mem, d, sz) && SameLook(mem, mem', dirs) && d in dirs && dirs[d] == 0
    ensures WithStack(mem', d, sz)
  {
  }

  /**
   One page of program and one argument of 4096 characters, which does not fit into the stack page: exec
   fails, and the caller's guard page is recorded no more.  If the caller, which goes on with its old
   program, then touches its guard page, mappages panics.
   */
  method FailedExecMovesGuard(m: Machine, pd: nat, sz: nat, guard: nat, rows: seq<Kmap>) returns (d: nat, guard': nat, r: Fault)
    requires m.Valid() && pd in m.dirs && m.dirs[pd] == 0 && RowsOk(rows) && KernelOnly(rows)
    requires sz <= KERNBASE && NoneAbove(m.mem, pd, sz) && guard == guard / PGSIZE * PGSIZE && PGSIZE < guard < sz
    requires Look(m.mem, pd, guard / PGSIZE).present && |m.free| >= 3 + TablesFor(rows)
    modifies m
    ensures d == 0 && guard' == PGSIZE != guard && r.RemapPanic?
  {
    var segs, args := [Segment(4096, true)], [4096];
    assert segs[..0] == [] && ImageSize(segs[..0]) == 0 && ImageSize(segs) == 4096;
    assert args[..0] == [] && Sp(12288, args[..0]) == 12288;
    assert !ArgsFit(12288, args);
    m.Open();
    ghost var f := m.free[0];
    assert f in m.free;
    var top;
    d, top, guard' := ExecMemory(m, pd, segs, args, guard, rows);
    m.Open();
    assert f in m.free;
    r := PageFault(m, pd, sz, guard', guard);
  }

  /** exit drops the user part of its directory. */
  method ExitMemory(m: Machine, pd: nat)
    requires m.Valid() && pd in m.dirs && m.dirs[pd] == 0
    modifies m`mem, m`freelist, m`free, m`own
    ensures m.Valid() && Released(old(m.own), m.own, pd, 0, UPAGES) && NoneAbove(m.mem, pd, 0)
    ensures Private(old(m.mem), old(m.own), m.dirs, m.mem, m.own, pd)
  {
    m.Seal();
    var _ := m.DeallocUvm(pd, KERNBASE, 0);
    ReleasedPrivate(old(m.mem), old(m.own), m.dirs, m.mem, m.own, pd, 0, UPAGES);
  }

  /** wait frees the stack, the tables and the directory of zombie p. */
  method WaitMemory(m: Machine, p: nat, pd: nat, kstack: nat)
    requires m.Valid() && pd in m.dirs && m.dirs[pd] == 0 && NoneAbove(m.mem, pd, 0)
    requires p in m.roots.stacks && m.roots.stacks[p] == kstack
    modifies m
    ensures m.Valid() && m.dirs == old(m.dirs) - {pd} && SameLook(old(m.mem), m.mem, m.dirs)
    ensures m.roots == old(m.roots).(stacks := old(m.roots).stacks - {p})
    ensures kstack in old(m.own) && old(m.own)[kstack] == Stack(p) && TornDown(old(m.own)[kstack := Free], m.own, pd)
    ensures DataKept(old(m.mem), old(m.own), m.mem, m.own) && SpacesKept(old(m.mem), m.mem, m.dirs, pd)
  {
    m.Seal();
    m.FreeStack(p, kstack);
    ghost var mem1, own1 := m.mem, m.own;
    assert forall v :: 0 <= v < UPAGES ==> Look(mem1, pd, v) == Look(old(m.mem), pd, v);
    m.FreeVm(pd, false);
    OthersLeft(old(m.mem), old(m.own), old(m.dirs), mem1, own1, m.mem, m.own, m.dirs, pd, kstack);
  }

  /** The rest of the machine when a stack and directory pd are torn down. */
  lemma OthersLeft(mem: Memory, own: Owners, dirs: Dirs, mem1: Memory, own1: Owners, mem2: Memory, own2: Owners, dirs2: Dirs,
                   pd: nat, kstack: nat)
    requires Sealed(mem, own, dirs) && mem.Keys == mem1.Keys == mem2.Keys && pd in dirs && dirs2 == dirs - {pd}
    requires kstack in own && IsRoot(own[kstack]) && own1 == own[kstack := Free] && TornDown(own1, own2, pd)
    requires (forall g :: g in mem && g != kstack ==> mem1[g] == mem[g]) && DataKept(mem1, own1, mem2, own2)
    requires SameLook(mem, mem1, dirs) && SameLook(mem1, mem2, dirs2)
    ensures SameLook(mem, mem2, dirs2) && DataKept(mem, own, mem2, own2) && SpacesKept(mem, mem2, dirs2, pd)
  {
    KeptTrans(mem, own, mem1, own1, mem2, own2);
    forall p, u | p in dirs2 && dirs2[p] * 1024 <= u < VPAGES
      ensures Look(mem2, p, u) == Look(mem, p, u)
    {
      assert Look(mem1, p, u) == Look(mem, p, u);
    }
    Unsealed(mem, own, dirs);
    assert DirAt(own, pd);
    LeftKept(mem, own, dirs, mem2, own2, pd);
  }

  lemma LeftKept(mem: Memory, own: Owners, dirs: Dirs, mem': Memory, own': Owners, pd: nat)
    requires Sealed(mem, own, dirs) && own'.Keys == own.Keys && mem'.Keys == mem.Keys && DataKept(mem, own, mem', own')
    requires SameLook(mem, mem', dirs - {pd})
    requires forall f :: f in own && own[f].User? && own[f].pd != pd ==> own'[f] == own[f]
    ensures SpacesKept(mem, mem', dirs - {pd}, pd)
  {
    forall p, v | p in dirs - {pd} && dirs[p] == 0 && 0 <= v < UPAGES
      ensures Look(mem', p, v) == Look(mem, p, v) && Contents(mem', p, v) == Contents(mem, p, v)
    {
      assert p != pd;
      ContentsKept(mem, own, dirs, mem', own', p, v);
    }
  }
}
