/**
 kalloc.c and vm.c: the free list threaded through the free frames, and the functions that
 build, change, copy and tear down page tables, as methods over physical memory.
 */
module Vm {
  import opened Paging
  import opened Params

  const JUNK := Word(0x1010, true, 0x100) // kfree's fill, 0x01010101
  const KERNBASE: nat := UPAGES * PGSIZE

  // ---- The free list ----

  ghost predicate NextAt(mem: Memory, free: seq<nat>, i: nat)
    requires i < |free|
  {
    free[i] in mem && Cell(mem, free[i], 0).frame == if i + 1 < |free| then free[i + 1] else 0
  }

  /** The free frames, each once, linked through their first words. */
  ghost predicate FreeList(mem: Memory, own: Owners, head: nat, free: seq<nat>) {
    && head == (if free == [] then 0 else free[0])
    && (forall i, j :: 0 <= i < j < |free| ==> free[i] != free[j])
    && (forall i {:trigger NextAt(mem, free, i)} :: 0 <= i < |free| ==> NextAt(mem, free, i))
    && (forall f {:trigger f in free} :: f in free <==> f in own && own[f] == Free)
  }

  lemma FreeListKept(mem: Memory, own: Owners, head: nat, free: seq<nat>, mem': Memory, own': Owners)
    requires FreeList(mem, own, head, free) && own'.Keys == own.Keys && mem'.Keys == mem.Keys
    requires forall f :: f in own ==> (own[f] == Free <==> own'[f] == Free)
    requires forall f :: f in own && own[f] == Free ==> f in mem && mem'[f] == mem[f]
    ensures FreeList(mem', own', head, free)
  {
    forall i | 0 <= i < |free|
      ensures NextAt(mem', free, i)
    {
      assert NextAt(mem, free, i);
      assert free[i] in free;
    }
  }

  lemma FreeListPop(mem: Memory, own: Owners, head: nat, free: seq<nat>)
    requires FreeList(mem, own, head, free) && free != []
    ensures head in own && own[head] == Free && head in mem
    ensures FreeList(mem, own[head := Held], Cell(mem, head, 0).frame, free[1..])
  {
    assert NextAt(mem, free, 0) && free[0] in free;
    forall i | 0 <= i < |free| - 1
      ensures NextAt(mem, free[1..], i)
    {
      assert NextAt(mem, free, i + 1);
    }
    forall f
      ensures f in free[1..] <==> f in own && own[head := Held][f] == Free
    {
      assert f in free <==> f == free[0] || f in free[1..];
    }
  }

  lemma FreeListPush(mem: Memory, own: Owners, head: nat, free: seq<nat>, f: nat, page: seq<Word>)
    requires FreeList(mem, own, head, free) && f in own && own[f] != Free && f in mem
    requires |page| > 0 && page[0].frame == head
    ensures FreeList(mem[f := page], own[f := Free], f, [f] + free)
  {
    var mem' := mem[f := page];
    assert f !in free;
    forall i | 0 <= i < |free| + 1
      ensures NextAt(mem', [f] + free, i)
    {
      if i > 0 {
        assert NextAt(mem, free, i - 1) && free[i - 1] in free;
      }
    }
  }

  // ---- What a change to directory pd leaves alone ----

  predicate Of(o: Owner, pd: nat) {
    (o.Table? && o.pd == pd) || (o.User? && o.pd == pd)
  }

  /** Directory pd only takes frames from the free list. */
  ghost predicate OnlyTakes(own: Owners, own': Owners, pd: nat) {
    && own'.Keys == own.Keys
    && (forall f :: f in own && own'[f] != own[f] ==> own[f] == Free && Of(own'[f], pd))
  }

  /** A page of data: of a process, a stack, a pipe, or in the hands of a kernel function. */
  predicate HoldsData(o: Owner) {
    o.Held? || IsRoot(o) || o.User?
  }

  ghost predicate KeptAt(mem: Memory, own: Owners, mem': Memory, own': Owners, f: nat) {
    f in own && f in mem && f in own' && f in mem' && own'[f] == own[f] && HoldsData(own[f]) ==> mem'[f] == mem[f]
  }

  /** A page of data that stays with its owner keeps its contents. */
  ghost predicate DataKept(mem: Memory, own: Owners, mem': Memory, own': Owners) {
    forall f {:trigger KeptAt(mem, own, mem', own', f)} :: KeptAt(mem, own, mem', own', f)
  }

  /** The meaning of other directories, and of pd outside pages lo..hi, is unchanged. */
  ghost predicate SameOutside(mem: Memory, mem': Memory, dirs: Dirs, pd: nat, lo: int, hi: int) {
    forall p, u {:trigger Look(mem', p, u)} :: p in dirs && dirs[p] * 1024 <= u < VPAGES && !(p == pd && lo <= u < hi) ==>
      Look(mem', p, u) == Look(mem, p, u)
  }

  /** As OnlyTakes, except that frame f passes from the kernel to page v. */
  ghost predicate MovesInto(own: Owners, own': Owners, pd: nat, v: nat, f: nat) {
    && own'.Keys == own.Keys
    && f in own && own[f] == Held && own'[f] == User(pd, v)
    && (forall g :: g in own && g != f && own'[g] != own[g] ==> own[g] == Free && Of(own'[g], pd))
  }

  /** The frames of pages lo..hi of directory pd are free now; every other frame keeps its owner. */
  ghost predicate Released(own: Owners, own': Owners, pd: nat, lo: int, hi: int) {
    && own'.Keys == own.Keys
    && (forall f :: f in own ==>
          own'[f] == if own[f].User? && own[f].pd == pd && lo <= own[f].v < hi then Free else own[f])
  }

  lemma ReleaseOne(mem: Memory, own: Owners, dirs: Dirs, pd: nat, u: nat, f: nat)
    requires TableInv(mem, own, dirs) && pd in dirs && dirs[pd] == 0 && u < UPAGES
    requires Look(mem, pd, u).present && f == Look(mem, pd, u).frame
    ensures f in own && Released(own, own[f := Free], pd, u, u + 1)
  {
    assert UserAt(mem, own, pd, u);
    forall g | g in own && own[g] == User(pd, u)
      ensures g == f
    {
      assert OwnedAt(mem, own, dirs, g);
    }
  }

  lemma ReleaseNone(mem: Memory, own: Owners, dirs: Dirs, pd: nat, lo: int, hi: int)
    requires TableInv(mem, own, dirs) && pd in dirs && dirs[pd] == 0
    requires forall u :: 0 <= lo <= u < hi && u < UPAGES ==> Look(mem, pd, u) == ZERO
    requires 0 <= lo && hi <= UPAGES
    ensures Released(own, own, pd, lo, hi)
  {
    forall g | g in own
      ensures !(own[g].User? && own[g].pd == pd && lo <= own[g].v < hi)
    {
      assert OwnedAt(mem, own, dirs, g);
    }
  }

  /** Entry i's table is the only frame that entry i owns. */
  lemma OnlyTable(mem: Memory, own: Owners, dirs: Dirs, pd: nat, i: nat)
    requires TableInv(mem, own, dirs)
    ensures forall g :: g in own && own[g] == Table(pd, i) ==> Cell(mem, pd, i).present && g == Cell(mem, pd, i).frame
  {
    forall g | g in own && own[g] == Table(pd, i)
      ensures Cell(mem, pd, i).present && g == Cell(mem, pd, i).frame
    {
      assert OwnedAt(mem, own, dirs, g);
    }
  }

  lemma ReleaseMore(a: Owners, b: Owners, c: Owners, pd: nat, lo: int, mid: int, hi: int)
    requires Released(a, b, pd, lo, mid) && Released(b, c, pd, mid, hi) && lo <= mid <= hi
    ensures Released(a, c, pd, lo, hi)
  {
  }

  lemma KeptTrans(m: Memory, a: Owners, m': Memory, b: Owners, m'': Memory, c: Owners)
    requires DataKept(m, a, m', b) && DataKept(m', b, m'', c) && m.Keys == m'.Keys == a.Keys == b.Keys
    requires forall f :: f in a && f in b && f in c && c[f] == a[f] && HoldsData(a[f]) ==> b[f] == a[f]
    ensures DataKept(m, a, m'', c)
  {
    forall f
      ensures KeptAt(m, a, m'', c, f)
    {
      assert KeptAt(m, a, m', b, f) && KeptAt(m', b, m'', c, f);
    }
  }

  lemma TakesTrans(m: Memory, a: Owners, m': Memory, b: Owners, m'': Memory, c: Owners, pd: nat)
    requires OnlyTakes(a, b, pd) && OnlyTakes(b, c, pd) && m.Keys == m'.Keys == a.Keys
    requires DataKept(m, a, m', b) && DataKept(m', b, m'', c)
    ensures OnlyTakes(a, c, pd) && DataKept(m, a, m'', c)
  {
    forall f
      ensures KeptAt(m, a, m'', c, f)
    {
      assert KeptAt(m, a, m', b, f) && KeptAt(m', b, m'', c, f);
    }
  }

  /** Directory pd and its tables came from the free list. */
  ghost predicate Built(own: Owners, own': Owners, pd: nat) {
    && own'.Keys == own.Keys
    && pd in own && own[pd] == Free && own'[pd] == Dir
    && (forall f :: f in own && f != pd && own'[f] != own[f] ==> own[f] == Free && Of(own'[f], pd))
  }

  /** Building a directory and tearing it down gives every frame back. */
  lemma BuiltThenTorn(mem: Memory, own: Owners, dirs: Dirs, o1: Owners, o2: Owners, pd: nat)
    requires Sealed(mem, own, dirs) && pd !in dirs && Built(own, o1, pd) && TornDown(o1, o2, pd)
    ensures o2 == own
  {
    Unsealed(mem, own, dirs);
    forall f | f in own
      ensures o2[f] == own[f]
    {
      assert OwnedAt(mem, own, dirs, f);
    }
  }

  lemma BuiltTakes(m: Memory, a: Owners, m': Memory, b: Owners, m'': Memory, c: Owners, pd: nat)
    requires Built(a, b, pd) && OnlyTakes(b, c, pd) && m.Keys == m'.Keys == a.Keys
    requires DataKept(m, a, m', b) && DataKept(m', b, m'', c)
    ensures Built(a, c, pd) && DataKept(m, a, m'', c)
  {
    forall f
      ensures KeptAt(m, a, m'', c, f)
    {
      assert KeptAt(m, a, m', b, f) && KeptAt(m', b, m'', c, f);
    }
  }

  lemma TearDown(mem: Memory, own: Owners, dirs: Dirs, pd: nat, o1: Owners, o2: Owners)
    requires TableInv(mem, own, dirs) && pd in dirs && dirs[pd] == 0
    requires Released(own, o1, pd, 0, UPAGES) && TreeFreed(o1, o2, pd)
    ensures TornDown(own, o2, pd)
  {
    assert DirAt(own, pd);
    forall f | f in own
      ensures o2[f] == if f == pd || Of(own[f], pd) then Free else own[f]
    {
      assert OwnedAt(mem, own, dirs, f);
    }
  }

  lemma OutsideMore(m: Memory, m': Memory, m'': Memory, dirs: Dirs, pd: nat, lo: int, mid: int, hi: int)
    requires SameOutside(m, m', dirs, pd, lo, mid) && SameOutside(m', m'', dirs, pd, mid, hi) && lo <= mid <= hi
    ensures SameOutside(m, m'', dirs, pd, lo, hi)
  {
  }

  /** The tables of the first n entries of directory pd are free now; other frames keep their owners. */
  ghost predicate TablesFreed(own: Owners, own': Owners, pd: nat, n: nat) {
    && own'.Keys == own.Keys
    && (forall f :: f in own ==>
          own'[f] == if own[f].Table? && own[f].pd == pd && own[f].d < n then Free else own[f])
  }

  /** All tables of directory pd, and pd itself, are free now; other frames keep their owners. */
  ghost predicate TreeFreed(own: Owners, own': Owners, pd: nat) {
    && own'.Keys == own.Keys
    && (forall f :: f in own ==>
          own'[f] == if f == pd || (own[f].Table? && own[f].pd == pd && own[f].d < ENTRIES) then Free else own[f])
  }

  /** Everything directory pd had is free now; other frames keep their owners. */
  ghost predicate TornDown(own: Owners, own': Owners, pd: nat) {
    && own'.Keys == own.Keys
    && (forall f :: f in own ==> own'[f] == if f == pd || Of(own[f], pd) then Free else own[f])
  }

  // ---- The kernel's part of every directory ----

  /** A row of kmap: pages virt, virt + 1, ... map to frames frame, frame + 1, ... */
  datatype Kmap = Kmap(virt: nat, frame: nat, count: nat, perm: nat)

  /** kmap[], for a kernel whose data segment starts at page `data`. */
  function KernelRows(data: nat): (rows: seq<Kmap>)
    requires 0x80100 < data < 0x8E000
    ensures RowsOk(rows)
  {
    [Kmap(0x80000, 0, 0x100, PTE_W),
     Kmap(0x80100, 0x100, data - 0x80100, 0),
     Kmap(data, data - 0x80000, 0x8E000 - data, PTE_W),
     Kmap(0xFE000, 0xFE000, 0x2000, PTE_W)]
  }

  /** Rows in order, apart, above KERNBASE. */
  ghost predicate RowsOk(rows: seq<Kmap>) {
    && (forall i :: 0 <= i < |rows| ==> UPAGES <= rows[i].virt && 0 < rows[i].count && rows[i].virt + rows[i].count <= VPAGES)
    && (forall i, j :: 0 <= i < j < |rows| ==> rows[i].virt + rows[i].count <= rows[j].virt)
  }

  /** The entry that rows give page u. */
  function RowsMap(rows: seq<Kmap>, u: nat): Word {
    if rows == [] then ZERO
    else
      var k := rows[|rows| - 1];
      if k.virt <= u < k.virt + k.count then Entry(k.frame + (u - k.virt), k.perm)
      else RowsMap(rows[..|rows| - 1], u)
  }

  /**
   The kernel's part of every directory: physical memory from 0 at KERNBASE, devices at their own
   addresses, the kernel's text without PTE_W, and no page with PTE_U.
   */
  lemma KernelMap(data: nat, u: nat)
    requires 0x80100 < data < 0x8E000 && u < VPAGES
    ensures var w := RowsMap(KernelRows(data), u);
            && (w.present <==> 0x80000 <= u < 0x8E000 || 0xFE000 <= u)
            && (w.present ==> w.frame == if u < 0x8E000 then u - 0x80000 else u)
            && (w.present ==> !Flag(w.perm, PTE_U) && (Flag(w.perm, PTE_W) <==> !(0x80100 <= u < data)))
  {
    var rows := KernelRows(data);
    assert rows[..3] == [rows[0], rows[1], rows[2]];
    assert rows[..3][..2] == [rows[0], rows[1]];
    assert rows[..3][..2][..1] == [rows[0]];
    assert RowsMap(rows[..3][..2][..1][..0], u) == ZERO;
    var low := RowsMap(rows[..3][..2][..1], u);
    assert low == if 0x80000 <= u < 0x80100 then Entry(u - 0x80000, PTE_W) else ZERO;
    var text := RowsMap(rows[..3][..2], u);
    assert text == if 0x80100 <= u < data then Entry(u - 0x80000, 0) else low;
  }

  // ---- How many page tables a range needs ----

  /** The number of directory entries lo..hi without a table. */
  function Absent(mem: Memory, pd: nat, lo: nat, hi: nat): nat
    decreases if hi > lo then hi - lo else 0
  {
    if lo >= hi then 0 else Absent(mem, pd, lo, hi - 1) + if Cell(mem, pd, hi - 1).present then 0 else 1
  }

  lemma {:induction false} AbsentMore(mem: Memory, pd: nat, lo: nat, mid: nat, hi: nat)
    requires lo <= mid <= hi
    ensures Absent(mem, pd, lo, mid) <= Absent(mem, pd, lo, hi)
    decreases hi
  {
    if mid < hi {
      AbsentMore(mem, pd, lo, mid, hi - 1);
    }
  }

  /** Entries lo..hi of directory pd have tables now; the others have one exactly if they had. */
  ghost predicate Tabled(mem: Memory, mem': Memory, pd: nat, lo: nat, hi: nat) {
    forall e :: 0 <= e < ENTRIES ==> (Cell(mem', pd, e).present <==> Cell(mem, pd, e).present || lo <= e < hi)
  }

  /** One past the directory entries that pages first..a use. */
  function EndEntry(first: nat, a: nat): nat
    requires first <= a
  {
    if a == first then first / 1024 else (a - 1) / 1024 + 1
  }

  /** What tables page a needs when those of pages first..a are there. */
  lemma EntryStep(mem0: Memory, mem: Memory, mem': Memory, pd: nat, first: nat, a: nat)
    requires first <= a < VPAGES && Tabled(mem0, mem, pd, first / 1024, EndEntry(first, a))
    ensures Absent(mem0, pd, first / 1024, EndEntry(first, a + 1))
            == Absent(mem0, pd, first / 1024, EndEntry(first, a)) + if Cell(mem, pd, a / 1024).present then 0 else 1
    ensures Tabled(mem, mem', pd, a / 1024, a / 1024 + 1) ==> Tabled(mem0, mem', pd, first / 1024, EndEntry(first, a + 1))
  {
    var d, e := a / 1024, EndEntry(first, a);
    assert d == e || (d == e - 1 && first / 1024 <= d);
    assert EndEntry(first, a + 1) == d + 1;
    assert Cell(mem, pd, d).present <==> Cell(mem0, pd, d).present || first / 1024 <= d < e;
  }

  /** Pages first..a of directory pd map to the frames from `frame` on, and else nothing changed since (mem0, own0). */
  ghost predicate Mapping(mem0: Memory, own0: Owners, mem: Memory, own: Owners, dirs: Dirs,
                          pd: nat, first: nat, a: nat, frame: nat, perm: nat) {
    forall z: nat {:trigger Unfold(z)} :: Unfold(z) ==>
      && first <= a && OnlyTakes(own0, own, pd) && DataKept(mem0, own0, mem, own)
      && SameOutside(mem0, mem, dirs, pd, first, a)
      && (forall u :: first <= u < a ==> Look(mem, pd, u) == Entry(frame + (u - first), perm))
      && Tabled(mem0, mem, pd, first / 1024, EndEntry(first, a))
  }

  lemma MappingStarts(mem: Memory, own: Owners, dirs: Dirs, pd: nat, first: nat, frame: nat, perm: nat)
    ensures Mapping(mem, own, mem, own, dirs, pd, first, first, frame, perm)
  {
  }

  lemma MappingMore(mem0: Memory, own0: Owners, m: Memory, o: Owners, mem: Memory, own: Owners, dirs: Dirs,
                    pd: nat, first: nat, a: nat, frame: nat, perm: nat)
    requires Mapping(mem0, own0, m, o, dirs, pd, first, a, frame, perm) && mem0.Keys == own0.Keys == m.Keys
    requires first <= a < VPAGES && OnlyTakes(o, own, pd) && DataKept(m, o, mem, own) && SameOutside(m, mem, dirs, pd, a, a + 1)
    requires pd in dirs && dirs[pd] == 0 && Look(mem, pd, a) == Entry(frame + (a - first), perm)
    requires Tabled(m, mem, pd, a / 1024, a / 1024 + 1)
    ensures Mapping(mem0, own0, mem, own, dirs, pd, first, a + 1, frame, perm)
  {
    MappingFacts(mem0, own0, m, o, dirs, pd, first, a, frame, perm);
    EntryStep(mem0, m, mem, pd, first, a);
    TakesTrans(mem0, own0, m, o, mem, own, pd);
    OutsideMore(mem0, m, mem, dirs, pd, first, a, a + 1);
  }

  lemma MappingFacts(mem0: Memory, own0: Owners, mem: Memory, own: Owners, dirs: Dirs,
                     pd: nat, first: nat, a: nat, frame: nat, perm: nat)
    requires Mapping(mem0, own0, mem, own, dirs, pd, first, a, frame, perm)
    ensures first <= a && OnlyTakes(own0, own, pd) && DataKept(mem0, own0, mem, own)
    ensures SameOutside(mem0, mem, dirs, pd, first, a)
    ensures forall u :: first <= u < a ==> Look(mem, pd, u) == Entry(frame + (u - first), perm)
    ensures Tabled(mem0, mem, pd, first / 1024, EndEntry(first, a))
  {
    assert Unfold(0);
  }

  /** Some row has a page under directory entry e. */
  predicate Spanned(rows: seq<Kmap>, e: nat)
    requires forall i :: 0 <= i < |rows| ==> rows[i].count > 0
  {
    exists i :: 0 <= i < |rows| && SpannedBy(rows[i], e)
  }

  predicate SpannedBy(k: Kmap, e: nat)
    requires k.count > 0
  {
    k.virt / 1024 <= e <= (k.virt + k.count - 1) / 1024
  }

  /** How many of the first n directory entries the rows need a table for. */
  function SpanCount(rows: seq<Kmap>, n: nat): nat
    requires forall i :: 0 <= i < |rows| ==> rows[i].count > 0
  {
    if n == 0 then 0 else SpanCount(rows, n - 1) + if Spanned(rows, n - 1) then 1 else 0
  }

  /** The page tables that the rows take. */
  function TablesFor(rows: seq<Kmap>): nat
    requires forall i :: 0 <= i < |rows| ==> rows[i].count > 0
  {
    SpanCount(rows, ENTRIES)
  }

  lemma {:induction false} SpanNone(rows: seq<Kmap>, n: nat)
    requires rows == []
    ensures SpanCount(rows, n) == 0
  {
    if n > 0 { SpanNone(rows, n - 1); }
  }

  lemma {:induction false} SpanMore(rows: seq<Kmap>, i: nat, n: nat)
    requires i <= |rows| && forall j :: 0 <= j < |rows| ==> rows[j].count > 0
    ensures SpanCount(rows[..i], n) <= SpanCount(rows, n)
    decreases n
  {
    if n > 0 {
      SpanMore(rows, i, n - 1);
      if Spanned(rows[..i], n - 1) {
        var j :| 0 <= j < i && SpannedBy(rows[..i][j], n - 1);
        assert SpannedBy(rows[j], n - 1);
      }
    }
  }

  function Min(a: nat, b: nat): nat {
    if a < b then a else b
  }

  lemma SpannedNext(rows: seq<Kmap>, i: nat, e: nat)
    requires i < |rows| && forall j :: 0 <= j < |rows| ==> rows[j].count > 0
    ensures Spanned(rows[..i + 1], e) <==> Spanned(rows[..i], e) || SpannedBy(rows[i], e)
  {
    if Spanned(rows[..i], e) {
      var j :| 0 <= j < i && SpannedBy(rows[..i][j], e);
      assert SpannedBy(rows[..i + 1][j], e);
    }
    if SpannedBy(rows[i], e) {
      assert SpannedBy(rows[..i + 1][i], e);
    }
    if Spanned(rows[..i + 1], e) {
      var j :| 0 <= j < i + 1 && SpannedBy(rows[..i + 1][j], e);
      assert j < i ==> SpannedBy(rows[..i][j], e);
    }
  }

  /** Row i needs the tables of its entries that earlier rows have not brought. */
  lemma {:induction false} SpanNext(mem: Memory, pd: nat, rows: seq<Kmap>, i: nat, n: nat)
    requires i < |rows| && (forall j :: 0 <= j < |rows| ==> rows[j].count > 0) && n <= ENTRIES
    requires forall e :: 0 <= e < ENTRIES ==> (Cell(mem, pd, e).present <==> Spanned(rows[..i], e))
    ensures var lo, hi := rows[i].virt / 1024, (rows[i].virt + rows[i].count - 1) / 1024 + 1;
            SpanCount(rows[..i + 1], n) == SpanCount(rows[..i], n) + Absent(mem, pd, Min(lo, n), Min(hi, n))
    decreases n
  {
    if n > 0 {
      SpanNext(mem, pd, rows, i, n - 1);
      SpannedNext(rows, i, n - 1);
    }
  }

  /** kmap takes 64 page tables, so setupkvm takes 65 frames. */
  lemma KernelTables(data: nat)
    requires 0x80100 < data < 0x8E000
    ensures TablesFor(KernelRows(data)) == 64
  {
    KernelSpan(data, ENTRIES);
  }

  lemma {:induction false} KernelSpan(data: nat, n: nat)
    requires 0x80100 < data < 0x8E000 && n <= ENTRIES
    ensures SpanCount(KernelRows(data), n)
            == if n <= 512 then 0 else if n <= 568 then n - 512 else if n <= 1016 then 56 else n - 960
    decreases n
  {
    if n > 0 {
      KernelSpan(data, n - 1);
      KernelSpanned(data, n - 1);
    }
  }

  lemma KernelSpanned(data: nat, e: nat)
    requires 0x80100 < data < 0x8E000
    ensures Spanned(KernelRows(data), e) <==> 512 <= e < 568 || 1016 <= e < 1024
  {
    var rows := KernelRows(data);
    assert SpannedBy(rows[0], e) <==> e == 512;
    assert SpannedBy(rows[3], e) <==> 1016 <= e < 1024;
    assert SpannedBy(rows[1], e) || SpannedBy(rows[2], e) <==> 512 <= e < 568;
  }

  /** No row maps a page of a later one. */
  lemma {:induction false} RowsBelow(rows: seq<Kmap>, n: nat, u: nat)
    requires RowsOk(rows) && n < |rows| && rows[n].virt <= u
    ensures forall i :: 0 <= i <= n ==> RowsMap(rows[..i], u) == ZERO
    decreases n
  {
    if n > 0 {
      forall i | 0 < i <= n ensures RowsMap(rows[..i], u) == ZERO {
        assert rows[..i][..i - 1] == rows[..i - 1];
        RowsBelow(rows, n - 1, u);
      }
    }
  }

  /** While the rows before i are mapped, row i's pages are absent, and these are the tables it needs. */
  lemma RowAhead(mem: Memory, pd: nat, rows: seq<Kmap>, i: nat)
    requires RowsOk(rows) && i < |rows|
    requires forall u :: 0 <= u < VPAGES ==> Look(mem, pd, u) == RowsMap(rows[..i], u)
    requires forall e :: 0 <= e < ENTRIES ==> (Cell(mem, pd, e).present <==> Spanned(rows[..i], e))
    ensures forall u :: rows[i].virt <= u < rows[i].virt + rows[i].count ==> !Look(mem, pd, u).present
    ensures TablesFor(rows[..i + 1]) == TablesFor(rows[..i])
            + Absent(mem, pd, rows[i].virt / 1024, (rows[i].virt + rows[i].count - 1) / 1024 + 1)
  {
    SpanNext(mem, pd, rows, i, ENTRIES);
    forall u | rows[i].virt <= u < rows[i].virt + rows[i].count
      ensures !Look(mem, pd, u).present
    {
      RowsBelow(rows, i, u);
    }
  }

  /** After mappages on row i, the rows up to i are mapped. */
  lemma RowMapped(mem: Memory, mem': Memory, dirs: Dirs, pd: nat, rows: seq<Kmap>, i: nat)
    requires pd in dirs && dirs[pd] == 0 && RowsOk(rows) && i < |rows|
    requires forall u :: 0 <= u < VPAGES ==> Look(mem, pd, u) == RowsMap(rows[..i], u)
    requires forall e :: 0 <= e < ENTRIES ==> (Cell(mem, pd, e).present <==> Spanned(rows[..i], e))
    requires var k := rows[i];
             && SameOutside(mem, mem', dirs, pd, k.virt, k.virt + k.count)
             && (forall u :: k.virt <= u < k.virt + k.count ==> Look(mem', pd, u) == Entry(k.frame + (u - k.virt), k.perm))
             && Tabled(mem, mem', pd, k.virt / 1024, (k.virt + k.count - 1) / 1024 + 1)
    ensures forall u :: 0 <= u < VPAGES ==> Look(mem', pd, u) == RowsMap(rows[..i + 1], u)
    ensures forall e :: 0 <= e < ENTRIES ==> (Cell(mem', pd, e).present <==> Spanned(rows[..i + 1], e))
  {
    assert rows[..i + 1][..i] == rows[..i];
    forall e | 0 <= e < ENTRIES
      ensures Cell(mem', pd, e).present <==> Spanned(rows[..i + 1], e)
    {
      SpannedNext(rows, i, e);
    }
  }

  /** PGROUNDUP(sz) / PGSIZE */
  function PageUp(sz: nat): nat {
    (sz + 4095) / 4096
  }

  /** walkpgdir and the write of the entry together. */
  lemma PageMapped(mem: Memory, own: Owners, mem1: Memory, own1: Owners, mem2: Memory, own2: Owners, dirs: Dirs,
                   pd: nat, v: nat, f: nat)
    requires mem.Keys == mem1.Keys == mem2.Keys == own.Keys && pd in dirs && dirs[pd] == 0
    requires SameLook(mem, mem1, dirs) && OnlyTakes(own, own1, pd) && DataKept(mem, own, mem1, own1)
    requires SameOutside(mem1, mem2, dirs, pd, v, v + 1) && DataKept(mem1, own1, mem2, own2)
    requires if v < UPAGES then f in own && own[f] == Held && own2 == own1[f := User(pd, v)] else own2 == own1
    requires Tabled(mem, mem1, pd, v / 1024, v / 1024 + 1)
    requires forall e :: 0 <= e < ENTRIES ==> Cell(mem2, pd, e) == Cell(mem1, pd, e)
    ensures SameOutside(mem, mem2, dirs, pd, v, v + 1) && DataKept(mem, own, mem2, own2)
    ensures Tabled(mem, mem2, pd, v / 1024, v / 1024 + 1)
    ensures if v < UPAGES then MovesInto(own, own2, pd, v, f) else OnlyTakes(own, own2, pd)
  {
    KeptTrans(mem, own, mem1, own1, mem2, own2);
  }

  lemma TablesMore(own: Owners, own1: Owners, own2: Owners, pd: nat, i: nat)
    requires TablesFreed(own, own1, pd, i) && own2.Keys == own.Keys
    requires forall f :: f in own1 ==> own2[f] == if own1[f] == Table(pd, i) then Free else own1[f]
    ensures TablesFreed(own, own2, pd, i + 1)
  {
  }

  /** flags & ~PTE_U */
  function ClearU(perm: nat): (r: nat)
    ensures !Flag(r, PTE_U) && (Flag(r, PTE_W) <==> Flag(perm, PTE_W))
    ensures r == perm || r + PTE_U == perm
  {
    if Flag(perm, PTE_U) then perm - PTE_U else perm
  }

  /** The entry of a page without its user flag; an absent page stays absent. */
  function NotUser(w: Word): Word {
    if w.present then w.(perm := ClearU(w.perm)) else w
  }

  datatype MapResult = Mapped | NoMemory | Remap

  /** The invariant of physical memory, folded so that a method opens it only where it needs to. */
  ghost predicate Kept(mem: Memory, own: Owners, dirs: Dirs, roots: Roots, freelist: nat, free: seq<nat>) {
    forall z: nat {:trigger Unfold(z)} :: Unfold(z) ==> Inv(mem, own, dirs, roots) && FreeList(mem, own, freelist, free)
  }

  /** TableInv, folded. */
  ghost predicate Sealed(mem: Memory, own: Owners, dirs: Dirs) {
    && mem.Keys == own.Keys
    && (forall z: nat {:trigger Unfold(z)} :: Unfold(z) ==> TableInv(mem, own, dirs))
  }

  lemma Unsealed(mem: Memory, own: Owners, dirs: Dirs)
    requires Sealed(mem, own, dirs)
    ensures TableInv(mem, own, dirs)
  {
    assert Unfold(0);
  }

  class Machine {
    var mem: Memory
    var freelist: nat
    ghost var free: seq<nat>
    ghost var own: Owners
    ghost var dirs: Dirs
    ghost var roots: Roots

    ghost predicate Valid()
      reads this
    {
      mem.Keys == own.Keys && Kept(mem, own, dirs, roots, freelist, free)
    }

    lemma Open()
      requires Valid()
      ensures Inv(mem, own, dirs, roots) && FreeList(mem, own, freelist, free)
    {
      assert Unfold(0);
    }

    lemma Seal()
      requires Valid()
      ensures Sealed(mem, own, dirs)
    {
      assert Unfold(0);
    }

    lemma Close()
      requires Inv(mem, own, dirs, roots) && FreeList(mem, own, freelist, free)
      ensures Valid()
    {
    }

    /** kinit: frames lo..hi of physical memory, all of them put on the free list by freerange. */
    constructor (memory: Memory, lo: nat, hi: nat)
      requires 0 < lo <= hi && (forall f :: f in memory <==> lo <= f < hi)
      requires forall f :: f in memory ==> |memory[f]| == ENTRIES
      ensures Valid() && dirs == map[] && roots == Roots(map[], map[])
      ensures forall f :: f in own <==> lo <= f < hi
      ensures forall f :: f in own ==> own[f] == Free
    {
      mem := memory;
      own := map f | f in memory :: Held;
      dirs := map[];
      roots := Roots(map[], map[]);
      freelist := 0;
      free := [];
      new;
      forall f | f in mem
        ensures PageAt(mem, f) && OwnedAt(mem, own, dirs, f) && RootAt(own, roots, f)
      {
      }
      var p := lo;
      while p < hi
        invariant lo <= p <= hi && Valid() && dirs == map[] && roots == Roots(map[], map[])
        invariant forall f :: f in own <==> lo <= f < hi
        invariant forall f :: f in own ==> own[f] == if f < p then Free else Held
      {
        Kfree(p);
        p := p + 1;
      }
    }

    /** kalloc: pop the free list; 0 when it is empty. */
    method Kalloc() returns (f: nat)
      requires Valid()
      modifies this`freelist, this`free, this`own
      ensures Valid()
      ensures f == 0 <==> old(free) == []
      ensures f == 0 ==> own == old(own) && free == old(free) && freelist == old(freelist)
      ensures f != 0 ==> f in old(own) && old(own)[f] == Free && own == old(own)[f := Held] && free == old(free)[1..]
    {
      Open();
      f := freelist;
      if free != [] {
        FreeListPop(mem, own, freelist, free);
        assert PageAt(mem, f);
      }
      if f != 0 {
        Retag(mem, own, dirs, f, Held);
        RootsKept(own, own[f := Held], roots);
        freelist := mem[f][0].frame;
        own := own[f := Held];
        free := free[1..];
        Close();
      }
    }

    /** kfree: fill the page with junk and push it. */
    method Kfree(f: nat)
      requires Valid() && f in own && own[f] == Held
      modifies this`mem, this`freelist, this`free, this`own
      ensures Valid()
      ensures own == old(own)[f := Free] && free == [f] + old(free)
      ensures mem.Keys == old(mem).Keys && (forall g :: g in mem && g != f ==> mem[g] == old(mem)[g])
      ensures SameLook(old(mem), mem, dirs)
    {
      Open();
      var next := freelist;
      var page := [Word(next, false, 0)] + seq(ENTRIES - 1, _ => JUNK);
      WriteLoose(mem, own, dirs, f, page);
      FreeListPush(mem, own, freelist, free, f, page);
      Retag(mem[f := page], own, dirs, f, Free);
      RootsKept(own, own[f := Free], roots);
      mem := mem[f := page];
      freelist := f;
      free := [f] + free;
      own := own[f := Free];
      Close();
    }

    /** allocproc's kalloc: a stack for process p. */
    method TakeStack(p: nat) returns (f: nat)
      requires Valid() && p !in roots.stacks
      modifies this`freelist, this`free, this`own, this`roots
      ensures Valid() && (f == 0 <==> old(free) == [])
      ensures f == 0 ==> own == old(own) && roots == old(roots) && free == old(free)
      ensures f != 0 ==> f in old(own) && old(own)[f] == Free && own == old(own)[f := Stack(p)] && free == old(free)[1..]
      ensures f != 0 ==> roots == old(roots).(stacks := old(roots).stacks[p := f])
    {
      f := Kalloc();
      if f != 0 {
        Open();
        Retag(mem, own, dirs, f, Stack(p));
        AddStack(own, roots, p, f);
        FreeListKept(mem, own, freelist, free, mem, own[f := Stack(p)]);
        own := own[f := Stack(p)];
        roots := roots.(stacks := roots.stacks[p := f]);
        Close();
      }
    }

    /** kfree(p->kstack) */
    method FreeStack(p: nat, f: nat)
      requires Valid() && p in roots.stacks && roots.stacks[p] == f
      modifies this`mem, this`freelist, this`free, this`own, this`roots
      ensures Valid() && f in old(own) && old(own)[f] == Stack(p)
      ensures own == old(own)[f := Free] && free == [f] + old(free) && roots == old(roots).(stacks := old(roots).stacks - {p})
      ensures mem.Keys == old(mem).Keys && (forall g :: g in mem && g != f ==> mem[g] == old(mem)[g])
      ensures SameLook(old(mem), mem, dirs)
    {
      Open();
      DropStack(own, roots, p);
      Retag(mem, own, dirs, f, Held);
      FreeListKept(mem, own, freelist, free, mem, own[f := Held]);
      own := own[f := Held];
      roots := roots.(stacks := roots.stacks - {p});
      Close();
      Kfree(f);
    }

    /** pipealloc's kalloc: the page of pipe k. */
    method TakePipe(k: nat) returns (f: nat)
      requires Valid() && k !in roots.pipes
      modifies this`freelist, this`free, this`own, this`roots
      ensures Valid() && (f == 0 <==> old(free) == [])
      ensures f == 0 ==> own == old(own) && roots == old(roots) && free == old(free)
      ensures f != 0 ==> f in old(own) && old(own)[f] == Free && own == old(own)[f := PipePage(k)] && free == old(free)[1..]
      ensures f != 0 ==> roots == old(roots).(pipes := old(roots).pipes[k := f])
    {
      f := Kalloc();
      if f != 0 {
        Open();
        Retag(mem, own, dirs, f, PipePage(k));
        AddPipe(own, roots, k, f);
        FreeListKept(mem, own, freelist, free, mem, own[f := PipePage(k)]);
        own := own[f := PipePage(k)];
        roots := roots.(pipes := roots.pipes[k := f]);
        Close();
      }
    }

    /** pipeclose's kfree, when both ends are closed. */
    method FreePipe(k: nat, f: nat)
      requires Valid() && k in roots.pipes && roots.pipes[k] == f
      modifies this`mem, this`freelist, this`free, this`own, this`roots
      ensures Valid() && f in old(own) && old(own)[f] == PipePage(k)
      ensures own == old(own)[f := Free] && free == [f] + old(free) && roots == old(roots).(pipes := old(roots).pipes - {k})
      ensures mem.Keys == old(mem).Keys && (forall g :: g in mem && g != f ==> mem[g] == old(mem)[g])
      ensures SameLook(old(mem), mem, dirs)
    {
      Open();
      DropPipe(own, roots, k);
      Retag(mem, own, dirs, f, Held);
      FreeListKept(mem, own, freelist, free, mem, own[f := Held]);
      own := own[f := Held];
      roots := roots.(pipes := roots.pipes - {k});
      Close();
      Kfree(f);
    }

    /** memset(f, 0, PGSIZE) or memmove into a page the kernel holds. */
    method Fill(f: nat, page: seq<Word>)
      requires Valid() && f in own && own[f] == Held && |page| == ENTRIES
      modifies this`mem
      ensures Valid() && mem == old(mem)[f := page] && SameLook(old(mem), mem, dirs)
    {
      Open();
      WriteLoose(mem, own, dirs, f, page);
      FreeListKept(mem, own, freelist, free, mem[f := page], own);
      mem := mem[f := page];
      Close();
    }

    /** walkpgdir: the table that holds page v's entry, made if `alloc`; 0 if there is none. */
    method WalkPgdir(pd: nat, v: nat, alloc: bool) returns (t: nat)
      requires Valid() && pd in dirs && dirs[pd] == 0 && v < VPAGES
      modifies this`mem, this`freelist, this`free, this`own
      ensures Valid() && SameLook(old(mem), mem, dirs)
      ensures OnlyTakes(old(own), own, pd) && DataKept(old(mem), old(own), mem, own)
      ensures t == 0 ==> !Cell(mem, pd, v / 1024).present && (alloc ==> old(free) == [])
      ensures t == 0 || !alloc ==> mem == old(mem) && own == old(own) && free == old(free) && freelist == old(freelist)
      ensures t != 0 ==> HasTable(mem, dirs, pd, v) && t == TableOf(mem, pd, v)
      ensures Cell(old(mem), pd, v / 1024).present ==> t != 0 && mem == old(mem) && own == old(own) && free == old(free)
      ensures alloc && t != 0 ==> Tabled(old(mem), mem, pd, v / 1024, v / 1024 + 1)
      ensures alloc && t != 0 && !Cell(old(mem), pd, v / 1024).present ==> |free| == |old(free)| - 1
    {
      Open();
      assert DirAt(own, pd) && PageAt(mem, pd);
      var d := v / 1024;
      var pde := mem[pd][d];
      assert pde == Cell(mem, pd, d);
      assert TableAt(mem, own, pd, d);
      if pde.present {
        t := pde.frame;
        assert PageAt(mem, t);
        return;
      }
      if !alloc {
        return 0;
      }
      t := NewTable(pd, d);
    }

    method NewTable(pd: nat, d: nat) returns (t: nat)
      requires Valid() && pd in dirs && dirs[pd] == 0 && d < ENTRIES && !Cell(mem, pd, d).present
      modifies this`mem, this`freelist, this`free, this`own
      ensures Valid() && SameLook(old(mem), mem, dirs)
      ensures OnlyTakes(old(own), own, pd) && DataKept(old(mem), old(own), mem, own)
      ensures t == 0 <==> old(free) == []
      ensures t == 0 ==> mem == old(mem) && own == old(own) && free == old(free) && freelist == old(freelist)
      ensures t != 0 ==> Cell(mem, pd, d) == Entry(t, PTE_W + PTE_U) && t in mem && |mem[t]| == ENTRIES
      ensures t != 0 ==> |free| == |old(free)| - 1 && Tabled(old(mem), mem, pd, d, d + 1)
    {
      Open();
      assert DirAt(own, pd);
      t := Kalloc();
      if t != 0 {
        Fill(t, ZeroPage());
        InstallTable(pd, d, t);
        assert PageAt(mem, t);
      }
    }

    /** The directory entry for a new, zeroed table. */
    method InstallTable(pd: nat, d: nat, t: nat)
      requires Valid() && pd in dirs && dirs[pd] == 0 && d < ENTRIES && !Cell(mem, pd, d).present
      requires t in own && own[t] == Held && t in mem && mem[t] == ZeroPage()
      modifies this`mem, this`own
      ensures Valid() && SameLook(old(mem), mem, dirs)
      ensures own == old(own)[t := Table(pd, d)]
      ensures Cell(mem, pd, d) == Entry(t, PTE_W + PTE_U) && Tabled(old(mem), mem, pd, d, d + 1)
      ensures mem.Keys == old(mem).Keys && forall g :: g in mem && g != pd ==> mem[g] == old(mem)[g]
    {
      Open();
      assert DirAt(own, pd);
      AddTable(mem, own, dirs, pd, d, t);
      var mem' := Poke(mem, pd, d, Entry(t, PTE_W + PTE_U));
      FreeListKept(mem, own, freelist, free, mem', own[t := Table(pd, d)]);
      RootsKept(own, own[t := Table(pd, d)], roots);
      mem := mem';
      own := own[t := Table(pd, d)];
      Close();
    }

    /** The write *pte = pa | perm | PTE_P for an absent page. */
    method SetPte(pd: nat, v: nat, f: nat, perm: nat)
      requires Valid() && HasTable(mem, dirs, pd, v) && Look(mem, pd, v) == ZERO
      requires (v < UPAGES ==> f in own && own[f] == Held)
      modifies this`mem, this`own
      ensures Valid() && Look(mem, pd, v) == Entry(f, perm)
      ensures SameOutside(old(mem), mem, dirs, pd, v, v + 1)
      ensures own == if v < UPAGES then old(own)[f := User(pd, v)] else old(own)
      ensures mem.Keys == old(mem).Keys && (v < UPAGES ==> f in mem && mem[f] == old(mem)[f])
      ensures DataKept(old(mem), old(own), mem, own)
      ensures forall e :: 0 <= e < ENTRIES ==> Cell(mem, pd, e) == Cell(old(mem), pd, e)
    {
      Open();
      assert TableAt(mem, own, pd, v / 1024);
      var w := Entry(f, perm);
      WriteEntry(mem, own, dirs, pd, v, w);
      ghost var own' := if v < UPAGES then own[f := User(pd, v)] else own;
      if v < UPAGES {
        MapUser(mem, own, dirs, pd, v, w);
      } else {
        MapKernel(mem, own, dirs, pd, v, w);
      }
      var mem' := SetEntry(mem, pd, v, w);
      FreeListKept(mem, own, freelist, free, mem', own');
      RootsKept(own, own', roots);
      mem := mem';
      own := own';
      Close();
    }

    /** One round of mappages. */
    method MapPage(pd: nat, v: nat, f: nat, perm: nat) returns (r: MapResult)
      requires Valid() && pd in dirs && dirs[pd] == 0 && v < VPAGES
      requires (v < UPAGES ==> f in own && own[f] == Held)
      modifies this`mem, this`freelist, this`free, this`own
      ensures Valid() && DataKept(old(mem), old(own), mem, own)
      ensures r.Mapped? ==> Look(old(mem), pd, v) == ZERO && Look(mem, pd, v) == Entry(f, perm)
      ensures SameOutside(old(mem), mem, dirs, pd, v, v + 1)
      ensures r.Mapped? && v < UPAGES ==> MovesInto(old(own), own, pd, v, f) && f in mem && mem[f] == old(mem)[f]
      ensures !r.Mapped? || v >= UPAGES ==> OnlyTakes(old(own), own, pd)
      ensures r.NoMemory? <==> old(free) == [] && !Cell(old(mem), pd, v / 1024).present
      ensures r.Remap? <==> Look(old(mem), pd, v).present
      ensures !r.Mapped? ==> mem == old(mem) && own == old(own) && free == old(free)
      ensures r.Mapped? ==> Tabled(old(mem), mem, pd, v / 1024, v / 1024 + 1)
      ensures r.Mapped? ==> |free| == |old(free)| - if Cell(old(mem), pd, v / 1024).present then 0 else 1
    {
      var t := WalkPgdir(pd, v, true);
      assert Look(mem, pd, v) == Look(old(mem), pd, v);
      if t == 0 {
        assert Look(mem, pd, v) == ZERO;
        return NoMemory;
      }
      ghost var w := mem[t][v % 1024];
      assert Look(mem, pd, v) == if w.present then w else ZERO;
      if mem[t][v % 1024].present {
        return Remap;
      }
      ghost var m, o := mem, own;
      assert v < UPAGES ==> KeptAt(old(mem), old(own), m, o, f);
      SetPte(pd, v, f, perm);
      PageMapped(old(mem), old(own), m, o, mem, own, dirs, pd, v, f);
      return Mapped;
    }

    /** clearpteu: page v keeps its frame and loses the user flag; panics (false) if there is no table. */
    method ClearPteU(pd: nat, v: nat) returns (ok: bool)
      requires Valid() && pd in dirs && dirs[pd] == 0 && v < UPAGES
      modifies this`mem, this`freelist, this`free, this`own
      ensures Valid() && own == old(own) && free == old(free) && (ok <==> Cell(old(mem), pd, v / 1024).present)
      ensures SameOutside(old(mem), mem, dirs, pd, v, v + 1) && DataKept(old(mem), old(own), mem, own)
      ensures Look(mem, pd, v) == NotUser(Look(old(mem), pd, v))
      ensures mem.Keys == old(mem).Keys && Contents(mem, pd, v) == Contents(old(mem), pd, v)
    {
      var t := WalkPgdir(pd, v, false);
      ok := t != 0;
      if ok {
        Open();
        assert TableAt(mem, own, pd, v / 1024) && UserAt(mem, own, pd, v);
        var w := mem[t][v % 1024];
        assert Look(mem, pd, v) == if w.present then w else ZERO;
        var w' := w.(perm := ClearU(w.perm));
        FlagUser(mem, own, dirs, pd, v, w');
        var mem' := SetEntry(mem, pd, v, w');
        FreeListKept(mem, own, freelist, free, mem', own);
        mem := mem';
        Close();
      }
    }

    /** *pte = 0 for a present user page; its frame is in the caller's hands. */
    method ClearPte(pd: nat, u: nat) returns (f: nat)
      requires Valid() && HasTable(mem, dirs, pd, u) && u < UPAGES && Look(mem, pd, u).present
      modifies this`mem, this`own
      ensures Valid() && Look(mem, pd, u) == ZERO && SameOutside(old(mem), mem, dirs, pd, u, u + 1)
      ensures f in old(own) && own == old(own)[f := Held] && Released(old(own), old(own)[f := Free], pd, u, u + 1)
      ensures DataKept(old(mem), old(own), mem, own)
    {
      Open();
      assert TableAt(mem, own, pd, u / 1024);
      UnmapUser(mem, own, dirs, pd, u);
      f := Look(mem, pd, u).frame;
      ReleaseOne(mem, own, dirs, pd, u, f);
      var mem' := SetEntry(mem, pd, u, ZERO);
      FreeListKept(mem, own, freelist, free, mem', own[f := Held]);
      RootsKept(own, own[f := Held], roots);
      mem := mem';
      own := own[f := Held];
      Close();
    }

    /** deallocuvm's work on one present page: free the frame and clear the entry. */
    method ClearPage(pd: nat, u: nat)
      requires Valid() && HasTable(mem, dirs, pd, u) && u < UPAGES && Look(mem, pd, u).present
      modifies this`mem, this`freelist, this`free, this`own
      ensures Valid() && Look(mem, pd, u) == ZERO && SameOutside(old(mem), mem, dirs, pd, u, u + 1)
      ensures Released(old(own), own, pd, u, u + 1) && DataKept(old(mem), old(own), mem, own)
    {
      var f := ClearPte(pd, u);
      ghost var m, o := mem, own;
      Kfree(f);
      assert own == old(own)[f := Free];
      KeptTrans(old(mem), old(own), m, o, mem, own);
    }

    /** One round of deallocuvm's loop. */
    method DeallocRound(pd: nat, u: nat, ghost hi: nat) returns (next: nat)
      requires Valid() && pd in dirs && dirs[pd] == 0 && u < hi <= UPAGES
      modifies this`mem, this`freelist, this`free, this`own
      ensures Valid() && u < next <= u + 1024
      ensures var to := if next < hi then next else hi;
              && (forall x :: u <= x < to ==> Look(mem, pd, x) == ZERO)
              && SameOutside(old(mem), mem, dirs, pd, u, to)
              && Released(old(own), own, pd, u, to)
              && DataKept(old(mem), old(own), mem, own)
    {
      Open();
      var t := WalkPgdir(pd, u, false);
      if t == 0 {
        // the next directory entry
        next := (u / 1024 + 1) * 1024;
        ghost var to := if next < hi then next else hi;
        assert forall x :: u <= x < to ==> Look(mem, pd, x) == ZERO;
        ReleaseNone(mem, own, dirs, pd, u, to);
      } else {
        next := u + 1;
        if mem[t][u % 1024].present {
          ClearPage(pd, u);
        } else {
          assert Look(mem, pd, u) == ZERO;
          ReleaseNone(mem, own, dirs, pd, u, u + 1);
        }
      }
    }

    /**
     deallocuvm: exactly the present pages between the two sizes are unmapped and freed,
     although the loop jumps over directory entries without a table.
     */
    method DeallocUvm(pd: nat, oldsz: nat, newsz: nat) returns (sz: nat)
      requires Valid() && pd in dirs && dirs[pd] == 0 && oldsz <= KERNBASE
      modifies this`mem, this`freelist, this`free, this`own
      ensures Valid() && sz == if newsz >= oldsz then oldsz else newsz
      ensures forall u :: PageUp(newsz) <= u < PageUp(oldsz) ==> Look(mem, pd, u) == ZERO
      ensures SameOutside(old(mem), mem, dirs, pd, PageUp(newsz), PageUp(oldsz))
      ensures Released(old(own), own, pd, PageUp(newsz), PageUp(oldsz)) && DataKept(old(mem), old(own), mem, own)
    {
      if newsz >= oldsz {
        return oldsz;
      }
      ghost var lo, hi := PageUp(newsz), PageUp(oldsz);
      var u := PageUp(newsz);
      while u * PGSIZE < oldsz
        invariant Valid() && lo <= u
        invariant forall x :: lo <= x < u && x < hi ==> Look(mem, pd, x) == ZERO
        invariant SameOutside(old(mem), mem, dirs, pd, lo, if u < hi then u else hi)
        invariant Released(old(own), own, pd, lo, if u < hi then u else hi) && DataKept(old(mem), old(own), mem, own)
        decreases hi + 1024 - u
      {
        ghost var m, o, from := mem, own, u;
        u := DeallocRound(pd, u, hi);
        ghost var to := if u < hi then u else hi;
        ReleaseMore(old(own), o, own, pd, lo, from, to);
        KeptTrans(old(mem), old(own), m, o, mem, own);
        OutsideMore(old(mem), m, mem, dirs, pd, lo, from, to);
      }
      return newsz;
    }

    /** One round of freevm's loop; pgdir[i] itself is not cleared. */
    method FreeTable(pd: nat, i: nat)
      requires Valid() && pd in dirs && dirs[pd] == i < ENTRIES
      requires forall v :: i * 1024 <= v < UPAGES ==> Look(mem, pd, v) == ZERO
      modifies this`mem, this`freelist, this`free, this`own, this`dirs
      ensures Valid() && dirs == old(dirs)[pd := i + 1]
      ensures SameLook(old(mem), mem, dirs) && DataKept(old(mem), old(own), mem, own)
      ensures forall f :: f in old(own) && old(own)[f] == Table(pd, i) ==> f in own && own[f] == Free
      ensures forall f :: f in old(own) && old(own)[f] != Table(pd, i) ==> f in own && own[f] == old(own)[f]
      ensures own.Keys == old(own).Keys
    {
      Open();
      assert DirAt(own, pd) && PageAt(mem, pd);
      OnlyTable(mem, own, dirs, pd, i);
      var e := mem[pd][i];
      assert e == Cell(mem, pd, i);
      Unhook(pd, i);
      if e.present {
        Kfree(e.frame);
      }
    }

    /** The table of entry i no longer belongs to directory pd. */
    ghost method Unhook(pd: nat, i: nat)
      requires Valid() && pd in dirs && dirs[pd] == i < ENTRIES
      requires forall v :: i * 1024 <= v < UPAGES ==> Look(mem, pd, v) == ZERO
      modifies this`own, this`dirs
      ensures Valid() && dirs == old(dirs)[pd := i + 1]
      ensures var e := Cell(mem, pd, i);
              own == if e.present then old(own)[e.frame := Held] else old(own)
      ensures Cell(mem, pd, i).present ==> Cell(mem, pd, i).frame in own && old(own)[Cell(mem, pd, i).frame] == Table(pd, i)
    {
      Open();
      DropTable(mem, own, dirs, pd);
      var e := Cell(mem, pd, i);
      assert TableAt(mem, own, pd, i);
      dirs := dirs[pd := i + 1];
      if e.present {
        FreeListKept(mem, own, freelist, free, mem, own[e.frame := Held]);
        RootsKept(own, own[e.frame := Held], roots);
        own := own[e.frame := Held];
      }
      Close();
    }

    /** freevm: every frame of directory pd, and pd itself, goes to the free list, once. */
    method FreeVm(pd: nat, dodealloc: bool)
      requires Valid() && pd in dirs && dirs[pd] == 0
      requires dodealloc || forall v :: 0 <= v < UPAGES ==> Look(mem, pd, v) == ZERO
      modifies this`mem, this`freelist, this`free, this`own, this`dirs
      ensures Valid() && dirs == old(dirs) - {pd}
      ensures SameLook(old(mem), mem, dirs) && DataKept(old(mem), old(own), mem, own)
      ensures TornDown(old(own), own, pd)
    {
      Open();
      if dodealloc {
        var _ := DeallocUvm(pd, KERNBASE, 0);
      } else {
        ReleaseNone(mem, own, dirs, pd, 0, UPAGES);
      }
      ghost var m1, o1 := mem, own;
      FreeTree(pd);
      KeptTrans(old(mem), old(own), m1, o1, mem, own);
      TearDown(old(mem), old(own), old(dirs), pd, o1, own);
    }

    /** The tables and the directory, once no user page is present. */
    method FreeTree(pd: nat)
      requires Valid() && pd in dirs && dirs[pd] == 0
      requires forall v :: 0 <= v < UPAGES ==> Look(mem, pd, v) == ZERO
      modifies this`mem, this`freelist, this`free, this`own, this`dirs
      ensures Valid() && dirs == old(dirs) - {pd}
      ensures SameLook(old(mem), mem, dirs) && DataKept(old(mem), old(own), mem, own)
      ensures TreeFreed(old(own), own, pd)
    {
      Open();
      assert DirAt(own, pd);
      FreeTables(pd);
      ghost var m2, o2 := mem, own;
      FreeDir(pd);
      KeptTrans(old(mem), old(own), m2, o2, mem, own);
    }

    method FreeDir(pd: nat)
      requires Valid() && pd in dirs && dirs[pd] == ENTRIES
      modifies this`mem, this`freelist, this`free, this`own, this`dirs
      ensures Valid() && dirs == old(dirs) - {pd} && own == old(own)[pd := Free]
      ensures SameLook(old(mem), mem, dirs) && DataKept(old(mem), old(own), mem, own)
    {
      Open();
      DropDir(mem, own, dirs, pd);
      FreeListKept(mem, own, freelist, free, mem, own[pd := Held]);
      RootsKept(own, own[pd := Held], roots);
      own := own[pd := Held];
      dirs := dirs - {pd};
      Close();
      Kfree(pd);
    }

    method FreeTables(pd: nat)
      requires Valid() && pd in dirs && dirs[pd] == 0
      requires forall v :: 0 <= v < UPAGES ==> Look(mem, pd, v) == ZERO
      modifies this`mem, this`freelist, this`free, this`own, this`dirs
      ensures Valid() && dirs == old(dirs)[pd := ENTRIES]
      ensures SameLook(old(mem), mem, dirs) && DataKept(old(mem), old(own), mem, own)
      ensures TablesFreed(old(own), own, pd, ENTRIES)
    {
      var i := 0;
      while i < ENTRIES
        invariant 0 <= i <= ENTRIES && Valid() && dirs == old(dirs)[pd := i]
        invariant forall v :: i * 1024 <= v < UPAGES ==> Look(mem, pd, v) == ZERO
        invariant SameLook(old(mem), mem, dirs) && DataKept(old(mem), old(own), mem, own)
        invariant TablesFreed(old(own), own, pd, i)
      {
        ghost var m, o := mem, own;
        FreeTable(pd, i);
        TablesMore(old(own), o, own, pd, i);
        KeptTrans(old(mem), old(own), m, o, mem, own);
        i := i + 1;
      }
    }

    /** One turn of mappages's loop. */
    method MapNext(pd: nat, first: nat, a: nat, frame: nat, perm: nat, ghost mem0: Memory, ghost own0: Owners) returns (r: MapResult)
      requires Valid() && pd in dirs && dirs[pd] == 0 && UPAGES <= first <= a < VPAGES
      requires mem0.Keys == own0.Keys == mem.Keys && Mapping(mem0, own0, mem, own, dirs, pd, first, a, frame, perm)
      modifies this`mem, this`freelist, this`free, this`own
      ensures Valid() && mem.Keys == old(mem).Keys
      ensures r.Mapped? ==> Mapping(mem0, own0, mem, own, dirs, pd, first, a + 1, frame, perm)
      ensures !r.Mapped? ==> OnlyTakes(own0, own, pd) && DataKept(mem0, own0, mem, own) && SameOutside(mem0, mem, dirs, pd, first, a)
      ensures r.Remap? ==> Look(mem0, pd, a).present
      ensures var more := Absent(mem0, pd, first / 1024, EndEntry(first, a + 1)) - Absent(mem0, pd, first / 1024, EndEntry(first, a));
              && (r.Mapped? ==> |free| == |old(free)| - more)
              && (r.NoMemory? ==> |old(free)| < more)
    {
      ghost var m, o := mem, own;
      MappingFacts(mem0, own0, mem, own, dirs, pd, first, a, frame, perm);
      EntryStep(mem0, mem, mem, pd, first, a);
      r := MapPage(pd, a, frame + (a - first), perm);
      if r.Mapped? {
        MappingMore(mem0, own0, m, o, mem, own, dirs, pd, first, a, frame, perm);
      }
    }

    /** mappages over `count` pages of the kernel's part of directory pd. */
    method MapPages(pd: nat, first: nat, count: nat, frame: nat, perm: nat) returns (r: MapResult)
      requires Valid() && pd in dirs && dirs[pd] == 0
      requires UPAGES <= first && 0 < count && first + count <= VPAGES
      modifies this`mem, this`freelist, this`free, this`own
      ensures Valid() && OnlyTakes(old(own), own, pd) && DataKept(old(mem), old(own), mem, own)
      ensures SameOutside(old(mem), mem, dirs, pd, first, first + count)
      ensures r.Mapped? ==> forall u :: first <= u < first + count ==> Look(mem, pd, u) == Entry(frame + (u - first), perm)
      ensures r.Remap? ==> exists u :: first <= u < first + count && Look(old(mem), pd, u).present
      ensures var need := Absent(old(mem), pd, first / 1024, (first + count - 1) / 1024 + 1);
              && (r.Mapped? ==> |free| == |old(free)| - need)
              && (r.NoMemory? ==> |old(free)| < need)
      ensures r.Mapped? ==> Tabled(old(mem), mem, pd, first / 1024, (first + count - 1) / 1024 + 1)
    {
      var a := first;
      MappingStarts(mem, own, dirs, pd, first, frame, perm);
      while true
        invariant Valid() && first <= a < first + count && mem.Keys == old(mem).Keys
        invariant Mapping(old(mem), old(own), mem, own, dirs, pd, first, a, frame, perm)
        invariant |free| == |old(free)| - Absent(old(mem), pd, first / 1024, EndEntry(first, a))
        decreases first + count - a
      {
        r := MapNext(pd, first, a, frame, perm, old(mem), old(own));
        if !r.Mapped? {
          AbsentMore(old(mem), pd, first / 1024, EndEntry(first, a + 1), (first + count - 1) / 1024 + 1);
          return;
        }
        if a == first + count - 1 {
          MappingFacts(old(mem), old(own), mem, own, dirs, pd, first, a + 1, frame, perm);
          assert EndEntry(first, a + 1) == (first + count - 1) / 1024 + 1;
          return;
        }
        a := a + 1;
      }
    }

    /** setupkvm's first step: an empty directory. */
    method NewSpace() returns (pd: nat)
      requires Valid()
      modifies this
      ensures Valid() && roots == old(roots) && SameLook(old(mem), mem, old(dirs)) && DataKept(old(mem), old(own), mem, own)
      ensures pd == 0 <==> old(free) == []
      ensures pd != 0 ==> |free| == |old(free)| - 1 && forall e :: 0 <= e < ENTRIES ==> !Cell(mem, pd, e).present
      ensures pd == 0 ==> own == old(own) && dirs == old(dirs)
      ensures pd != 0 ==> pd !in old(dirs) && dirs == old(dirs)[pd := 0] && Built(old(own), own, pd)
      ensures pd != 0 ==> forall u :: 0 <= u < VPAGES ==> Look(mem, pd, u) == ZERO
    {
      Open();
      pd := Kalloc();
      if pd != 0 {
        Fill(pd, ZeroPage());
        MakeDir(pd);
        assert old(own)[pd := Held][pd := Dir] == old(own)[pd := Dir];
      }
    }

    /** A zeroed page becomes a directory. */
    ghost method MakeDir(pd: nat)
      requires Valid() && pd in own && own[pd] == Held && mem[pd] == ZeroPage()
      modifies this`own, this`dirs
      ensures Valid() && pd !in old(dirs) && own == old(own)[pd := Dir] && dirs == old(dirs)[pd := 0]
    {
      Open();
      NewDir(mem, own, dirs, pd);
      FreeListKept(mem, own, freelist, free, mem, own[pd := Dir]);
      RootsKept(own, own[pd := Dir], roots);
      own := own[pd := Dir];
      dirs := dirs[pd := 0];
      Close();
    }

    /** setupkvm's loop over kmap. */
    method MapRows(pd: nat, rows: seq<Kmap>) returns (ok: bool)
      requires Valid() && pd in dirs && dirs[pd] == 0 && RowsOk(rows)
      requires forall u :: 0 <= u < VPAGES ==> Look(mem, pd, u) == ZERO
      requires forall e :: 0 <= e < ENTRIES ==> !Cell(mem, pd, e).present
      modifies this`mem, this`freelist, this`free, this`own
      ensures Valid() && OnlyTakes(old(own), own, pd) && DataKept(old(mem), old(own), mem, own)
      ensures SameOutside(old(mem), mem, dirs, pd, UPAGES, VPAGES)
      ensures ok ==> forall u :: 0 <= u < VPAGES ==> Look(mem, pd, u) == RowsMap(rows, u)
      ensures ok <==> |old(free)| >= TablesFor(rows)
      ensures ok ==> |free| == |old(free)| - TablesFor(rows)
      ensures ok ==> forall e :: 0 <= e < ENTRIES ==> (Cell(mem, pd, e).present <==> Spanned(rows, e))
    {
      var i := 0;
      assert rows[..0] == [];
      SpanNone(rows[..0], ENTRIES);
      while i < |rows|
        invariant 0 <= i <= |rows| && Valid()
        invariant OnlyTakes(old(own), own, pd) && DataKept(old(mem), old(own), mem, own)
        invariant SameOutside(old(mem), mem, dirs, pd, UPAGES, VPAGES)
        invariant forall u :: 0 <= u < VPAGES ==> Look(mem, pd, u) == RowsMap(rows[..i], u)
        invariant forall e :: 0 <= e < ENTRIES ==> (Cell(mem, pd, e).present <==> Spanned(rows[..i], e))
        invariant |free| == |old(free)| - TablesFor(rows[..i])
      {
        ghost var m, o := mem, own;
        ok := MapRow(pd, rows, i);
        TakesTrans(old(mem), old(own), m, o, mem, own, pd);
        SpanMore(rows, i + 1, ENTRIES);
        if !ok {
          return;
        }
        i := i + 1;
      }
      assert rows[..i] == rows;
      return true;
    }

    /** Row i of kmap, when the rows before it are mapped. */
    method MapRow(pd: nat, rows: seq<Kmap>, i: nat) returns (ok: bool)
      requires Valid() && pd in dirs && dirs[pd] == 0 && RowsOk(rows) && i < |rows|
      requires forall u :: 0 <= u < VPAGES ==> Look(mem, pd, u) == RowsMap(rows[..i], u)
      requires forall e :: 0 <= e < ENTRIES ==> (Cell(mem, pd, e).present <==> Spanned(rows[..i], e))
      modifies this`mem, this`freelist, this`free, this`own
      ensures Valid() && OnlyTakes(old(own), own, pd) && DataKept(old(mem), old(own), mem, own)
      ensures SameOutside(old(mem), mem, dirs, pd, UPAGES, VPAGES)
      ensures ok ==> forall u :: 0 <= u < VPAGES ==> Look(mem, pd, u) == RowsMap(rows[..i + 1], u)
      ensures ok ==> forall e :: 0 <= e < ENTRIES ==> (Cell(mem, pd, e).present <==> Spanned(rows[..i + 1], e))
      ensures var more := TablesFor(rows[..i + 1]) - TablesFor(rows[..i]);
              if ok then |free| == |old(free)| - more else |old(free)| < more
    {
      var k := rows[i];
      RowAhead(mem, pd, rows, i);
      var r := MapPages(pd, k.virt, k.count, k.frame, k.perm);
      if r.Mapped? {
        RowMapped(old(mem), mem, dirs, pd, rows, i);
      }
      ok := r.Mapped?;
    }

    /** setupkvm: a directory with the kernel's part, or nothing at all. */
    method SetupKvm(rows: seq<Kmap>) returns (pd: nat)
      requires Valid() && RowsOk(rows)
      modifies this
      ensures Valid() && roots == old(roots) && SameLook(old(mem), mem, old(dirs)) && DataKept(old(mem), old(own), mem, own)
      ensures pd == 0 ==> own == old(own) && dirs == old(dirs)
      ensures pd != 0 ==> pd !in old(dirs) && dirs == old(dirs)[pd := 0] && Built(old(own), own, pd)
      ensures pd != 0 ==> forall u :: 0 <= u < VPAGES ==> Look(mem, pd, u) == RowsMap(rows, u)
      ensures pd != 0 <==> |old(free)| >= 1 + TablesFor(rows)
      ensures pd != 0 ==> |free| == |old(free)| - 1 - TablesFor(rows)
      ensures pd != 0 ==> forall e :: 0 <= e < ENTRIES ==> (Cell(mem, pd, e).present <==> Spanned(rows, e))
    {
      Seal();
      pd := NewSpace();
      if pd == 0 {
        return;
      }
      ghost var m1, o1 := mem, own;
      var ok := MapRows(pd, rows);
      ghost var m2, o2 := mem, own;
      BuiltTakes(old(mem), old(own), m1, o1, m2, o2, pd);
      if !ok {
        DropSpace(pd, false, old(mem), old(own), old(dirs));
        pd := 0;
      }
    }

    /** freevm of a half-built directory undoes the building. */
    method DropSpace(pd: nat, dodealloc: bool, ghost mem0: Memory, ghost own0: Owners, ghost dirs0: Dirs)
      requires Valid() && Sealed(mem0, own0, dirs0) && pd !in dirs0 && dirs == dirs0[pd := 0] && Built(own0, own, pd)
      requires SameLook(mem0, mem, dirs0) && DataKept(mem0, own0, mem, own)
      requires dodealloc || forall v :: 0 <= v < UPAGES ==> !Look(mem, pd, v).present
      modifies this
      ensures Valid() && own == own0 && dirs == dirs0 && roots == old(roots)
      ensures SameLook(mem0, mem, dirs0) && DataKept(mem0, own0, mem, own)
    {
      ghost var m2, o2 := mem, own;
      FreeVm(pd, dodealloc);
      BuiltThenTorn(mem0, own0, dirs0, o2, own, pd);
      KeptTrans(mem0, own0, m2, o2, mem, own);
      assert dirs == dirs0;
    }
  }
}
