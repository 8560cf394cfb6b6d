/**
 The Kernighan and Ritchie allocator of user/umalloc.c (section 8.7 of The C Programming
 Language, 2nd edition).  Addresses and sizes count units of sizeof(Header) == 8 bytes.
 */
module Umalloc {

  import opened Params

  const HEADER: nat := 8
  const MINCORE: nat := 4096

  datatype Header = Header(ptr: nat, size: nat)

  /** A block: its header's address and its size, header included. */
  datatype Block = Block(addr: nat, size: nat) {
    function End(): nat {
      addr + size
    }
  }

  type Memory = map<nat, Header>

  // ---- The free list as a sequence: base first, then increasing addresses ----

  ghost predicate Apart(a: Block, b: Block) {
    a.End() <= b.addr || b.End() <= a.addr
  }

  /** Sorted by address, and no block touches the next. */
  ghost predicate Sorted(free: seq<Block>) {
    forall i, j :: 0 <= i < j < |free| ==> free[i].End() < free[j].addr
  }

  ghost predicate Ring(base: nat, free: seq<Block>) {
    && |free| > 0
    && free[0] == Block(base, 0)
    && Sorted(free)
    && (forall i :: 0 < i < |free| ==> free[i].size > 0)
  }

  /** The one wrap point: the last block points back to base. */
  function Succ(free: seq<Block>, i: nat): nat
    requires i < |free|
  {
    if i + 1 < |free| then free[i + 1].addr else free[0].addr
  }

  ghost predicate LinkAt(mem: Memory, free: seq<Block>, i: nat)
    requires i < |free|
  {
    free[i].addr in mem && mem[free[i].addr] == Header(Succ(free, i), free[i].size)
  }

  ghost predicate Linked(mem: Memory, free: seq<Block>) {
    forall i {:trigger LinkAt(mem, free, i)} :: 0 <= i < |free| ==> LinkAt(mem, free, i)
  }

  ghost predicate AllApart(blocks: seq<Block>) {
    forall i, j :: 0 <= i < j < |blocks| ==> Apart(blocks[i], blocks[j])
  }

  function Units(blocks: seq<Block>): nat {
    if blocks == [] then 0 else blocks[0].size + Units(blocks[1..])
  }

  lemma UnitsConcat(a: seq<Block>, b: seq<Block>)
    ensures Units(a + b) == Units(a) + Units(b)
  {
    if a == [] {
      assert a + b == b;
    } else {
      assert (a + b)[1..] == a[1..] + b;
      UnitsConcat(a[1..], b);
    }
  }

  /** A stretch of the list whose last block points to `last`. */
  function SuccIn(x: seq<Block>, i: nat, last: nat): nat
    requires i < |x|
  {
    if i + 1 < |x| then x[i + 1].addr else last
  }

  ghost predicate LinkToAt(mem: Memory, x: seq<Block>, last: nat, i: nat)
    requires i < |x|
  {
    x[i].addr in mem && mem[x[i].addr] == Header(SuccIn(x, i, last), x[i].size)
  }

  ghost predicate LinkedTo(mem: Memory, x: seq<Block>, last: nat) {
    forall i {:trigger LinkToAt(mem, x, last, i)} :: 0 <= i < |x| ==> LinkToAt(mem, x, last, i)
  }

  /** Replace free[t..u] by x. */
  function Splice(free: seq<Block>, t: nat, u: nat, x: seq<Block>): (r: seq<Block>)
    requires t < u <= |free|
  {
    free[..t] + x + free[u..]
  }

  lemma SpliceUnits(free: seq<Block>, t: nat, u: nat, x: seq<Block>)
    requires t < u <= |free|
    ensures Units(Splice(free, t, u, x)) + Units(free[t..u]) == Units(free) + Units(x)
  {
    UnitsConcat(free[..t] + x, free[u..]);
    UnitsConcat(free[..t], x);
    assert free == free[..t] + free[t..u] + free[u..];
    UnitsConcat(free[..t] + free[t..u], free[u..]);
    UnitsConcat(free[..t], free[t..u]);
  }

  /** The new links, when x starts where free[t] did and is linked up to free[u]. */
  lemma SpliceLinked(mem: Memory, mem': Memory, free: seq<Block>, t: nat, u: nat, x: seq<Block>)
    requires Linked(mem, free) && t < u <= |free| && |x| > 0 && x[0].addr == free[t].addr
    requires forall i :: 0 <= i < |free| && !(t <= i < u) ==>
               free[i].addr in mem' && free[i].addr in mem && mem'[free[i].addr] == mem[free[i].addr]
    requires LinkedTo(mem', x, Succ(free, u - 1))
    ensures Linked(mem', Splice(free, t, u, x))
  {
    var r := Splice(free, t, u, x);
    assert r[0].addr == free[0].addr;
    forall i | 0 <= i < |r|
      ensures LinkAt(mem', r, i)
    {
      SpliceAt(free, t, u, x, i);
      if i + 1 < |r| {
        SpliceAt(free, t, u, x, i + 1);
      }
      if i < t {
        assert LinkAt(mem, free, i);
        assert Succ(r, i) == Succ(free, i);
      } else if i < t + |x| {
        assert LinkToAt(mem', x, Succ(free, u - 1), i - t);
        assert Succ(r, i) == SuccIn(x, i - t, Succ(free, u - 1));
      } else {
        assert LinkAt(mem, free, i - t - |x| + u);
        assert Succ(r, i) == Succ(free, i - t - |x| + u);
      }
    }
  }

  lemma SpliceRing(base: nat, free: seq<Block>, t: nat, u: nat, x: seq<Block>)
    requires Ring(base, free) && t < u <= |free| && |x| > 0 && x[0].addr == free[t].addr
    requires Sorted(x) && (forall i :: 0 <= i < |x| && t + i > 0 ==> x[i].size > 0)
    requires t == 0 ==> x[0] == free[0]
    requires u < |free| ==> x[|x| - 1].End() < free[u].addr
    ensures Ring(base, Splice(free, t, u, x))
  {
    var r := Splice(free, t, u, x);
    forall i, j | 0 <= i < j < |r|
      ensures r[i].End() < r[j].addr
    {
      SpliceSorted(base, free, t, u, x, i, j);
    }
    forall i | 0 <= i < |r| && i > 0
      ensures r[i].size > 0
    {
      SpliceAt(free, t, u, x, i);
    }
    SpliceAt(free, t, u, x, 0);
  }

  lemma SpliceSorted(base: nat, free: seq<Block>, t: nat, u: nat, x: seq<Block>, i: nat, j: nat)
    requires Ring(base, free) && t < u <= |free| && |x| > 0 && x[0].addr == free[t].addr && Sorted(x)
    requires u < |free| ==> x[|x| - 1].End() < free[u].addr
    requires i < j < |Splice(free, t, u, x)|
    ensures Splice(free, t, u, x)[i].End() < Splice(free, t, u, x)[j].addr
  {
    SpliceAt(free, t, u, x, i);
    SpliceAt(free, t, u, x, j);
    if i < t {
      assert free[i].End() < free[t].addr;
    } else if i < t + |x| <= j {
      assert i - t == |x| - 1 || x[i - t].End() < x[|x| - 1].addr;
    }
  }

  lemma SpliceAt(free: seq<Block>, t: nat, u: nat, x: seq<Block>, i: nat)
    requires t < u <= |free| && i < |Splice(free, t, u, x)|
    ensures Splice(free, t, u, x)[i]
            == if i < t then free[i] else if i < t + |x| then x[i - t] else free[i - t - |x| + u]
  {
  }

  // ---- Live blocks ----

  /** Live blocks lie above base and below the break, apart from each other and from the free ones. */
  ghost predicate Separate(base: nat, free: seq<Block>, live: seq<Block>, brk: nat) {
    && AllApart(live)
    && (forall j :: 0 <= j < |live| ==> live[j].size > 0 && base < live[j].addr && live[j].End() <= brk)
    && (forall i, j :: 0 <= i < |free| && 0 <= j < |live| ==> Apart(free[i], live[j]))
    && (forall i :: 0 <= i < |free| ==> free[i].End() <= brk)
  }

  ghost predicate Headed(mem: Memory, live: seq<Block>) {
    forall j :: 0 <= j < |live| ==> live[j].addr in mem && mem[live[j].addr].size == live[j].size
  }

  lemma WithoutAt(s: seq<Block>, k: nat, i: nat)
    requires k < |s| && i < |s| - 1
    ensures Without(s, k)[i] == s[if i < k then i else i + 1]
  {
  }

  lemma WithoutUnits(s: seq<Block>, k: nat)
    requires k < |s|
    ensures Units(Without(s, k)) == Units(s) - s[k].size
  {
    UnitsConcat(s[..k], s[k + 1..]);
    assert s == s[..k] + ([s[k]] + s[k + 1..]);
    UnitsConcat(s[..k], [s[k]] + s[k + 1..]);
    UnitsConcat([s[k]], s[k + 1..]);
  }

  // ---- Putting a block on the free list ----

  /** b belongs between free[t] and its successor. */
  ghost predicate Place(free: seq<Block>, t: nat, b: Block) {
    && t < |free|
    && free[t].End() <= b.addr
    && (t + 1 < |free| ==> b.End() <= free[t + 1].addr)
  }

  predicate JoinsUp(free: seq<Block>, t: nat, b: Block) {
    t + 1 < |free| && b.End() == free[t + 1].addr
  }

  predicate JoinsDown(free: seq<Block>, t: nat, b: Block)
    requires t < |free|
  {
    free[t].End() == b.addr
  }

  /** b with the block above it, if they touch. */
  function Upper(free: seq<Block>, t: nat, b: Block): Block {
    if JoinsUp(free, t, b) then Block(b.addr, b.size + free[t + 1].size) else b
  }

  /** What takes the place of free[t] (and of free[t + 1], if b touches it). */
  function Joint(free: seq<Block>, t: nat, b: Block): (x: seq<Block>)
    requires t < |free|
    ensures |x| > 0
  {
    var u := Upper(free, t, b);
    if JoinsDown(free, t, b) then [Block(free[t].addr, free[t].size + u.size)] else [free[t], u]
  }

  function Until(free: seq<Block>, t: nat, b: Block): nat
  {
    if JoinsUp(free, t, b) then t + 2 else t + 1
  }

  /** free: the list with b on it, joined to the neighbours it touches. */
  function Inserted(free: seq<Block>, t: nat, b: Block): seq<Block>
    requires t < |free|
  {
    Splice(free, t, Until(free, t, b), Joint(free, t, b))
  }

  lemma InsertedRing(base: nat, free: seq<Block>, t: nat, b: Block)
    requires Ring(base, free) && Place(free, t, b) && b.size > 0 && base < b.addr
    ensures Ring(base, Inserted(free, t, b))
    ensures Units(Inserted(free, t, b)) == Units(free) + b.size
  {
    var u := Until(free, t, b);
    var x := Joint(free, t, b);
    SpliceRing(base, free, t, u, x);
    SpliceUnits(free, t, u, x);
    UnitsOne(free[t]);
    if JoinsUp(free, t, b) {
      assert free[t..u] == [free[t], free[t + 1]];
    } else {
      assert free[t..u] == [free[t]];
    }
    UnitsShort(x);
    UnitsShort(free[t..u]);
  }

  lemma InsertedHas(free: seq<Block>, t: nat, b: Block) returns (q: nat)
    requires t < |free|
    ensures t < |Inserted(free, t, b)| && Inserted(free, t, b)[t].addr == free[t].addr
    ensures q < |Inserted(free, t, b)| && Inserted(free, t, b)[q].size >= b.size
    ensures !JoinsUp(free, t, b) ==> Inserted(free, t, b)[q].End() == b.End()
    ensures forall i :: 0 <= i < |Inserted(free, t, b)| && i != q ==> Inserted(free, t, b)[i] in free
  {
    q := if JoinsDown(free, t, b) then t else t + 1;
    var u, x := Until(free, t, b), Joint(free, t, b);
    SpliceAt(free, t, u, x, q);
    SpliceAt(free, t, u, x, t);
    forall i | 0 <= i < |Inserted(free, t, b)| && i != q ensures Inserted(free, t, b)[i] in free {
      SpliceAt(free, t, u, x, i);
    }
  }

  predicate In(b: Block, a: nat) {
    b.addr <= a < b.End()
  }

  /** Unit a belongs to a block of the list. */
  ghost predicate Covered(free: seq<Block>, a: nat) {
    exists i :: 0 <= i < |free| && In(free[i], a)
  }

  lemma CoveredSplice(free: seq<Block>, t: nat, u: nat, x: seq<Block>, a: nat)
    requires t < u <= |free|
    ensures Covered(Splice(free, t, u, x), a) <==> Covered(free[..t], a) || Covered(x, a) || Covered(free[u..], a)
    ensures Covered(free, a) <==> Covered(free[..t], a) || Covered(free[t..u], a) || Covered(free[u..], a)
  {
    CoveredSum(free[..t], x, a);
    CoveredSum(free[..t] + x, free[u..], a);
    CoveredSum(free[..t], free[t..u], a);
    CoveredSum(free[..t] + free[t..u], free[u..], a);
    assert free[..t] + free[t..u] + free[u..] == free;
  }

  lemma CoveredSum(x: seq<Block>, y: seq<Block>, a: nat)
    ensures Covered(x + y, a) <==> Covered(x, a) || Covered(y, a)
  {
    if i :| 0 <= i < |x| && In(x[i], a) {
      assert In((x + y)[i], a);
    }
    if i :| 0 <= i < |y| && In(y[i], a) {
      assert In((x + y)[|x| + i], a);
    }
  }

  lemma CoveredOne(b: Block, a: nat)
    ensures Covered([b], a) <==> In(b, a)
  {
    assert [b][0] == b;
  }

  lemma CoveredTwo(b: Block, c: Block, a: nat)
    ensures Covered([b, c], a) <==> In(b, a) || In(c, a)
  {
    assert [b, c][0] == b && [b, c][1] == c;
  }

  /** The list with b on it covers what it did and b; being sorted without touching blocks, it is the one list that does. */
  lemma InsertedCovers(free: seq<Block>, t: nat, b: Block, a: nat)
    requires t < |free|
    ensures Covered(Inserted(free, t, b), a) <==> Covered(free, a) || In(b, a)
  {
    var u, x, v := Until(free, t, b), Joint(free, t, b), Upper(free, t, b);
    CoveredSplice(free, t, u, x, a);
    if JoinsUp(free, t, b) {
      assert free[t..u] == [free[t], free[t + 1]];
      CoveredTwo(free[t], free[t + 1], a);
    } else {
      assert free[t..u] == [free[t]];
      CoveredOne(free[t], a);
    }
    CoveredTwo(free[t], v, a);
    CoveredOne(Block(free[t].addr, free[t].size + v.size), a);
  }

  lemma UnitsOne(b: Block)
    ensures Units([b]) == b.size
  {
  }

  lemma UnitsShort(x: seq<Block>)
    requires |x| == 1 || |x| == 2
    ensures Units(x) == if |x| == 1 then x[0].size else x[0].size + x[1].size
  {
    if |x| == 2 {
      assert x == [x[0]] + [x[1]];
      UnitsConcat([x[0]], [x[1]]);
    } else {
      assert x == [x[0]];
    }
  }

  /** The joined list covers only what the old list and b covered. */
  lemma InsertedSeparate(base: nat, free: seq<Block>, live: seq<Block>, brk: nat, t: nat, k: nat)
    requires Ring(base, free) && Separate(base, free, live, brk) && k < |live| && Place(free, t, live[k])
    ensures Separate(base, Inserted(free, t, live[k]), Without(live, k), brk)
  {
    var b := live[k];
    var r := Inserted(free, t, b);
    var rest := Without(live, k);
    forall i | 0 <= i < |rest|
      ensures rest[i].size > 0 && base < rest[i].addr && rest[i].End() <= brk
      ensures forall j :: 0 <= j < |r| ==> Apart(r[j], rest[i])
      ensures forall j :: i < j < |rest| ==> Apart(rest[i], rest[j])
    {
      WithoutAt(live, k, i);
      var c := rest[i];
      var m := if i < k then i else i + 1;
      assert Apart(b, c) by {
        if m < k { assert Apart(live[m], live[k]); } else { assert Apart(live[k], live[m]); }
      }
      forall j | 0 <= j < |r|
        ensures Apart(r[j], c)
      {
        SpliceAt(free, t, Until(free, t, b), Joint(free, t, b), j);
        assert forall q :: 0 <= q < |free| ==> Apart(free[q], live[m]);
      }
      forall j | i < j < |rest|
        ensures Apart(c, rest[j])
      {
        WithoutAt(live, k, j);
        assert Apart(live[m], live[if j < k then j else j + 1]);
      }
    }
    forall j | 0 <= j < |r|
      ensures r[j].End() <= brk
    {
      SpliceAt(free, t, Until(free, t, b), Joint(free, t, b), j);
    }
  }

  // ---- Sizes, in 32-bit arithmetic ----

  /** malloc's nunits: the sum wraps. */
  function Nunits(nbytes: nat): (n: nat)
    ensures 1 <= n
    ensures nbytes + HEADER - 1 < UINT ==> nbytes <= (n - 1) * HEADER < nbytes + HEADER
  {
    (nbytes + HEADER - 1) % UINT / HEADER + 1
  }

  /** The block holds nbytes besides its header exactly when the sum does not wrap. */
  lemma LargeEnough(nbytes: nat)
    requires nbytes < UINT
    ensures (Nunits(nbytes) - 1) * HEADER >= nbytes <==> nbytes + HEADER - 1 < UINT
  {
  }

  function Core(nu: nat): (n: nat)
    ensures nu <= n && MINCORE <= n && (n == nu || n == MINCORE)
  {
    if nu < MINCORE then MINCORE else nu
  }

  /** morecore's argument to sbrk: nu * sizeof(Header) as an int. */
  function SbrkArg(nu: nat): int {
    var n := Core(nu) * HEADER % UINT;
    if n < UINT / 2 then n else n - UINT
  }

  /** sbrk grows the heap only if its argument is positive. */
  predicate Grows(nu: nat) {
    SbrkArg(nu) > 0
  }

  lemma GrowsWhen(nbytes: nat)
    requires nbytes < UINT
    ensures Grows(Nunits(nbytes)) <==> nbytes < UINT / 2 - 15 || nbytes + HEADER - 1 >= UINT
  {
  }

  /** A request of 2^32 - 1 bytes wraps round: one unit, no payload. */
  lemma WrappingRequest()
    ensures Nunits(0xFFFF_FFFF) == 1
  {
  }

  /** Requests just short of 2^31 and of 2^32 make morecore shrink the heap, or ask for nothing. */
  lemma ShrinkingRequests()
    ensures SbrkArg(Nunits(0x7FFF_FFF1)) == -0x8000_0000 && !Grows(Nunits(0x7FFF_FFF1))
    ensures SbrkArg(Nunits(0xFFFF_FFF8)) == 0 && !Grows(Nunits(0xFFFF_FFF8))
  {
  }

  // ---- Walking the ring ----

  /** Steps from block i to block f. */
  function Dist(i: nat, f: nat, n: nat): nat
    requires i < n && f < n
  {
    if i <= f then f - i else n - i + f
  }

  function Next(i: nat, n: nat): nat {
    if i + 1 < n then i + 1 else 0
  }

  lemma DistNext(i: nat, f: nat, n: nat)
    requires i < n && f < n && i != f
    ensures Next(i, n) < n && Dist(Next(i, n), f, n) == Dist(i, f, n) - 1
  {
  }

  lemma {:induction false} TargetFrom(base: nat, free: seq<Block>, b: Block, i: nat) returns (t: nat)
    requires Ring(base, free) && b.size > 0 && i < |free| && free[i].addr < b.addr
    requires forall j :: 0 <= j < |free| ==> Apart(free[j], b)
    ensures Place(free, t, b)
    decreases |free| - i
  {
    assert Apart(free[i], b);
    if i + 1 == |free| {
      t := i;
    } else if free[i + 1].addr < b.addr {
      t := TargetFrom(base, free, b, i + 1);
    } else {
      assert Apart(free[i + 1], b);
      t := i;
    }
  }

  /** free's two tests recognise exactly the block after which b belongs. */
  lemma PlaceTests(base: nat, free: seq<Block>, b: Block, t: nat, i: nat)
    requires Ring(base, free) && b.size > 0 && base < b.addr && Place(free, t, b) && i < |free|
    ensures var p, q := free[i].addr, Succ(free, i);
            (b.addr > p && b.addr < q) || (p >= q && (b.addr > p || b.addr < q)) <==> i == t
  {
    if i < t {
      assert free[i].End() < free[t].addr;
      assert free[i + 1].addr <= free[t].addr;
    } else if t < i {
      assert free[t + 1].addr <= free[i].addr;
      assert i + 1 < |free| ==> free[i].End() < free[i + 1].addr;
    }
  }

  lemma LinkFacts(base: nat, free: seq<Block>, t: nat, b: Block)
    requires Ring(base, free) && Place(free, t, b) && b.size > 0 && base < b.addr
    ensures forall i :: 0 <= i < |free| ==> free[i].addr != b.addr
    ensures forall i :: 0 <= i < |free| && i != t ==> free[i].addr != free[t].addr
    ensures JoinsUp(free, t, b) <==> b.End() == Succ(free, t)
  {
    forall i | 0 <= i < |free|
      ensures free[i].addr != b.addr
    {
      if i < t {
        assert free[i].End() < free[t].addr;
      } else if t + 1 < i {
        assert free[t + 1].End() < free[i].addr;
      }
    }
    forall i | 0 <= i < |free| && i != t
      ensures free[i].addr != free[t].addr
    {
      if i < t {
        assert free[i].End() < free[t].addr;
      } else {
        assert free[t].End() < free[i].addr;
      }
    }
  }

  /** The headers free writes: bp's, joined to the next block or pointing to it, then p's. */
  lemma Relinked(base: nat, mem: Memory, free: seq<Block>, t: nat, b: Block, h: Header, mem': Memory)
    requires Ring(base, free) && Linked(mem, free) && Place(free, t, b) && b.size > 0 && base < b.addr
    requires var next := Succ(free, t);
             next in mem &&
             h == if b.End() == next then Header(mem[next].ptr, b.size + mem[next].size) else Header(next, b.size)
    requires mem' == mem[b.addr := h][free[t].addr :=
               if JoinsDown(free, t, b) then Header(h.ptr, free[t].size + h.size) else Header(b.addr, free[t].size)]
    ensures Linked(mem', Inserted(free, t, b))
  {
    LinkFacts(base, free, t, b);
    var x, u := Joint(free, t, b), Until(free, t, b);
    if JoinsUp(free, t, b) {
      assert LinkAt(mem, free, t + 1);
    }
    assert h == Header(Succ(free, u - 1), Upper(free, t, b).size);
    assert LinkToAt(mem', x, Succ(free, u - 1), 0);
    assert |x| == 2 ==> LinkToAt(mem', x, Succ(free, u - 1), 1);
    forall i | 0 <= i < |free| && !(t <= i < u)
      ensures free[i].addr in mem && free[i].addr in mem' && mem'[free[i].addr] == mem[free[i].addr]
    {
      assert LinkAt(mem, free, i);
    }
    SpliceLinked(mem, mem', free, t, u, x);
  }

  /** The headers of the other live blocks are neither the freed one nor on the list. */
  lemma HeadsKept(base: nat, free: seq<Block>, live: seq<Block>, brk: nat, t: nat, k: nat, mem: Memory, mem': Memory)
    requires Ring(base, free) && Separate(base, free, live, brk) && t < |free| && k < |live| && Headed(mem, live)
    requires forall a :: a in mem ==> a in mem'
    requires forall a :: a in mem && a != live[k].addr && a != free[t].addr ==> mem'[a] == mem[a]
    ensures Headed(mem', Without(live, k))
  {
    var rest := Without(live, k);
    forall j | 0 <= j < |rest|
      ensures rest[j].addr in mem' && mem'[rest[j].addr].size == rest[j].size
    {
      WithoutAt(live, k, j);
      var m := if j < k then j else j + 1;
      assert Apart(free[t], live[m]);
      if m < k { assert Apart(live[m], live[k]); } else { assert Apart(live[k], live[m]); }
    }
  }

  // ---- malloc's search, from the block after freep round to freep ----

  /** Some free block has at least n units. */
  ghost predicate Fitting(free: seq<Block>, n: nat) {
    exists i :: 0 <= i < |free| && free[i].size >= n
  }

  ghost predicate At(free: seq<Block>, i: nat, p: nat) {
    i < |free| && free[i].addr == p
  }

  ghost predicate After(free: seq<Block>, i: nat, prevp: nat, p: nat) {
    At(free, i, p) && (i > 0 ==> free[i - 1].addr == prevp)
  }

  lemma AfterNext(mem: Memory, free: seq<Block>, i: nat)
    requires i < |free| && LinkAt(mem, free, i)
    ensures After(free, Next(i, |free|), free[i].addr, mem[free[i].addr].ptr)
  {
  }

  /** The blocks visited before i are too small. */
  ghost predicate Searched(free: seq<Block>, f: nat, i: nat, n: nat)
    requires f < |free| && i < |free|
  {
    forall q :: 0 <= q < |free| && Dist(q, f, |free|) > Dist(i, f, |free|) ==> free[q].size < n
  }

  /** Block i is the first from freep on that has n units. */
  ghost predicate FirstFit(free: seq<Block>, freep: nat, i: nat, n: nat) {
    && 0 < i < |free| && free[i].size >= n
    && exists f :: 0 <= f < |free| && free[f].addr == freep && Searched(free, f, i, n)
  }

  /** The last n units of block i of the list, from address a on. */
  ghost predicate TailOf(free: seq<Block>, i: nat, a: nat, n: nat) {
    i < |free| && free[i].addr <= a && a + n == free[i].End()
  }

  lemma NothingSearched(free: seq<Block>, f: nat, n: nat)
    requires f < |free|
    ensures Next(f, |free|) < |free| && Searched(free, f, Next(f, |free|), n)
  {
  }

  lemma SearchGoesOn(free: seq<Block>, f: nat, i: nat, n: nat)
    requires f < |free| && i < |free| && i != f && free[i].size < n
    ensures Next(i, |free|) < |free| && Dist(Next(i, |free|), f, |free|) < Dist(i, f, |free|)
    ensures Searched(free, f, i, n) ==> Searched(free, f, Next(i, |free|), n)
  {
    DistNext(i, f, |free|);
    DistInjective(f, |free|);
  }

  lemma DistInjective(f: nat, n: nat)
    requires f < n
    ensures forall i, j :: 0 <= i < n && 0 <= j < n && Dist(i, f, n) == Dist(j, f, n) ==> i == j
  {
  }

  /** Back at freep with nothing found, no block is large enough. */
  lemma SearchEnds(base: nat, free: seq<Block>, f: nat, i: nat, n: nat)
    requires Ring(base, free) && f < |free| && i < |free| && free[i].addr == free[f].addr && free[i].size < n
    ensures i == f
    ensures Searched(free, f, i, n) ==> !Fitting(free, n)
  {
    DistInjective(f, |free|);
  }

  datatype Outcome =
    | Null
    | Got(ap: nat)
    | NoGrowth // morecore asked sbrk for a number of bytes that is not positive

  /** The allocator's invariant. */
  ghost predicate Good(base: nat, mem: Memory, freep: nat, free: seq<Block>, live: seq<Block>, obtained: nat, brk: nat) {
    && 0 < base < brk
    && Ring(base, free)
    && Linked(mem, free)
    && Separate(base, free, live, brk)
    && Headed(mem, live)
    && (exists f :: 0 <= f < |free| && free[f].addr == freep)
    && Units(free) + Units(live) == obtained
  }

  /** Giving back live block k keeps the invariant. */
  lemma GoodFree(base: nat, mem: Memory, freep: nat, free: seq<Block>, live: seq<Block>, obtained: nat, brk: nat,
                 t: nat, k: nat, mem': Memory)
    requires Good(base, mem, freep, free, live, obtained, brk)
    requires k < |live| && Place(free, t, live[k])
    requires Linked(mem', Inserted(free, t, live[k]))
    requires forall a :: a in mem ==> a in mem'
    requires forall a :: a in mem && a != live[k].addr && a != free[t].addr ==> mem'[a] == mem[a]
    ensures Good(base, mem', free[t].addr, Inserted(free, t, live[k]), Without(live, k), obtained, brk)
    ensures Inserted(free, t, live[k])[t].addr == free[t].addr
  {
    var b := live[k];
    HeadsKept(base, free, live, brk, t, k, mem, mem');
    InsertedRing(base, free, t, b);
    InsertedSeparate(base, free, live, brk, t, k);
    WithoutUnits(live, k);
    SpliceAt(free, t, Until(free, t, b), Joint(free, t, b), t);
  }

  /** A new live block, apart from the rest, next to a list that covers no more than before. */
  lemma SeparateTake(base: nat, free: seq<Block>, live: seq<Block>, brk: nat, free': seq<Block>, b: Block)
    requires Separate(base, free, live, brk)
    requires b.size > 0 && base < b.addr && b.End() <= brk
    requires forall j :: 0 <= j < |live| ==> Apart(live[j], b)
    requires forall i :: 0 <= i < |free'| ==> Apart(free'[i], b) && free'[i].End() <= brk
    requires forall i, j :: 0 <= i < |free'| && 0 <= j < |live| ==> Apart(free'[i], live[j])
    ensures Separate(base, free', live + [b], brk)
  {
  }

  lemma LiveUnits(live: seq<Block>, b: Block)
    ensures Units(live + [b]) == Units(live) + b.size
  {
    UnitsConcat(live, [b]);
    UnitsOne(b);
  }

  /** malloc, first case: block j fits exactly and is unlinked. */
  function Unlinked(free: seq<Block>, j: nat): seq<Block>
    requires 0 < j < |free|
  {
    Splice(free, j - 1, j + 1, [free[j - 1]])
  }

  lemma UnlinkedCovers(free: seq<Block>, j: nat, base: nat, a: nat)
    requires Ring(base, free) && 0 < j < |free|
    ensures Covered(Unlinked(free, j), a) <==> Covered(free, a) && !In(free[j], a)
  {
    CoveredSplice(free, j - 1, j + 1, [free[j - 1]], a);
    assert free[j - 1..j + 1] == [free[j - 1], free[j]];
    CoveredOne(free[j - 1], a);
    CoveredTwo(free[j - 1], free[j], a);
    if In(free[j], a) {
      OnlyIn(free, j, base, a);
      Elsewhere(free, j, a);
    }
  }

  /** No other block of the ring has unit a of block j. */
  lemma OnlyIn(free: seq<Block>, j: nat, base: nat, a: nat)
    requires Ring(base, free) && j < |free| && In(free[j], a)
    ensures forall i :: 0 <= i < |free| && i != j ==> !In(free[i], a)
  {
  }

  lemma Elsewhere(free: seq<Block>, j: nat, a: nat)
    requires j < |free| && forall i :: 0 <= i < |free| && i != j ==> !In(free[i], a)
    ensures !Covered(free[..j], a) && !Covered(free[j + 1..], a) && (j > 0 ==> !Covered(free[..j - 1], a))
  {
  }

  lemma UnlinkedList(base: nat, mem: Memory, free: seq<Block>, j: nat, mem': Memory)
    requires Ring(base, free) && Linked(mem, free) && 0 < j < |free|
    requires mem' == mem[free[j - 1].addr := Header(Succ(free, j), free[j - 1].size)]
    ensures Ring(base, Unlinked(free, j)) && Linked(mem', Unlinked(free, j))
  {
    var p := free[j - 1];
    SpliceRing(base, free, j - 1, j + 1, [p]);
    assert LinkToAt(mem', [p], Succ(free, j), 0);
    forall i | 0 <= i < |free| && !(j - 1 <= i < j + 1)
      ensures free[i].addr in mem && free[i].addr in mem' && mem'[free[i].addr] == mem[free[i].addr]
    {
      assert LinkAt(mem, free, i);
    }
    SpliceLinked(mem, mem', free, j - 1, j + 1, [p]);
  }

  lemma UnlinkedUnits(free: seq<Block>, j: nat)
    requires 0 < j < |free|
    ensures Units(Unlinked(free, j)) == Units(free) - free[j].size
  {
    SpliceUnits(free, j - 1, j + 1, [free[j - 1]]);
    assert free[j - 1..j + 1] == [free[j - 1], free[j]];
    UnitsShort([free[j - 1], free[j]]);
    UnitsOne(free[j - 1]);
  }

  lemma UnlinkedSeparate(base: nat, free: seq<Block>, live: seq<Block>, brk: nat, j: nat)
    requires Ring(base, free) && Separate(base, free, live, brk) && 0 < j < |free|
    ensures Separate(base, Unlinked(free, j), live + [free[j]], brk)
  {
    var free' := Unlinked(free, j);
    forall i | 0 <= i < |free'|
      ensures Apart(free'[i], free[j]) && free'[i].End() <= brk
      ensures forall k :: 0 <= k < |live| ==> Apart(free'[i], live[k])
    {
      SpliceAt(free, j - 1, j + 1, [free[j - 1]], i);
    }
    SeparateTake(base, free, live, brk, free', free[j]);
  }

  /** Writing the header of a list block leaves the live headers alone. */
  lemma HeadedWrite(base: nat, mem: Memory, free: seq<Block>, live: seq<Block>, brk: nat, i: nat, h: Header)
    requires Ring(base, free) && Separate(base, free, live, brk) && Headed(mem, live) && i < |free|
    ensures Headed(mem[free[i].addr := h], live)
  {
    forall k | 0 <= k < |live|
      ensures live[k].addr != free[i].addr
    {
      assert Apart(free[i], live[k]);
    }
  }

  lemma GoodExact(base: nat, mem: Memory, freep: nat, free: seq<Block>, live: seq<Block>, obtained: nat, brk: nat, j: nat)
    requires Good(base, mem, freep, free, live, obtained, brk) && 0 < j < |free|
    ensures var mem' := mem[free[j - 1].addr := Header(Succ(free, j), free[j - 1].size)];
            Good(base, mem', free[j - 1].addr, Unlinked(free, j), live + [free[j]], obtained, brk)
  {
    var mem' := mem[free[j - 1].addr := Header(Succ(free, j), free[j - 1].size)];
    UnlinkedList(base, mem, free, j, mem');
    UnlinkedUnits(free, j);
    UnlinkedSeparate(base, free, live, brk, j);
    LiveUnits(live, free[j]);
    HeadedWrite(base, mem, free, live, brk, j - 1, Header(Succ(free, j), free[j - 1].size));
    assert LinkAt(mem, free, j) && free[j - 1].End() < free[j].addr;
    SpliceAt(free, j - 1, j + 1, [free[j - 1]], j - 1);
    assert Unlinked(free, j)[j - 1].addr == free[j - 1].addr;
  }

  /** The two parts of a block split n units before its end. */
  function Front(b: Block, n: nat): Block
    requires n < b.size
  {
    Block(b.addr, b.size - n)
  }

  function Back(b: Block, n: nat): Block
    requires n < b.size
  {
    Block(b.addr + b.size - n, n)
  }

  /** malloc, second case: the tail end of block j is handed out. */
  function Trimmed(free: seq<Block>, j: nat, n: nat): seq<Block>
    requires 0 < j < |free| && n < free[j].size
  {
    Splice(free, j, j + 1, [Front(free[j], n)])
  }

  lemma TrimmedCovers(free: seq<Block>, j: nat, n: nat, base: nat, a: nat)
    requires Ring(base, free) && 0 < j < |free| && n < free[j].size
    ensures Covered(Trimmed(free, j, n), a) <==> Covered(free, a) && !In(Back(free[j], n), a)
  {
    CoveredSplice(free, j, j + 1, [Front(free[j], n)], a);
    assert free[j..j + 1] == [free[j]];
    CoveredOne(free[j], a);
    CoveredOne(Front(free[j], n), a);
    if In(free[j], a) {
      OnlyIn(free, j, base, a);
      Elsewhere(free, j, a);
    }
  }

  lemma TrimmedList(base: nat, mem: Memory, free: seq<Block>, j: nat, n: nat, h: Header, mem': Memory)
    requires Ring(base, free) && Linked(mem, free) && 0 < j < |free| && 0 < n < free[j].size
    requires mem' == mem[free[j].addr := Header(Succ(free, j), free[j].size - n)][Back(free[j], n).addr := h]
    ensures Ring(base, Trimmed(free, j, n)) && Linked(mem', Trimmed(free, j, n))
  {
    var f := Front(free[j], n);
    SpliceRing(base, free, j, j + 1, [f]);
    assert LinkToAt(mem', [f], Succ(free, j), 0);
    forall i | 0 <= i < |free| && !(j <= i < j + 1)
      ensures free[i].addr in mem && free[i].addr in mem' && mem'[free[i].addr] == mem[free[i].addr]
    {
      assert LinkAt(mem, free, i);
      if i < j { assert free[i].End() < free[j].addr; } else { assert free[j].End() < free[i].addr; }
    }
    SpliceLinked(mem, mem', free, j, j + 1, [f]);
  }

  lemma TrimmedUnits(free: seq<Block>, j: nat, n: nat)
    requires 0 < j < |free| && n < free[j].size
    ensures Units(Trimmed(free, j, n)) == Units(free) - n
  {
    SpliceUnits(free, j, j + 1, [Front(free[j], n)]);
    assert free[j..j + 1] == [free[j]];
    UnitsOne(free[j]);
    UnitsOne(Front(free[j], n));
  }

  lemma TrimmedSeparate(base: nat, free: seq<Block>, live: seq<Block>, brk: nat, j: nat, n: nat)
    requires Ring(base, free) && Separate(base, free, live, brk) && 0 < j < |free| && 0 < n < free[j].size
    ensures Separate(base, Trimmed(free, j, n), live + [Back(free[j], n)], brk)
  {
    var free', b := Trimmed(free, j, n), Back(free[j], n);
    forall k | 0 <= k < |live|
      ensures Apart(live[k], b) && Apart(Front(free[j], n), live[k])
    {
      assert Apart(free[j], live[k]);
    }
    forall i | 0 <= i < |free'|
      ensures Apart(free'[i], b) && free'[i].End() <= brk
      ensures forall k :: 0 <= k < |live| ==> Apart(free'[i], live[k])
    {
      SpliceAt(free, j, j + 1, [Front(free[j], n)], i);
      assert free'[i] == if i == j then Front(free[j], n) else free[i];
      if i < j { assert free[i].End() < free[j].addr; } else if j < i { assert free[j].End() < free[i].addr; }
    }
    assert free[0].End() < free[j].addr;
    SeparateTake(base, free, live, brk, free', b);
  }

  /** What memory holds at a free block. */
  lemma HeaderOf(mem: Memory, free: seq<Block>, j: nat)
    requires Linked(mem, free) && j < |free|
    ensures free[j].addr in mem && mem[free[j].addr] == Header(Succ(free, j), free[j].size)
  {
    assert LinkAt(mem, free, j);
  }

  lemma GoodSplit(base: nat, mem: Memory, freep: nat, free: seq<Block>, live: seq<Block>, obtained: nat, brk: nat,
                  j: nat, n: nat, ptr: nat)
    requires Good(base, mem, freep, free, live, obtained, brk) && 0 < j < |free| && 0 < n < free[j].size
    ensures var mem' := mem[free[j].addr := Header(Succ(free, j), free[j].size - n)][Back(free[j], n).addr := Header(ptr, n)];
            Good(base, mem', free[j - 1].addr, Trimmed(free, j, n), live + [Back(free[j], n)], obtained, brk)
  {
    var b := Back(free[j], n);
    var h := Header(Succ(free, j), free[j].size - n);
    var mem' := mem[free[j].addr := h][b.addr := Header(ptr, n)];
    TrimmedList(base, mem, free, j, n, Header(ptr, n), mem');
    TrimmedUnits(free, j, n);
    TrimmedSeparate(base, free, live, brk, j, n);
    LiveUnits(live, b);
    HeadedWrite(base, mem, free, live, brk, j, h);
    forall k | 0 <= k < |live|
      ensures live[k].addr != b.addr
    {
      assert Apart(free[j], live[k]);
    }
    SpliceAt(free, j, j + 1, [Front(free[j], n)], j - 1);
    assert Trimmed(free, j, n)[j - 1].addr == free[j - 1].addr;
  }

  /** p->s.size = rest; (p + rest)->s.size = n */
  function Split(mem: Memory, p: nat, rest: nat, ptr: nat, n: nat): Memory
    requires p in mem
  {
    mem[p := Header(mem[p].ptr, rest)][p + rest := Header(ptr, n)]
  }

  /** GoodSplit in the terms of malloc's assignments. */
  lemma TailTaken(base: nat, mem: Memory, freep: nat, free: seq<Block>, live: seq<Block>, obtained: nat, brk: nat,
                  j: nat, n: nat, ptr: nat, prevp: nat, p: nat, rest: nat, mem': Memory, free': seq<Block>, live': seq<Block>)
    requires Kept(base, mem, freep, free, live, obtained, brk) && 0 < j < |free| && 0 < n < free[j].size
    requires prevp == free[j - 1].addr && p == free[j].addr && p in mem && mem[p] == Header(Succ(free, j), free[j].size)
    requires rest == mem[p].size - n && mem' == Split(mem, p, rest, ptr, n)
    requires free' == Trimmed(free, j, n) && live' == live + [Block(p + rest, n)]
    ensures Kept(base, mem', prevp, free', live', obtained, brk)
  {
    Opened(base, mem, freep, free, live, obtained, brk);
    GoodSplit(base, mem, freep, free, live, obtained, brk, j, n, ptr);
    assert Back(free[j], n) == Block(p + rest, n);
    Folded(base, mem', prevp, free', live', obtained, brk);
  }

  /** sbrk's fresh region, before it is given to free. */
  lemma GoodGrow(base: nat, mem: Memory, freep: nat, free: seq<Block>, live: seq<Block>, obtained: nat, brk: nat,
                 b: Block, ptr: nat)
    requires Good(base, mem, freep, free, live, obtained, brk) && brk <= b.addr && b.size > 0
    ensures Good(base, mem[b.addr := Header(ptr, b.size)], freep, free, live + [b], obtained + b.size, b.End())
  {
    var mem' := mem[b.addr := Header(ptr, b.size)];
    LiveUnits(live, b);
    forall i | 0 <= i < |free|
      ensures LinkAt(mem', free, i)
    {
      assert LinkAt(mem, free, i);
      assert i > 0 ==> free[i].size > 0;
    }
    assert Separate(base, free, live, b.End());
    SeparateTake(base, free, live, b.End(), free, b);
  }

  /** Good, folded. */
  ghost predicate Kept(base: nat, mem: Memory, freep: nat, free: seq<Block>, live: seq<Block>, obtained: nat, brk: nat) {
    forall z: nat {:trigger Unfold(z)} :: Unfold(z) ==> Good(base, mem, freep, free, live, obtained, brk)
  }

  lemma Opened(base: nat, mem: Memory, freep: nat, free: seq<Block>, live: seq<Block>, obtained: nat, brk: nat)
    requires Kept(base, mem, freep, free, live, obtained, brk)
    ensures Good(base, mem, freep, free, live, obtained, brk)
  {
    assert Unfold(0);
  }

  lemma Folded(base: nat, mem: Memory, freep: nat, free: seq<Block>, live: seq<Block>, obtained: nat, brk: nat)
    requires Good(base, mem, freep, free, live, obtained, brk)
    ensures Kept(base, mem, freep, free, live, obtained, brk)
  {
  }

  class Allocator {
    const base: nat
    var mem: Memory
    var freep: nat
    ghost var free: seq<Block>
    ghost var live: seq<Block>
    ghost var obtained: nat
    ghost var brk: nat

    ghost predicate Valid()
      reads this
    {
      && 0 < base < brk
      && (freep == 0 ==> free == [] && live == [] && obtained == 0)
      && (freep != 0 ==> Ready())
    }

    /** The state after the first call of malloc. */
    ghost predicate Ready()
      reads this
    {
      Kept(base, mem, freep, free, live, obtained, brk)
    }

    /** What the header of block i says; only base, block 0, has size 0. */
    lemma LinkOf(i: nat)
      requires Ready() && i < |free|
      ensures LinkAt(mem, free, i) && (i == 0 ==> free[0].size == 0)
    {
      Opened(base, mem, freep, free, live, obtained, brk);
    }

    lemma WhereFreep() returns (f: nat)
      requires Ready()
      ensures f < |free| && free[f].addr == freep
    {
      Opened(base, mem, freep, free, live, obtained, brk);
      f :| f < |free| && free[f].addr == freep;
    }

    lemma LapEnds(f: nat, i: nat, n: nat)
      requires Ready() && f < |free| && i < |free| && free[i].addr == free[f].addr && free[i].size < n
      ensures i == f && (Searched(free, f, i, n) ==> !Fitting(free, n))
    {
      Opened(base, mem, freep, free, live, obtained, brk);
      SearchEnds(base, free, f, i, n);
    }

    lemma Target(b: Block) returns (t: nat)
      requires Ready() && b.size > 0 && base < b.addr && forall j :: 0 <= j < |free| ==> Apart(free[j], b)
      ensures Place(free, t, b)
    {
      Opened(base, mem, freep, free, live, obtained, brk);
      t := TargetFrom(base, free, b, 0);
    }

    lemma Tests(b: Block, t: nat, i: nat)
      requires Ready() && b.size > 0 && base < b.addr && Place(free, t, b) && i < |free|
      ensures var p, q := free[i].addr, Succ(free, i);
              (b.addr > p && b.addr < q) || (p >= q && (b.addr > p || b.addr < q)) <==> i == t
    {
      Opened(base, mem, freep, free, live, obtained, brk);
      PlaceTests(base, free, b, t, i);
    }

    constructor (base: nat, brk: nat)
      requires 0 < base < brk
      ensures Valid() && freep == 0 && this.base == base && this.brk == brk
    {
      this.base := base;
      this.mem := map[];
      this.freep := 0;
      this.free := [];
      this.live := [];
      this.obtained := 0;
      this.brk := brk;
    }

    /** The search loop of free. */
    method FindPlace(bp: nat, ghost b: Block) returns (p: nat, ghost t: nat)
      requires Ready() && bp == b.addr && b.size > 0 && base < bp
      requires forall j :: 0 <= j < |free| ==> Apart(free[j], b)
      ensures Place(free, t, b) && p == free[t].addr
    {
      ghost var i := WhereFreep();
      t := Target(b);
      p := freep;
      LinkOf(i);
      while !(bp > p && bp < mem[p].ptr)
        invariant 0 <= i < |free| && p == free[i].addr && LinkAt(mem, free, i)
        decreases Dist(i, t, |free|)
      {
        Tests(b, t, i);
        if p >= mem[p].ptr && (bp > p || bp < mem[p].ptr) {
          break;
        }
        DistNext(i, t, |free|);
        LinkOf(Next(i, |free|));
        p := mem[p].ptr;
        i := Next(i, |free|);
      }
      Tests(b, t, i);
    }

    /** free: give back the block whose payload starts at `ap`. */
    method Free(ap: nat, ghost k: nat) returns (ghost t: nat)
      requires Ready() && k < |live| && ap == live[k].addr + 1
      modifies this
      ensures Ready()
      ensures Place(old(free), t, old(live)[k]) && free == Inserted(old(free), t, old(live)[k])
      ensures live == Without(old(live), k)
      ensures freep == free[t].addr && obtained == old(obtained) && brk == old(brk)
      ensures forall a: nat :: Covered(free, a) <==> Covered(old(free), a) || In(old(live)[k], a)
    {
      var bp := ap - 1;
      Opened(base, mem, freep, free, live, obtained, brk);
      assert forall i :: 0 <= i < |free| ==> Apart(free[i], live[k]);
      var p;
      p, t := FindPlace(bp, live[k]);
      LinkIn(bp, p, live[k], t);
      GoodFree(base, old(mem), freep, free, live, obtained, brk, t, k, mem);
      forall a: nat ensures Covered(Inserted(free, t, live[k]), a) <==> Covered(free, a) || In(live[k], a) {
        InsertedCovers(free, t, live[k], a);
      }
      free := Inserted(free, t, live[k]);
      live := Without(live, k);
      freep := p;
      Folded(base, mem, freep, free, live, obtained, brk);
    }

    /** Relink bp after p, joining what touches. */
    method LinkIn(bp: nat, p: nat, ghost b: Block, ghost t: nat)
      requires Ring(base, free) && Linked(mem, free)
      requires Place(free, t, b) && p == free[t].addr && bp == b.addr && b.size > 0 && base < bp
      requires bp in mem && mem[bp].size == b.size
      modifies this`mem
      ensures Linked(mem, Inserted(free, t, b))
      ensures forall a :: a in old(mem) ==> a in mem
      ensures forall a :: a in old(mem) && a != bp && a != p ==> mem[a] == old(mem)[a]
    {
      LinkFacts(base, free, t, b);
      ghost var was := mem;
      assert LinkAt(mem, free, t) && LinkAt(mem, free, Next(t, |free|));
      var next := mem[p].ptr;
      if bp + mem[bp].size == next {
        mem := mem[bp := Header(mem[next].ptr, mem[bp].size + mem[next].size)];
      } else {
        mem := mem[bp := Header(next, mem[bp].size)];
      }
      ghost var h := mem[bp];
      if p + mem[p].size == bp {
        mem := mem[p := Header(mem[bp].ptr, mem[p].size + mem[bp].size)];
      } else {
        mem := mem[p := Header(bp, mem[p].size)];
      }
      Relinked(base, was, free, t, b, h, mem);
    }

    /**
     morecore: `grant` is the address sbrk returns, 0 when it fails.  The model stops where sbrk
     would be called with a number of bytes that is not positive.
     */
    method MoreCore(nu: nat, grant: nat) returns (ok: bool, stopped: bool, ghost t: nat, ghost q: nat)
      requires Ready()
      requires grant != 0 ==> grant >= brk
      modifies this
      ensures Ready() && live == old(live)
      ensures (stopped <==> SbrkArg(nu) <= 0) && ok == (!stopped && grant != 0)
      ensures ok ==> t < |free| && freep == free[t].addr && q < |free| && free[q].size >= nu && free[q].End() == brk
      ensures ok ==> forall i :: 0 <= i < |free| && i != q ==> free[i] in old(free)
      ensures ok ==> forall a: nat :: Covered(free, a) <==> Covered(old(free), a) || grant <= a < brk
      ensures ok ==> obtained == old(obtained) + Core(nu) && brk == grant + Core(nu)
      ensures !ok ==> free == old(free) && freep == old(freep) && obtained == old(obtained) && brk == old(brk) && mem == old(mem)
    {
      var n := nu;
      if n < MINCORE {
        n := MINCORE;
      }
      if SbrkArg(nu) <= 0 {
        return false, true, 0, 0;
      }
      stopped := false;
      if grant == 0 {
        return false, false, 0, 0;
      }
      Extend(grant, n);
      ghost var before := free;
      Opened(base, mem, freep, free, live, obtained, brk);
      t := Free(grant + 1, |old(live)|);
      assert Without(old(live) + [Block(grant, n)], |old(live)|) == old(live);
      q := InsertedHas(before, t, Block(grant, n));
      ok := true;
    }

    /** The new region becomes a live block. */
    method Extend(grant: nat, n: nat)
      requires Ready() && n > 0 && grant >= brk
      modifies this
      ensures Ready() && live == old(live) + [Block(grant, n)] && free == old(free)
      ensures obtained == old(obtained) + n && brk == grant + n
    {
      var ptr := if grant in mem then mem[grant].ptr else 0;
      Opened(base, mem, freep, free, live, obtained, brk);
      GoodGrow(base, mem, freep, free, live, obtained, brk, Block(grant, n), ptr);
      mem := mem[grant := Header(ptr, n)];
      live, obtained, brk := live + [Block(grant, n)], obtained + n, grant + n;
      Folded(base, mem, freep, free, live, obtained, brk);
    }

    /** malloc's first call makes base the whole list. */
    method Init()
      requires Valid() && freep == 0
      modifies this
      ensures Ready() && free == [Block(base, 0)] && live == [] && obtained == 0 && freep == base && brk == old(brk)
    {
      mem := mem[base := Header(base, 0)];
      freep := base;
      free := [Block(base, 0)];
      assert LinkAt(mem, free, 0);
      assert free[0].addr == freep;
      Folded(base, mem, freep, free, live, obtained, brk);
    }

    /** Block j, found after prevp, is large enough: take it or its tail end. */
    method Take(prevp: nat, p: nat, n: nat, ghost j: nat) returns (ap: nat)
      requires Ready() && 0 < j < |free| && prevp == free[j - 1].addr && p == free[j].addr
      requires 0 < n <= free[j].size
      modifies this
      ensures Ready() && ap > 0 && live == old(live) + [Block(ap - 1, n)]
      ensures TailOf(old(free), j, ap - 1, n) && freep == prevp
      ensures forall a: nat :: Covered(free, a) <==> Covered(old(free), a) && !In(Block(ap - 1, n), a)
      ensures obtained == old(obtained) && brk == old(brk)
    {
      LinkOf(j);
      if mem[p].size == n {
        TakeWhole(prevp, p, j);
        ap := p + 1;
      } else {
        ap := TakeTail(prevp, p, n, j);
      }
    }

    method TakeWhole(prevp: nat, p: nat, ghost j: nat)
      requires Ready() && 0 < j < |free| && prevp == free[j - 1].addr && p == free[j].addr
      modifies this
      ensures Ready() && live == old(live) + [old(free)[j]] && freep == prevp
      ensures forall a: nat :: Covered(free, a) <==> Covered(old(free), a) && !In(old(free)[j], a)
      ensures obtained == old(obtained) && brk == old(brk)
    {
      Opened(base, mem, freep, free, live, obtained, brk);
      HeaderOf(mem, free, j);
      HeaderOf(mem, free, j - 1);
      GoodExact(base, mem, freep, free, live, obtained, brk, j);
      forall a: nat ensures Covered(Unlinked(free, j), a) <==> Covered(free, a) && !In(free[j], a) {
        UnlinkedCovers(free, j, base, a);
      }
      mem := mem[prevp := Header(mem[p].ptr, mem[prevp].size)];
      live, free, freep := live + [free[j]], Unlinked(free, j), prevp;
      Folded(base, mem, freep, free, live, obtained, brk);
    }

    method TakeTail(prevp: nat, p: nat, n: nat, ghost j: nat) returns (ap: nat)
      requires Ready() && 0 < j < |free| && prevp == free[j - 1].addr && p == free[j].addr
      requires 0 < n < free[j].size
      modifies this
      ensures Ready() && ap > 0 && live == old(live) + [Block(ap - 1, n)]
      ensures TailOf(old(free), j, ap - 1, n) && freep == prevp
      ensures forall a: nat :: Covered(free, a) <==> Covered(old(free), a) && !In(Block(ap - 1, n), a)
      ensures obtained == old(obtained) && brk == old(brk)
    {
      LinkOf(j);
      Opened(base, mem, freep, free, live, obtained, brk);
      forall a: nat ensures Covered(Trimmed(free, j, n), a) <==> Covered(free, a) && !In(Back(free[j], n), a) {
        TrimmedCovers(free, j, n, base, a);
      }
      var rest := mem[p].size - n;
      var b := p + rest;
      var ptr := if b in mem then mem[b].ptr else 0;
      var mem' := Split(mem, p, rest, ptr, n);
      ghost var free', live' := Trimmed(free, j, n), live + [Block(b, n)];
      TailTaken(base, mem, freep, free, live, obtained, brk, j, n, ptr, prevp, p, rest, mem', free', live');
      mem, freep := mem', prevp;
      free, live := free', live';
      ap := b + 1;
    }

    /**
     malloc.  A block of Nunits(nbytes) units, apart from everything live; the break moves
     only when no free block is large enough, and both searches end.  The block is the end of the
     first free one from freep on that is large enough, or the end of the heap after growth.
     */
    method Malloc(nbytes: nat, grant: nat) returns (r: Outcome)
      requires Valid() && nbytes < UINT
      requires grant != 0 ==> grant >= brk
      modifies this
      ensures Ready()
      ensures r.Got? ==> r.ap > 0 && live == old(live) + [Block(r.ap - 1, Nunits(nbytes))]
      ensures !r.Got? ==> live == old(live) && obtained == old(obtained)
      ensures Fitting(old(free), Nunits(nbytes)) ==> r.Got? && obtained == old(obtained)
      ensures r.Null? <==> !Fitting(old(free), Nunits(nbytes)) && Grows(Nunits(nbytes)) && grant == 0
      ensures r.NoGrowth? <==> !Fitting(old(free), Nunits(nbytes)) && !Grows(Nunits(nbytes))
      ensures r.Got? && !Fitting(old(free), Nunits(nbytes)) ==>
                && obtained == old(obtained) + Core(Nunits(nbytes))
                && brk == grant + Core(Nunits(nbytes)) && r.ap - 1 + Nunits(nbytes) == brk
      ensures r.Got? && Fitting(old(free), Nunits(nbytes)) ==>
                exists i :: FirstFit(old(free), old(freep), i, Nunits(nbytes)) && TailOf(old(free), i, r.ap - 1, Nunits(nbytes))
                            && freep == old(free)[i - 1].addr
      ensures r.Got? ==> forall a: nat :: Covered(free, a) <==>
                (Covered(old(free), a) || old(brk) <= grant <= a < brk) && !In(live[|old(live)|], a)
    {
      if freep == 0 {
        Init();
      }
      r := Search(Nunits(nbytes), grant);
    }

    /** malloc's loop, from the block after freep until one fits or freep is reached. */
    method Lap(nunits: nat) returns (found: bool, prevp: nat, p: nat, ghost i: nat)
      requires Ready() && 1 <= nunits
      ensures found <==> Fitting(free, nunits)
      ensures found ==> 0 < i && At(free, i, p) && At(free, i - 1, prevp) && FirstFit(free, freep, i, nunits)
    {
      prevp := freep;
      ghost var f := WhereFreep();
      LinkOf(f);
      AfterNext(mem, free, f);
      NothingSearched(free, f, nunits);
      p := mem[prevp].ptr;
      i := Next(f, |free|);
      while true
        invariant After(free, i, prevp, p) && Searched(free, f, i, nunits)
        decreases Dist(i, f, |free|)
      {
        LinkOf(i);
        if mem[p].size >= nunits {
          return true, prevp, p, i;
        }
        if p == freep {
          LapEnds(f, i, nunits);
          return false, prevp, p, i;
        }
        SearchGoesOn(free, f, i, nunits);
        AfterNext(mem, free, i);
        prevp := p;
        p := mem[p].ptr;
        i := Next(i, |free|);
      }
    }

    /** malloc's loop with its call of morecore, after which it goes round once more. */
    method Search(nunits: nat, grant: nat) returns (r: Outcome)
      requires Ready() && 1 <= nunits
      requires grant != 0 ==> grant >= brk
      modifies this
      ensures Ready()
      ensures r.Got? ==> r.ap > 0 && live == old(live) + [Block(r.ap - 1, nunits)]
      ensures !r.Got? ==> live == old(live) && obtained == old(obtained)
      ensures Fitting(old(free), nunits) ==> r.Got? && obtained == old(obtained)
      ensures r.Null? <==> !Fitting(old(free), nunits) && Grows(nunits) && grant == 0
      ensures r.NoGrowth? <==> !Fitting(old(free), nunits) && !Grows(nunits)
      ensures r.Got? && !Fitting(old(free), nunits) ==>
                obtained == old(obtained) + Core(nunits) && brk == grant + Core(nunits) && r.ap - 1 + nunits == brk
      ensures r.Got? && Fitting(old(free), nunits) ==>
                exists i :: FirstFit(old(free), old(freep), i, nunits) && TailOf(old(free), i, r.ap - 1, nunits)
                            && freep == old(free)[i - 1].addr
      ensures r.Got? ==> forall a: nat :: Covered(free, a) <==>
                (Covered(old(free), a) || old(brk) <= grant <= a < brk) && !In(live[|old(live)|], a)
    {
      var found, prevp, p;
      ghost var i;
      found, prevp, p, i := Lap(nunits);
      if !found {
        var ok, stopped;
        ghost var f, q;
        ok, stopped, f, q := MoreCore(nunits, grant);
        if stopped {
          return NoGrowth;
        }
        if !ok {
          return Null;
        }
        assert Fitting(free, nunits);
        found, prevp, p, i := Lap(nunits);
      }
      var ap := Take(prevp, p, nunits, i);
      r := Got(ap);
    }
  }

}
