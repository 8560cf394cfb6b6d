/**
 fs.c on the state of FsState: the block allocator, bmap, readi, writei and itrunc, and
 the chunk loop of filewrite (file.c), each with the blocks it logs.
 */
module Fs {
  import opened FsState
  import LogRun
  import opened Params

  /** What a logged block is: file data, a bitmap block, an indirect block, an inode block. */
  datatype Kind = Data | Map | Index | Node

  /** The distinct blocks one operation has logged, by kind. */
  datatype Tally = Tally(data: set<nat>, maps: set<nat>, index: set<nat>, node: set<nat>) {
    ghost function All(): set<nat> {
      data + maps + index + node
    }

    ghost function Size(): nat {
      |data| + |maps| + |index| + |node|
    }

    ghost function Add(kind: Kind, b: nat): Tally {
      match kind
      case Data => this.(data := data + {b})
      case Map => this.(maps := maps + {b})
      case Index => this.(index := index + {b})
      case Node => this.(node := node + {b})
    }

    lemma AddAll(kind: Kind, b: nat)
      ensures Add(kind, b).All() == All() + {b}
    {
    }

    lemma AddSize(kind: Kind, b: nat)
      ensures Size() <= Add(kind, b).Size() <= Size() + 1
      ensures |All()| <= Size()
    {
      LogRun.GrowSet(data, b);
      LogRun.GrowSet(maps, b);
      LogRun.GrowSet(index, b);
      LogRun.GrowSet(node, b);
      assert |data + maps| <= |data| + |maps|;
      assert |data + maps + index| <= |data + maps| + |index|;
      assert |data + maps + index + node| <= |data + maps + index| + |node|;
    }
  }

  lemma AtMostOne(s: set<nat>, a: nat)
    requires forall x :: x in s ==> x == a
    ensures |s| <= 1
  {
    if s != {} {
      assert s == {a};
    }
  }

  /** What one allocation adds to a tally. */
  ghost predicate OneMore(t: Tally, t': Tally, b: nat) {
    && |t'.data| <= |t.data| + 1 && t'.data <= t.data + {b} && |t'.maps| <= |t.maps| + 1
    && t'.index <= t.index + {b} && t'.node == t.node
  }

  lemma TallyTaken(t: Tally, m: nat, kind: Kind, b: nat)
    requires kind.Data? || kind.Index?
    ensures OneMore(t, t.Add(Map, m).Add(kind, b), b)
  {
    LogRun.GrowSet(t.data, b);
    LogRun.GrowSet(t.maps, m);
  }

  /** dst are the n bytes of s from off on. */
  ghost predicate Slice(s: seq<byte>, off: nat, n: nat, dst: seq<byte>) {
    forall z: nat {:trigger Unfold(z)} :: Unfold(z) ==> off + n <= |s| && dst == s[off..off + n]
  }

  lemma SliceMore(s: seq<byte>, off: nat, n: nat, dst: seq<byte>, piece: seq<byte>)
    requires Slice(s, off, n, dst) && off + n + |piece| <= |s| && piece == s[off + n..off + n + |piece|]
    ensures Slice(s, off, n + |piece|, dst + piece)
  {
    assert Unfold(0);
    assert s[off..off + n] + s[off + n..off + n + |piece|] == s[off..off + n + |piece|];
  }

  /** balloc would find nothing. */
  predicate AllUsed(bitmap: seq<bool>) {
    forall b :: 0 <= b < |bitmap| ==> bitmap[b]
  }

  ghost function ClearBits(bitmap: seq<bool>): set<nat> {
    set b: nat | b < |bitmap| && !bitmap[b]
  }

  /** How often balloc can succeed. */
  ghost function Clear(bitmap: seq<bool>): nat {
    |ClearBits(bitmap)|
  }

  lemma ClearTaken(bitmap: seq<bool>, b: nat)
    requires b < |bitmap| && !bitmap[b]
    ensures Clear(bitmap[b := true]) == Clear(bitmap) - 1
  {
    assert ClearBits(bitmap[b := true]) == ClearBits(bitmap) - {b};
  }

  lemma ClearNone(bitmap: seq<bool>)
    ensures Clear(bitmap) == 0 <==> AllUsed(bitmap)
  {
    if exists b :: 0 <= b < |bitmap| && !bitmap[b] {
      var b: nat :| b < |bitmap| && !bitmap[b];
      assert b in ClearBits(bitmap);
    } else {
      assert ClearBits(bitmap) == {};
    }
  }

  /** bmap(bn) changed no other block of the file; an indirect block is there if it was, or if bn needs one. */
  ghost predicate MapsOnly(d: Disk, ip: Inode, d': Disk, ip': Inode, bn: nat) {
    && |ip.addrs| == |ip'.addrs| == 13
    && (forall c: nat :: c < MAXFILE && c != bn ==> BlockOf(d', ip', c) == BlockOf(d, ip, c))
    && (ip'.addrs[12] == 0 <==> ip.addrs[12] == 0 && bn < 12)
  }

  /** Making the indirect block and then mapping bn changes no other block of the file. */
  lemma MapsAfterIndirect(d: Disk, ip: Inode, d1: Disk, ip1: Inode, d2: Disk, ip2: Inode, bn: nat)
    requires |ip.addrs| == |ip1.addrs| == 13 && 12 <= bn && MapsOnly(d1, ip1, d2, ip2, bn) && ip1.addrs[12] != 0
    requires forall m :: 0 <= m < SLOTS && m != 12 ==> Addr(d1, ip1, m) == Addr(d, ip, m)
    ensures MapsOnly(d, ip, d2, ip2, bn)
  {
  }

  /** What a write changes. */
  datatype Stage = Stage(d: Disk, n: seq<Inode>, bm: seq<bool>, tally: Tally, steady: bool)

  /** Inv, folded. */
  ghost predicate Consistent(l: Layout, d: Disk, bitmap: seq<bool>, inodes: seq<Inode>, own: Owners) {
    forall z: nat {:trigger Unfold(z)} :: Unfold(z) ==> Inv(l, d, bitmap, inodes, own)
  }

  lemma OpenInv(l: Layout, d: Disk, bitmap: seq<bool>, inodes: seq<Inode>, own: Owners)
    requires Consistent(l, d, bitmap, inodes, own)
    ensures Inv(l, d, bitmap, inodes, own)
  {
    assert Unfold(0);
  }

  lemma CloseInv(l: Layout, d: Disk, bitmap: seq<bool>, inodes: seq<Inode>, own: Owners)
    requires Inv(l, d, bitmap, inodes, own)
    ensures Consistent(l, d, bitmap, inodes, own)
  {
  }

  /** `tally` sorts the blocks in `logged`; between base and now only the blocks in `changed` differ. */
  ghost predicate Logged(l: Layout, tally: Tally, steady: bool, logged: seq<nat>, base: Image, now: Image, changed: seq<nat>) {
    forall z: nat {:trigger Unfold(z)} :: Unfold(z) ==>
      tally.All() == LogRun.Distinguished(logged) && (steady ==> LogRun.Frugal(logged)) && Covered(l, base, now, changed)
  }

  lemma LoggedFacts(l: Layout, tally: Tally, steady: bool, logged: seq<nat>, base: Image, now: Image, changed: seq<nat>)
    requires Logged(l, tally, steady, logged, base, now, changed)
    ensures tally.All() == LogRun.Distinguished(logged) && (steady ==> LogRun.Frugal(logged)) && Covered(l, base, now, changed)
  {
    assert Unfold(0);
  }

  lemma NothingLogged(l: Layout, now: Image)
    ensures Logged(l, NoBlocks, true, [], now, now, [])
  {
  }

  /** Block b changes. */
  lemma LoggedChange(l: Layout, tally: Tally, steady: bool, logged: seq<nat>, base: Image, was: Image, now: Image, b: nat)
    requires Logged(l, tally, steady, logged, base, was, logged)
    requires |now.disk| == |was.disk| && |now.bitmap| == |was.bitmap| && |now.nodes| == |was.nodes|
    requires forall x :: 0 <= x < |was.disk| && x != b ==> now.disk[x] == was.disk[x]
    requires forall x :: 0 <= x < |was.bitmap| && l.BBlock(x) != b ==> now.bitmap[x] == was.bitmap[x]
    requires forall i :: 0 <= i < |was.nodes| && l.IBlock(i) != b ==> now.nodes[i] == was.nodes[i]
    ensures Logged(l, tally, steady, logged, base, now, logged + [b])
  {
    LoggedFacts(l, tally, steady, logged, base, was, logged);
    CoveredMore(l, base, was, now, logged, b);
  }

  /** It is logged. */
  lemma LoggedMore(l: Layout, tally: Tally, steady: bool, logged: seq<nat>, base: Image, now: Image, b: nat, kind: Kind)
    requires Logged(l, tally, steady, logged, base, now, logged + [b])
    ensures Logged(l, tally.Add(kind, b), steady && |tally.All()| < MAXOPBLOCKS, logged + [b], base, now, logged + [b])
  {
    LoggedFacts(l, tally, steady, logged, base, now, logged + [b]);
    if steady && |tally.All()| < MAXOPBLOCKS {
      LogRun.FrugalMore(logged, b);
    }
    LogRun.DistinguishedMore(logged, b);
    tally.AddAll(kind, b);
  }

  lemma DirectMaps(d: Disk, ip: Inode, d': Disk, ip': Inode, bn: nat)
    requires |ip.addrs| == |ip'.addrs| == 13 && bn < 12 && ip'.addrs[12] == ip.addrs[12]
    requires forall m :: 0 <= m < SLOTS && m != bn ==> Addr(d', ip', m) == Addr(d, ip, m)
    ensures MapsOnly(d, ip, d', ip', bn)
  {
  }

  /** bmap's new block b for slot k of inode i. */
  lemma TakeDirect(l: Layout, d: Disk, bitmap: seq<bool>, inodes: seq<Inode>, own: Owners, i: nat, k: nat, b: nat)
    requires Inv(l, d, bitmap, inodes, own) && b < |bitmap| && !bitmap[b] && i < |inodes| && k <= 12 && inodes[i].addrs[k] == 0
    ensures var d', inodes' := d[b := ZeroBlock()], SetAddr(inodes, i, k, b);
            && b != 0 && Inv(l, d', bitmap[b := true], inodes', own[b := Loose][b := Slot(i, k)]) && Extends(d, inodes, d', inodes', i)
            && forall m :: 0 <= m < SLOTS && m != k ==> Addr(d', inodes'[i], m) == Addr(d, inodes[i], m)
  {
    TakeExtends(l, d, bitmap, inodes, own, i, b);
    TakeBlock(l, d, bitmap, inodes, own, b);
    var d', bitmap', inodes', own' := d[b := ZeroBlock()], bitmap[b := true], SetAddr(inodes, i, k, b), own[b := Loose];
    SetDirect(l, d', bitmap', inodes, own', i, k, b);
    SlotExtends(l, d', bitmap', inodes, own', d', inodes', i, k, b, b);
    ExtendsTrans(d, inodes, d', inodes, d', inodes', i);
  }

  class FileSystem {
    const l: Layout
    var disk: Disk
    var bitmap: seq<bool>
    var inodes: seq<Inode>
    var dinodes: seq<Inode> // the inodes as they are on disk
    ghost var own: Owners
    ghost var tally: Tally
    ghost var steady: bool // every log_write so far found fewer than MAXOPBLOCKS distinct blocks logged
    ghost var logged: seq<nat> // the blocks the running operation has passed to log_write
    ghost var base: Image // the home blocks when it began

    ghost function Now(): Image
      reads this
    {
      Image(disk, bitmap, dinodes)
    }

    ghost function Here(): Stage
      reads this
    {
      Stage(disk, inodes, bitmap, tally, steady)
    }

    /** `tally` sorts the blocks in `logged`, and no other block differs from `base`. */
    ghost predicate Recorded()
      reads this
    {
      Logged(l, tally, steady, logged, base, Now(), logged)
    }

    /** Inside an operation on one file, when a block may be allocated and in no inode. */
    ghost predicate Sound()
      reads this
    {
      && |disk| == |bitmap| == l.size && (forall i :: 0 <= i < |inodes| ==> |inodes[i].addrs| == 13)
      && Consistent(l, disk, bitmap, inodes, own) && Recorded()
    }

    /** Between operations every allocated block is in an inode. */
    ghost predicate Valid()
      reads this
    {
      Sound() && NoLoose(own)
    }

    /** An empty image: n inodes without blocks, and only the metadata blocks in use. */
    constructor (l: Layout, n: nat)
      requires 0 < l.data <= l.size < 0x1_0000_0000
      ensures Valid() && this.l == l && |inodes| == |dinodes| == n
      ensures forall i :: 0 <= i < n ==> inodes[i].size == 0 && NoHoles(disk, inodes[i])
    {
      this.l := l;
      var zeros: Block := seq(512, _ => 0);
      disk := seq(l.size, _ => zeros);
      bitmap := seq(l.size, b => b < l.data);
      inodes := seq(n, _ => Inode(0, seq(13, _ => 0)));
      dinodes := seq(n, _ => Inode(0, seq(13, _ => 0)));
      own := map[];
      tally := NoBlocks;
      steady := true;
      logged := [];
      base := Image(disk, bitmap, dinodes);
      new;
      NothingLogged(l, Now());
    }

    /** log_write, as far as the operation's reservation is concerned. */
    method LogWrite(b: nat, ghost kind: Kind)
      requires Logged(l, tally, steady, logged, base, Now(), logged + [b])
      modifies this`tally, this`steady, this`logged
      ensures tally == old(tally).Add(kind, b)
      ensures old(steady) && old(tally).Size() < MAXOPBLOCKS ==> steady
      ensures Recorded() && logged == old(logged) + [b]
    {
      tally.AddSize(kind, b);
      LoggedMore(l, tally, steady, logged, base, Now(), b, kind);
      steady := steady && |tally.All()| < MAXOPBLOCKS;
      tally := tally.Add(kind, b);
      logged := logged + [b];
    }

    /** A bit of the bitmap block changes, and log_write. */
    method PutBit(b: nat, bit: bool)
      requires Recorded() && b < |bitmap|
      modifies this`bitmap, this`tally, this`steady, this`logged
      ensures bitmap == old(bitmap)[b := bit] && Recorded()
      ensures tally == old(tally).Add(Map, l.BBlock(b))
      ensures old(steady) && old(tally).Size() < MAXOPBLOCKS ==> steady
    {
      ghost var was := Now();
      bitmap := bitmap[b := bit];
      LoggedChange(l, tally, steady, logged, base, was, Now(), l.BBlock(b));
      LogWrite(l.BBlock(b), Map);
    }

    /** A block in the cache changes, and log_write. */
    method PutBlock(b: nat, data: Block, ghost kind: Kind)
      requires Recorded() && b < |disk|
      modifies this`disk, this`tally, this`steady, this`logged
      ensures disk == old(disk)[b := data] && Recorded()
      ensures tally == old(tally).Add(kind, b)
      ensures old(steady) && old(tally).Size() < MAXOPBLOCKS ==> steady
    {
      ghost var was := Now();
      disk := disk[b := data];
      LoggedChange(l, tally, steady, logged, base, was, Now(), b);
      LogWrite(b, kind);
    }

    /** balloc's work on the free bit it has found. */
    method TakeBit(b: nat, ghost kind: Kind)
      requires Sound() && b < |bitmap| && !bitmap[b]
      modifies this`disk, this`bitmap, this`own, this`tally, this`steady, this`logged
      ensures Sound() && b !in old(own) && l.data <= b
      ensures disk == old(disk)[b := ZeroBlock()] && bitmap == old(bitmap)[b := true] && own == old(own)[b := Loose]
      ensures tally == old(tally).Add(Map, l.BBlock(b)).Add(kind, b)
      ensures old(steady) && old(tally).Size() + 1 < MAXOPBLOCKS ==> steady
    {
      OpenInv(l, disk, bitmap, inodes, own);
      TakeBlock(l, disk, bitmap, inodes, own, b);
      tally.AddSize(Map, l.BBlock(b));
      PutBit(b, true);
      PutBlock(b, ZeroBlock(), kind);
      own := own[b := Loose];
      CloseInv(l, disk, bitmap, inodes, own);
    }

    /** balloc: the first free block, marked and zeroed; false is "out of blocks". */
    method Balloc(ghost kind: Kind) returns (ok: bool, b: nat)
      requires Sound()
      modifies this`disk, this`bitmap, this`own, this`tally, this`steady, this`logged
      ensures Sound()
      ensures ok <==> exists c :: 0 <= c < |old(bitmap)| && !old(bitmap)[c]
      ensures ok ==>
                && b < |old(bitmap)| && !old(bitmap)[b] && (forall c :: 0 <= c < b ==> old(bitmap)[c])
                && b !in old(own) && l.data <= b && b < |disk|
                && disk == old(disk)[b := ZeroBlock()] && bitmap == old(bitmap)[b := true] && own == old(own)[b := Loose]
                && tally == old(tally).Add(Map, l.BBlock(b)).Add(kind, b)
      ensures !ok ==> unchanged(this)
      ensures ok && old(steady) && old(tally).Size() + 1 < MAXOPBLOCKS ==> steady
    {
      var base := 0;
      while base < |bitmap|
        invariant 0 <= base && base % BPB == 0
        invariant forall c :: 0 <= c < base && c < |bitmap| ==> bitmap[c]
        invariant unchanged(this)
      {
        var bi := 0;
        while bi < BPB && base + bi < |bitmap|
          invariant 0 <= bi <= BPB
          invariant forall c :: 0 <= c < base + bi && c < |bitmap| ==> bitmap[c]
          invariant unchanged(this)
        {
          if !bitmap[base + bi] {
            b := base + bi;
            TakeBit(b, kind);
            return true, b;
          }
          bi := bi + 1;
        }
        base := base + BPB;
      }
      return false, 0;
    }

    /** bfree of a block in use: the panic "freeing free block" does not happen. */
    method Bfree(b: nat) returns (ok: bool)
      requires Sound() && b in own && own[b] == Loose
      modifies this`bitmap, this`own, this`tally, this`steady, this`logged
      ensures Sound() && ok && b < |old(bitmap)|
      ensures bitmap == old(bitmap)[b := false] && own == old(own) - {b}
    {
      OpenInv(l, disk, bitmap, inodes, own);
      DropBlock(l, disk, bitmap, inodes, own, b);
      if !bitmap[b] {
        return false;
      }
      PutBit(b, false);
      own := own - {b};
      CloseInv(l, disk, bitmap, inodes, own);
      return true;
    }

    /** A free block for slot (i, k) of an inode, k direct or the indirect block itself. */
    method NewDirect(i: nat, k: nat) returns (ok: bool, b: nat)
      requires Valid() && i < |inodes| && k <= 12 && inodes[i].addrs[k] == 0
      modifies this`disk, this`bitmap, this`inodes, this`own, this`tally, this`steady, this`logged
      ensures Valid() && Extends(old(disk), old(inodes), disk, inodes, i)
      ensures ok ==> b != 0 && inodes == SetAddr(old(inodes), i, k, b)
      ensures ok ==> forall m :: 0 <= m < SLOTS && m != k ==> Addr(disk, inodes[i], m) == Addr(old(disk), old(inodes)[i], m)
      ensures ok ==> OneMore(old(tally), tally, b) && if k == 12 then tally.data == old(tally).data else tally.index == old(tally).index
      ensures ok && old(steady) && old(tally).Size() + 1 < MAXOPBLOCKS ==> steady
      ensures !ok ==> AllUsed(bitmap)
      ensures (ok <==> Clear(old(bitmap)) >= 1) && (ok ==> Clear(bitmap) == Clear(old(bitmap)) - 1)
    {
      OpenInv(l, disk, bitmap, inodes, own);
      ClearNone(bitmap);
      ok, b := Balloc(if k == 12 then Index else Data);
      if ok {
        ClearTaken(old(bitmap), b);
        TallyTaken(old(tally), l.BBlock(b), if k == 12 then Index else Data, b);
        TakeDirect(l, old(disk), old(bitmap), inodes, old(own), i, k, b);
        inodes := SetAddr(inodes, i, k, b);
        own := own[b := Slot(i, k)];
        CloseInv(l, disk, bitmap, inodes, own);
      }
    }

    /** A free block for entry k - 13 of the indirect block. */
    method NewIndirect(i: nat, k: nat) returns (ok: bool, b: nat)
      requires Valid() && i < |inodes| && 13 <= k < SLOTS && inodes[i].addrs[12] != 0 && Addr(disk, inodes[i], k) == 0
      modifies this`disk, this`bitmap, this`own, this`tally, this`steady, this`logged
      ensures Valid() && Extends(old(disk), inodes, disk, inodes, i)
      ensures ok ==> b != 0 && Addr(disk, inodes[i], k) == b
      ensures ok ==> forall m :: 0 <= m < SLOTS && m != k ==> Addr(disk, inodes[i], m) == Addr(old(disk), inodes[i], m)
      ensures ok ==> OneMore(old(tally), tally.(index := old(tally).index), b) && tally.index == old(tally).index + {inodes[i].addrs[12]}
      ensures ok && old(steady) && old(tally).Size() + 2 < MAXOPBLOCKS ==> steady
      ensures !ok ==> AllUsed(bitmap)
      ensures (ok <==> Clear(old(bitmap)) >= 1) && (ok ==> Clear(bitmap) == Clear(old(bitmap)) - 1)
    {
      OpenInv(l, disk, bitmap, inodes, own);
      ClearNone(bitmap);
      ok, b := Balloc(Data);
      if ok {
        ClearTaken(old(bitmap), b);
        ghost var d1 := disk;
        TakeExtends(l, old(disk), old(bitmap), inodes, old(own), i, b);
        TakeBlock(l, old(disk), old(bitmap), inodes, old(own), b);
        assert Addr(disk, inodes[i], k) == Addr(old(disk), inodes[i], k);
        old(tally).AddSize(Map, l.BBlock(b));
        old(tally).Add(Map, l.BBlock(b)).AddSize(Data, b);
        LinkIndirect(i, k, b);
        ExtendsTrans(old(disk), inodes, d1, inodes, disk, inodes, i);
        TallyTaken(old(tally), l.BBlock(b), Data, b);
      }
    }

    /** Enter a loose, zeroed block in the indirect block, and log_write that. */
    method LinkIndirect(i: nat, k: nat, b: nat)
      requires Sound() && i < |inodes| && 13 <= k < SLOTS && inodes[i].addrs[12] != 0 && Addr(disk, inodes[i], k) == 0
      requires b in own && own[b] == Loose && b < |disk| && disk[b] == ZeroBlock()
      modifies this`disk, this`own, this`tally, this`steady, this`logged
      ensures Sound() && Extends(old(disk), inodes, disk, inodes, i) && own == old(own)[b := Slot(i, k)]
      ensures Addr(disk, inodes[i], k) == b && b != 0
      ensures forall m :: 0 <= m < SLOTS && m != k ==> Addr(disk, inodes[i], m) == Addr(old(disk), inodes[i], m)
      ensures tally == old(tally).Add(Index, inodes[i].addrs[12])
      ensures old(steady) && old(tally).Size() < MAXOPBLOCKS ==> steady
    {
      OpenInv(l, disk, bitmap, inodes, own);
      SetIndirect(l, disk, bitmap, inodes, own, i, k, b);
      assert HolderAt(l, disk, inodes, own, b);
      var ind := inodes[i].addrs[12];
      assert SlotAt(l, disk, inodes, own, i, 12);
      ghost var d1 := disk;
      PutBlock(ind, PutLe(disk[ind], k - 13, b), Index);
      SlotExtends(l, d1, bitmap, inodes, own, disk, inodes, i, k, b, ind);
      own := own[b := Slot(i, k)];
      CloseInv(l, disk, bitmap, inodes, own);
    }

    /** How many blocks bmap(i, bn) has to allocate. */
    ghost function Missing(i: nat, bn: nat): nat
      requires i < |inodes| && |inodes[i].addrs| == 13
      reads this
    {
      (if BlockOf(disk, inodes[i], bn) == 0 then 1 else 0) + (if bn >= 12 && inodes[i].addrs[12] == 0 then 1 else 0)
    }

    /** The tally counts at most one indirect block, that of inode i. */
    ghost predicate OneIndex(i: nat)
      requires i < |inodes| && |inodes[i].addrs| == 13
      reads this
    {
      forall x :: x in tally.index ==> x != 0 && x == inodes[i].addrs[12]
    }

    /**
     bmap: the block address of the file's bn-th block, allocated if need be; false is a
     panic for lack of blocks.  No byte of any file changes.
     */
    method Bmap(i: nat, bn: nat) returns (ok: bool, addr: nat)
      requires Valid() && i < |inodes| && bn < MAXFILE
      modifies this`disk, this`bitmap, this`inodes, this`own, this`tally, this`steady, this`logged
      ensures Valid() && Extends(old(disk), old(inodes), disk, inodes, i)
      ensures ok ==> addr != 0 && addr == BlockOf(disk, inodes[i], bn)
      ensures BlockOf(old(disk), old(inodes)[i], bn) != 0 ==>
                ok && unchanged(this)
      ensures ok && old(OneIndex(i)) ==> OneIndex(i)
      ensures ok ==> tally.node == old(tally).node && |tally.data| <= |old(tally).data| + 1 && tally.data <= old(tally).data + {addr}
      ensures ok ==> |tally.maps| <= |old(tally).maps| + old(Missing(i, bn))
      ensures ok && old(steady && OneIndex(i)) && |old(tally).data| + |old(tally).maps| + |old(tally).node| + 2 + old(Missing(i, bn)) < MAXOPBLOCKS ==> steady
      ensures !ok ==> AllUsed(bitmap)
      ensures (ok <==> Clear(old(bitmap)) >= old(Missing(i, bn))) && (ok ==> Clear(bitmap) == Clear(old(bitmap)) - old(Missing(i, bn)))
      ensures ok ==> MapsOnly(old(disk), old(inodes)[i], disk, inodes[i], bn)
    {
      if bn >= 12 {
        ok, addr := BmapIndirect(i, bn);
        return;
      }
      addr := inodes[i].addrs[bn];
      ok := true;
      if addr == 0 {
        if OneIndex(i) {
          AtMostOne(tally.index, inodes[i].addrs[12]);
        }
        ok, addr := NewDirect(i, bn);
        if ok {
          DirectMaps(old(disk), old(inodes)[i], disk, inodes[i], bn);
        }
      }
    }

    /** The part of bmap for blocks that the indirect block lists. */
    method BmapIndirect(i: nat, bn: nat) returns (ok: bool, addr: nat)
      requires Valid() && i < |inodes| && 12 <= bn < MAXFILE
      modifies this`disk, this`bitmap, this`inodes, this`own, this`tally, this`steady, this`logged
      ensures Valid() && Extends(old(disk), old(inodes), disk, inodes, i)
      ensures ok ==> addr != 0 && addr == BlockOf(disk, inodes[i], bn)
      ensures BlockOf(old(disk), old(inodes)[i], bn) != 0 ==>
                ok && unchanged(this)
      ensures ok && old(OneIndex(i)) ==> OneIndex(i)
      ensures ok ==> tally.node == old(tally).node && |tally.data| <= |old(tally).data| + 1 && tally.data <= old(tally).data + {addr}
      ensures ok ==> |tally.maps| <= |old(tally).maps| + old(Missing(i, bn))
      ensures ok && old(steady && OneIndex(i)) && |old(tally).data| + |old(tally).maps| + |old(tally).node| + 2 + old(Missing(i, bn)) < MAXOPBLOCKS ==> steady
      ensures !ok ==> AllUsed(bitmap)
      ensures (ok <==> Clear(old(bitmap)) >= old(Missing(i, bn))) && (ok ==> Clear(bitmap) == Clear(old(bitmap)) - old(Missing(i, bn)))
      ensures ok ==> MapsOnly(old(disk), old(inodes)[i], disk, inodes[i], bn)
    {
      if OneIndex(i) {
        AtMostOne(tally.index, inodes[i].addrs[12]);
      }
      ok := EnsureIndirect(i);
      if !ok {
        return false, 0;
      }
      ghost var d1, n1 := disk, inodes;
      ok, addr := BmapEntry(i, bn);
      ExtendsTrans(old(disk), old(inodes), d1, n1, disk, inodes, i);
      if ok {
        MapsAfterIndirect(old(disk), old(inodes)[i], d1, n1[i], disk, inodes[i], bn);
      }
    }

    /** Read the entry of the indirect block, allocating the block it lists if there is none. */
    method BmapEntry(i: nat, bn: nat) returns (ok: bool, addr: nat)
      requires Valid() && i < |inodes| && 12 <= bn < MAXFILE && 0 != inodes[i].addrs[12] < |disk|
      modifies this`disk, this`bitmap, this`inodes, this`own, this`tally, this`steady, this`logged
      ensures Valid() && Extends(old(disk), old(inodes), disk, inodes, i)
      ensures ok ==> addr != 0 && addr == BlockOf(disk, inodes[i], bn)
      ensures BlockOf(old(disk), old(inodes)[i], bn) != 0 ==>
                ok && unchanged(this)
      ensures ok && old(OneIndex(i)) ==> OneIndex(i)
      ensures ok ==> tally.node == old(tally).node && |tally.data| <= |old(tally).data| + 1 && tally.data <= old(tally).data + {addr}
      ensures ok ==> |tally.maps| <= |old(tally).maps| + 1
      ensures ok && old(steady && OneIndex(i)) && |old(tally).data| + |old(tally).maps| + |old(tally).node| + 3 < MAXOPBLOCKS ==> steady
      ensures !ok ==> AllUsed(bitmap)
      ensures (ok <==> Clear(old(bitmap)) >= old(Missing(i, bn))) && (ok ==> Clear(bitmap) == Clear(old(bitmap)) - old(Missing(i, bn)))
      ensures ok ==> MapsOnly(old(disk), old(inodes)[i], disk, inodes[i], bn)
    {
      addr := Le(disk[inodes[i].addrs[12]], bn - 12);
      ok := true;
      if addr == 0 {
        if OneIndex(i) {
          AtMostOne(tally.index, inodes[i].addrs[12]);
        }
        ok, addr := NewIndirect(i, bn + 1);
      }
    }

    /** Load the indirect block, allocating it if necessary. */
    method EnsureIndirect(i: nat) returns (ok: bool)
      requires Valid() && i < |inodes|
      modifies this`disk, this`bitmap, this`inodes, this`own, this`tally, this`steady, this`logged
      ensures Valid() && Extends(old(disk), old(inodes), disk, inodes, i)
      ensures ok ==> 0 != inodes[i].addrs[12] < |disk|
      ensures old(inodes)[i].addrs[12] != 0 ==>
                ok && unchanged(this)
      ensures old(inodes)[i].addrs[12] == 0 && ok ==> forall k :: 13 <= k < SLOTS ==> Addr(disk, inodes[i], k) == 0
      ensures ok && old(OneIndex(i)) ==> OneIndex(i)
      ensures ok ==> tally.node == old(tally).node && tally.data == old(tally).data
      ensures ok ==> |tally.maps| <= |old(tally).maps| + (if old(inodes)[i].addrs[12] == 0 then 1 else 0)
      ensures ok && old(steady) && old(tally).Size() + 1 < MAXOPBLOCKS ==> steady
      ensures !ok ==> AllUsed(bitmap)
      ensures var need := if old(inodes)[i].addrs[12] == 0 then 1 else 0;
              (ok <==> Clear(old(bitmap)) >= need) && (ok ==> Clear(bitmap) == Clear(old(bitmap)) - need)
      ensures ok ==> forall m :: 0 <= m < SLOTS && m != 12 ==> Addr(disk, inodes[i], m) == Addr(old(disk), old(inodes)[i], m)
    {
      ok := true;
      if inodes[i].addrs[12] == 0 {
        var b;
        ok, b := NewDirect(i, 12);
      }
      if ok {
        OpenInv(l, disk, bitmap, inodes, own);
        assert SlotAt(l, disk, inodes, own, i, 12);
        assert HolderAt(l, disk, inodes, own, inodes[i].addrs[12]);
      }
    }

    /** One round of writei's loop. */
    method WriteBlock(i: nat, off: nat, piece: seq<byte>) returns (ok: bool)
      requires Valid() && i < |inodes| && off / 512 < MAXFILE && off % 512 + |piece| <= 512
      modifies this`disk, this`bitmap, this`inodes, this`own, this`tally, this`steady, this`logged
      ensures Valid()
      ensures ok ==> Wrote(old(disk), old(inodes), disk, inodes, i, off, piece) && BlockOf(disk, inodes[i], off / 512) != 0
      ensures !ok ==> Extends(old(disk), old(inodes), disk, inodes, i)
      ensures BlockOf(old(disk), old(inodes)[i], off / 512) != 0 ==> ok && inodes == old(inodes)
      ensures ok && old(OneIndex(i)) ==> OneIndex(i)
      ensures ok ==> tally.node == old(tally).node && |tally.data| <= |old(tally).data| + 1
      ensures ok ==> |tally.maps| <= |old(tally).maps| + old(Missing(i, off / 512))
      ensures ok && old(steady && OneIndex(i))
              && |old(tally).data| + |old(tally).maps| + |old(tally).node| + 2 + old(Missing(i, off / 512)) < MAXOPBLOCKS
              ==> steady
      ensures !ok ==> AllUsed(bitmap)
      ensures (ok <==> Clear(old(bitmap)) >= old(Missing(i, off / 512))) && (ok ==> Clear(bitmap) == Clear(old(bitmap)) - old(Missing(i, off / 512)))
      ensures ok ==> MapsOnly(old(disk), old(inodes)[i], disk, inodes[i], off / 512)
    {
      var addr;
      ok, addr := Bmap(i, off / 512);
      if !ok {
        return;
      }
      ghost var d1, n1, t1 := disk, inodes, tally;
      PutBytes(i, off, piece, addr);
      ExtendsThenWrote(old(disk), old(inodes), d1, n1, disk, inodes, i, off, piece);
      LogRun.GrowSet(old(tally).data, addr);
      assert t1.data + {addr} <= old(tally).data + {addr};
      SubsetSize(t1.data + {addr}, old(tally).data + {addr});
    }

    /** memmove into the mapped block, and log_write. */
    method PutBytes(i: nat, off: nat, piece: seq<byte>, addr: nat)
      requires Valid() && i < |inodes| && off / 512 < MAXFILE && off % 512 + |piece| <= 512
      requires addr != 0 && addr == BlockOf(disk, inodes[i], off / 512)
      modifies this`disk, this`tally, this`steady, this`logged
      ensures Valid() && Wrote(old(disk), inodes, disk, inodes, i, off, piece) && BlockOf(disk, inodes[i], off / 512) == addr
      ensures forall m :: 0 <= m < SLOTS ==> Addr(disk, inodes[i], m) == Addr(old(disk), inodes[i], m)
      ensures tally == old(tally).Add(Data, addr)
      ensures old(steady && OneIndex(i)) && |old(tally).data| + |old(tally).maps| + |old(tally).node| + 1 < MAXOPBLOCKS ==> steady
    {
      OpenInv(l, disk, bitmap, inodes, own);
      PatchWrites(l, disk, bitmap, inodes, own, i, off, piece);
      ghost var d1 := disk;
      if OneIndex(i) {
        AtMostOne(tally.index, inodes[i].addrs[12]);
      }
      PutBlock(addr, Patch(disk[addr], off % 512, piece), Data);
      CloseInv(l, disk, bitmap, inodes, own);
      assert Addr(disk, inodes[i], SlotOf(off / 512)) == Addr(d1, inodes[i], SlotOf(off / 512));
    }

    /** iupdate: copy the in-memory inode to disk. */
    method IUpdate(i: nat)
      requires i < |inodes| && |dinodes| == |inodes| && Recorded()
      modifies this`dinodes, this`tally, this`steady, this`logged
      ensures dinodes == old(dinodes)[i := inodes[i]]
      ensures tally == old(tally).Add(Node, l.IBlock(i)) && Recorded()
      ensures old(steady) && old(tally).Size() < MAXOPBLOCKS ==> steady
    {
      ghost var was := Now();
      dinodes := dinodes[i := inodes[i]];
      LoggedChange(l, tally, steady, logged, base, was, Now(), l.IBlock(i));
      LogWrite(l.IBlock(i), Node);
    }

    /**
     writei: overwrite the file's bytes from off on, extending it if need be.  A write of at
     most three blocks' length to a file without holes logs at most MAXOPBLOCKS distinct
     blocks, and fewer than MAXOPBLOCKS are logged whenever log_write is called.
     */
    method WriteI(i: nat, off: nat, src: seq<byte>) returns (r: WriteResult)
      requires Valid() && i < |inodes| == |dinodes| && off < UINT && |src| < UINT
      modifies this`disk, this`bitmap, this`inodes, this`dinodes, this`own, this`tally, this`steady, this`logged
      ensures Valid() && |inodes| == |dinodes| == |old(inodes)|
      ensures r.Failed? <==> off > old(inodes)[i].size || off + |src| >= UINT || off + |src| > MAXFILE * 512
      ensures r.Failed? ==> unchanged(this)
      ensures r.Done? ==> Content(disk, inodes[i]) == Overwrite(Content(old(disk), old(inodes)[i]), off, src)
      ensures r.Done? && old(NoHoles(disk, inodes[i])) ==> NoHoles(disk, inodes[i])
      ensures OthersSame(old(disk), old(inodes), disk, inodes, i)
      ensures r.Done? && old(NoHoles(disk, inodes[i]) && dinodes[i] == inodes[i]) ==> dinodes[i] == inodes[i]
      ensures dinodes == old(dinodes)[i := dinodes[i]]
      ensures r.Done? && old(Fresh(i)) && |src| <= 3 * 512 ==> steady && tally.Size() <= MAXOPBLOCKS
      ensures r.Full? <==> !r.Failed? && !Mappable(old(disk), old(inodes)[i], old(bitmap), off, |src|, true)
      ensures r.Full? ==> AllUsed(bitmap) && exists tot :: 0 <= tot <= |src| && Wrote(old(disk), old(inodes), disk, inodes, i, off, src[..tot])
    {
      if off > inodes[i].size || (off + |src|) % UINT < off {
        return Failed;
      }
      if off + |src| > MAXFILE * 512 {
        return Failed;
      }
      r := WriteLoop(i, off, src);
    }

    /** An operation that has logged nothing is about to write a file without holes. */
    ghost predicate Fresh(i: nat)
      requires i < |inodes|
      reads this
    {
      tally == NoBlocks && steady && NoHoles(disk, inodes[i])
    }

    /** writei's loop and the size update after it. */
    method WriteLoop(i: nat, off: nat, src: seq<byte>) returns (r: WriteResult)
      requires Valid() && i < |inodes| == |dinodes|
      requires off <= inodes[i].size && off + |src| <= MAXFILE * 512
      modifies this`disk, this`bitmap, this`inodes, this`dinodes, this`own, this`tally, this`steady, this`logged
      ensures Valid() && |inodes| == |dinodes| == |old(inodes)| && !r.Failed?
      ensures r.Full? <==> !r.Failed? && !Mappable(old(disk), old(inodes)[i], old(bitmap), off, |src|, true)
      ensures r.Full? ==> AllUsed(bitmap) && exists tot :: 0 <= tot <= |src| && Wrote(old(disk), old(inodes), disk, inodes, i, off, src[..tot])
      ensures r.Done? ==> Content(disk, inodes[i]) == Overwrite(Content(old(disk), old(inodes)[i]), off, src)
      ensures r.Done? && old(NoHoles(disk, inodes[i])) ==> NoHoles(disk, inodes[i])
      ensures OthersSame(old(disk), old(inodes), disk, inodes, i)
      ensures r.Done? && old(NoHoles(disk, inodes[i]) && dinodes[i] == inodes[i]) ==> dinodes[i] == inodes[i]
      ensures dinodes == old(dinodes)[i := dinodes[i]]
      ensures r.Done? && old(Fresh(i)) && |src| <= 3 * 512 ==> steady && tally.Size() <= MAXOPBLOCKS
    {
      ghost var a, small := Here(), Fresh(i) && |src| <= 3 * 512;
      MidwayStarts(a, i, off, src, small);
      var ok := WriteBlocks(i, off, src, a, small);
      if !ok {
        EndedFacts(a, Here(), i, off, src);
        return Full;
      }
      OpenMidway(a, Here(), i, off, src, |src|, small);
      ProgressDone(old(disk), old(inodes), disk, inodes, i, off, src);
      AllMapped(old(disk), old(inodes)[i], old(bitmap), disk, inodes[i], bitmap, off, |src|);
      ghost var n1 := inodes;
      Grow(i, off, |src|, small, old(inodes)[i].addrs[12]);
      WroteContent(old(disk), old(inodes), disk, n1, inodes, i, off, src);
      return Done;
    }

    /** The end of writei: a longer file gets its new size, in memory and on disk. */
    method Grow(i: nat, off: nat, n: nat, ghost small: bool, ghost ind: nat)
      requires Valid() && i < |inodes| == |dinodes| && (small ==> n <= 3 * 512 && SparingAt(Here(), i, off, n, ind))
      modifies this`inodes, this`dinodes, this`tally, this`steady, this`logged
      ensures Valid()
      ensures inodes == if n > 0 && off + n > old(inodes)[i].size then old(inodes)[i := old(inodes)[i].(size := off + n)] else old(inodes)
      ensures dinodes == if n > 0 && off + n > old(inodes)[i].size then old(dinodes)[i := inodes[i]] else old(dinodes)
      ensures small ==> steady && tally.Size() <= MAXOPBLOCKS
    {
      if small {
        OpenSparing(Here(), i, off, n, ind);
        GrowFits(tally, inodes[i].addrs[12], off, n, ind, l.IBlock(i));
      }
      if n > 0 && off + n > inodes[i].size {
        OpenInv(l, disk, bitmap, inodes, own);
        Resized(l, disk, bitmap, inodes, own, i, off + n);
        inodes := inodes[i := inodes[i].(size := off + n)];
        CloseInv(l, disk, bitmap, inodes, own);
        IUpdate(i);
      }
    }

    /** WriteBlock, with the bound on what it logs. */
    method WriteRound(i: nat, off: nat, piece: seq<byte>, ghost t: nat, ghost t': nat, ghost start: nat, ghost ind: nat) returns (ok: bool)
      requires Valid() && i < |inodes| && off / 512 < MAXFILE && off % 512 + |piece| <= 512
      modifies this`disk, this`bitmap, this`inodes, this`own, this`tally, this`steady, this`logged
      ensures Valid() && |inodes| == |old(inodes)|
      ensures ok ==> Piece(old(disk), old(inodes), disk, inodes, i, off, piece)
      ensures !ok ==> Halted(old(disk), old(inodes), disk, inodes, i) && AllUsed(bitmap)
      ensures ok && Sparing(old(Here()), i, t, start, ind) && t' == t + 1 <= (if start % 512 != 0 then 4 else 3)
              && (t == 0 && start % 512 != 0 ==> BlockOf(old(disk), old(inodes)[i], off / 512) != 0)
              && (ind != 0 ==> old(inodes)[i].addrs[12] == ind)
              ==> Sparing(Here(), i, t', start, ind)
      ensures ok <==> Clear(old(bitmap)) >= old(Missing(i, off / 512))
      ensures ok ==> Clear(bitmap) == Clear(old(bitmap)) - old(Missing(i, off / 512)) && MapsOnly(old(disk), old(inodes)[i], disk, inodes[i], off / 512)
    {
      ghost var sparing := && Sparing(Here(), i, t, start, ind)
                           && (t == 0 && start % 512 != 0 ==> BlockOf(disk, inodes[i], off / 512) != 0)
                           && (ind != 0 ==> inodes[i].addrs[12] == ind);
      ghost var bn, index := off / 512, inodes[i].addrs[12];
      ghost var data := if BlockOf(disk, inodes[i], bn) == 0 then 1 else 0;
      ghost var node := if bn >= 12 && index == 0 then 1 else 0;
      ok := WriteBlock(i, off, piece);
      if ok && sparing {
        assert index != 0 ==> Addr(disk, inodes[i], 12) == Addr(old(disk), old(inodes)[i], 12);
        ThriftNext(old(tally), index, tally, inodes[i].addrs[12], t, start, ind, data, node);
      }
      if ok {
        PieceDone(old(disk), old(inodes), disk, inodes, i, off, piece);
      } else {
        NoPiece(old(disk), old(inodes), disk, inodes, i);
      }
    }

    /** WriteRound for the bytes from tot to tot'. */
    method WritePiece(i: nat, off: nat, src: seq<byte>, tot: nat, tot': nat, ghost a: Stage, ghost small: bool) returns (ok: bool)
      requires Valid() && i < |inodes| && tot < |src| && off + |src| <= MAXFILE * 512 && Midway(a, Here(), i, off, src, tot, small)
      requires tot' == tot + Chunk(off + tot, |src| - tot)
      modifies this`disk, this`bitmap, this`inodes, this`own, this`tally, this`steady, this`logged
      ensures Valid() && |inodes| == |old(inodes)|
      ensures ok ==> Piece(old(disk), old(inodes), disk, inodes, i, off + tot, src[tot..tot'])
      ensures ok ==> MapsOnly(old(disk), old(inodes)[i], disk, inodes[i], (off + tot) / 512)
      ensures ok ==> Clear(bitmap) == Clear(old(bitmap)) - old(Missing(i, (off + tot) / 512))
      ensures ok && small ==> i < |a.n| && |a.n[i].addrs| == 13 && SparingAt(Here(), i, off, tot', a.n[i].addrs[12])
      ensures !ok ==> Halted(old(disk), old(inodes), disk, inodes, i) && AllUsed(bitmap) && Clear(old(bitmap)) < old(Missing(i, (off + tot) / 512))
    {
      MidwayRound(a, Here(), i, off, src, tot, tot', small);
      ok := WriteRound(i, off + tot, src[tot..tot'], Touched(off, tot), Touched(off, tot'), off, a.n[i].addrs[12]);
      if ok && small {
        CloseSparing(Here(), i, off, tot', a.n[i].addrs[12]);
      }
    }

    /** The next round. */
    method WriteNext(i: nat, off: nat, src: seq<byte>, tot: nat, ghost a: Stage, ghost small: bool) returns (ok: bool, tot': nat)
      requires Valid() && i < |inodes| && tot < |src| && off + |src| <= MAXFILE * 512 && Midway(a, Here(), i, off, src, tot, small)
      modifies this`disk, this`bitmap, this`inodes, this`own, this`tally, this`steady, this`logged
      ensures Valid() && |inodes| == |old(inodes)|
      ensures ok ==> tot < tot' <= |src| && Midway(a, Here(), i, off, src, tot', small)
      ensures !ok ==> AllUsed(bitmap) && Ended(a, Here(), i, off, src)
    {
      tot' := tot + Chunk(off + tot, |src| - tot);
      ok := WritePiece(i, off, src, tot, tot', a, small);
      if ok {
        MidwayMore(a, old(Here()), Here(), i, off, src, tot, tot', small);
      } else {
        MidwayEnds(a, old(Here()), Here(), i, off, src, tot, small);
      }
    }

    /** writei's loop. */
    method WriteBlocks(i: nat, off: nat, src: seq<byte>, ghost a: Stage, ghost small: bool) returns (ok: bool)
      requires Valid() && i < |inodes| && off + |src| <= MAXFILE * 512 && Midway(a, Here(), i, off, src, 0, small)
      modifies this`disk, this`bitmap, this`inodes, this`own, this`tally, this`steady, this`logged
      ensures Valid() && |inodes| == |old(inodes)|
      ensures ok ==> Midway(a, Here(), i, off, src, |src|, small)
      ensures !ok ==> AllUsed(bitmap) && Ended(a, Here(), i, off, src)
    {
      var tot := 0;
      while tot < |src|
        invariant 0 <= tot <= |src| && Valid() && |inodes| == |old(inodes)|
        invariant Midway(a, Here(), i, off, src, tot, small)
      {
        ok, tot := WriteNext(i, off, src, tot, a, small);
        if !ok {
          return;
        }
      }
      ok := true;
    }

    /**
     One round of readi's loop. An unmapped block is allocated, and reads as zeros before as after;
     balloc's log_write panics if no operation is running.
     */
    method ReadBlock(i: nat, pos: nat, m: nat, op: bool) returns (ok: bool, piece: seq<byte>)
      requires Valid() && i < |inodes| && pos / 512 < MAXFILE && pos % 512 + m <= 512 && 0 < m
      modifies this`disk, this`bitmap, this`inodes, this`own, this`tally, this`steady, this`logged
      ensures Valid() && Extends(old(disk), old(inodes), disk, inodes, i)
      ensures ok ==> |piece| == m && forall x :: 0 <= x < m ==> piece[x] == ByteAt(old(disk), old(inodes)[i], pos + x)
      ensures BlockOf(old(disk), old(inodes)[i], pos / 512) != 0 || !op ==> unchanged(this)
      ensures ok <==> if op then Clear(old(bitmap)) >= old(Missing(i, pos / 512)) else BlockOf(old(disk), old(inodes)[i], pos / 512) != 0
      ensures ok ==> Clear(bitmap) == Clear(old(bitmap)) - old(Missing(i, pos / 512))
      ensures ok ==> MapsOnly(old(disk), old(inodes)[i], disk, inodes[i], pos / 512)
    {
      if !op && BlockOf(disk, inodes[i], pos / 512) == 0 {
        return false, [];
      }
      var addr;
      ok, addr := Bmap(i, pos / 512);
      if !ok {
        return false, [];
      }
      InRange(i, pos / 512);
      piece := disk[addr][pos % 512..pos % 512 + m];
      PieceIs(old(disk), old(inodes), disk, inodes, i, pos, m);
    }

    lemma InRange(i: nat, bn: nat)
      requires Sound() && i < |inodes| && bn < MAXFILE && BlockOf(disk, inodes[i], bn) != 0
      ensures BlockOf(disk, inodes[i], bn) < |disk|
    {
      OpenInv(l, disk, bitmap, inodes, own);
      assert SlotAt(l, disk, inodes, own, i, SlotOf(bn));
      assert HolderAt(l, disk, inodes, own, BlockOf(disk, inodes[i], bn));
    }

    /** The next round, which reads block `cur` of the file; false is a panic. */
    method ReadNext(i: nat, pos: nat, left: nat, op: bool, ghost d0: Disk, ghost ip0: Inode, ghost bm0: seq<bool>, ghost a: nat, ghost cur: nat, ghost cur': nat)
      returns (ok: bool, piece: seq<byte>)
      requires Valid() && i < |inodes| && 0 < left && cur' == cur + 1 && pos + left <= inodes[i].size
      requires a <= pos / 512 == cur && |ip0.addrs| == 13 && MappedUpTo(d0, ip0, bm0, disk, inodes[i], bitmap, a, cur, op)
      modifies this`disk, this`bitmap, this`inodes, this`own, this`tally, this`steady, this`logged
      ensures Valid() && SameFiles(old(disk), old(inodes), disk, inodes)
      ensures ok ==> |piece| == Chunk(pos, left) && piece == Content(old(disk), old(inodes)[i])[pos..pos + |piece|]
      ensures ok ==> MappedUpTo(d0, ip0, bm0, disk, inodes[i], bitmap, a, cur', op)
      ensures !ok ==> Stuck(d0, ip0, bm0, a, cur, op)
      ensures BlockOf(d0, ip0, cur) != 0 || !op ==> unchanged(this)
    {
      if pos / 512 >= MAXFILE {
        return false, [];
      }
      assert pos / 512 * 512 <= pos;
      NextMissing(d0, ip0, bm0, disk, inodes[i], bitmap, a, cur, op);
      ok, piece := ReadBlock(i, pos, Chunk(pos, left), op);
      ExtendsSame(old(disk), old(inodes), disk, inodes, i);
      if ok {
        MappedMore(d0, ip0, bm0, old(disk), old(inodes)[i], old(bitmap), disk, inodes[i], bitmap, a, cur, cur', op);
      }
    }

    /**
     readi, while an operation is running somewhere (`op`) or not: a slice of the file.  It panics
     exactly if a block of the range is past MAXFILE, or is a hole and no operation is running, or
     the free blocks do not suffice for the holes.  On a file without holes it changes nothing.
     */
    method ReadI(i: nat, off: nat, n: nat, op: bool) returns (r: ReadResult, dst: seq<byte>)
      requires Valid() && i < |inodes| && off < UINT && n < UINT
      modifies this`disk, this`bitmap, this`inodes, this`own, this`tally, this`steady, this`logged
      ensures Valid() && SameFiles(old(disk), old(inodes), disk, inodes)
      ensures r.NotRead? <==> off > old(inodes)[i].size || off + n >= UINT
      ensures r.ReadDone? ==> dst == Content(old(disk), old(inodes)[i])[off..off + Clip(old(inodes)[i].size, off, n)]
      ensures r.ReadPanic? <==> !r.NotRead? && !Mappable(old(disk), old(inodes)[i], old(bitmap), off, Clip(old(inodes)[i].size, off, n), op)
      ensures r.NotRead? || !op || Holes(old(disk), old(inodes)[i], off / 512, (off + Clip(old(inodes)[i].size, off, n) + 511) / 512) == 0
              ==> unchanged(this)
      ensures old(NoHoles(disk, inodes[i])) ==> !r.ReadPanic? && unchanged(this)
    {
      if off > inodes[i].size || (off + n) % UINT < off {
        return NotRead, [];
      }
      if NoHoles(disk, inodes[i]) {
        NoneToFill(disk, inodes[i], off / 512, (off + Clip(inodes[i].size, off, n) + 511) / 512);
      }
      var ok;
      ok, dst := ReadLoop(i, off, Clip(inodes[i].size, off, n), op);
      r := if ok then ReadDone else ReadPanic;
    }

    /** The next round, from the state (d0, n0, bm0) before the read. */
    method ReadRound(i: nat, off: nat, left: nat, op: bool, tot: nat, dst: seq<byte>, ghost d0: Disk, ghost n0: seq<Inode>, ghost bm0: seq<bool>, ghost cur: nat)
      returns (ok: bool, tot': nat, dst': seq<byte>, ghost cur': nat)
      requires Valid() && i < |inodes| && tot < left && Reading(d0, n0, bm0, disk, inodes, bitmap, i, off, left, op, tot, dst, cur)
      modifies this`disk, this`bitmap, this`inodes, this`own, this`tally, this`steady, this`logged
      ensures Valid() && |inodes| == |old(inodes)| == |n0| && SameFiles(d0, n0, disk, inodes)
      ensures ok ==> tot < tot' <= left && Reading(d0, n0, bm0, disk, inodes, bitmap, i, off, left, op, tot', dst', cur')
      ensures !ok ==> !Mappable(d0, n0[i], bm0, off, left, op)
      ensures cur' == cur + 1 && off / 512 <= cur < (off + left + 511) / 512 && (BlockOf(d0, n0[i], cur) != 0 || !op ==> unchanged(this))
    {
      ReadingFacts(d0, n0, bm0, disk, inodes, bitmap, i, off, left, op, tot, dst, cur);
      AtBlockNext(off, tot, left, cur);
      cur' := cur + 1;
      var piece;
      ok, piece := ReadNext(i, off + tot, left - tot, op, d0, n0[i], bm0, off / 512, cur, cur');
      SameFilesMore(d0, n0, old(disk), old(inodes), disk, inodes, i);
      tot', dst' := tot + |piece|, dst + piece;
      if ok {
        ReadingMore(d0, n0, bm0, disk, inodes, bitmap, i, off, left, op, tot, dst, piece, tot', dst', cur, cur');
      } else {
        StuckFails(d0, n0[i], bm0, off, left, cur, op);
      }
    }

    /** readi's loop; false is a panic. */
    method ReadLoop(i: nat, off: nat, left: nat, op: bool) returns (ok: bool, dst: seq<byte>)
      requires Valid() && i < |inodes| && off + left <= inodes[i].size
      modifies this`disk, this`bitmap, this`inodes, this`own, this`tally, this`steady, this`logged
      ensures Valid() && SameFiles(old(disk), old(inodes), disk, inodes)
      ensures ok ==> dst == Content(old(disk), old(inodes)[i])[off..off + left]
      ensures ok <==> Mappable(old(disk), old(inodes)[i], old(bitmap), off, left, op)
      ensures Holes(old(disk), old(inodes)[i], off / 512, (off + left + 511) / 512) == 0 || !op ==> unchanged(this)
    {
      dst := [];
      var tot: nat := 0;
      ghost var cur: nat := off / 512;
      ReadStarts(disk, inodes, bitmap, i, off, left, op);
      while tot < left
        invariant tot <= left && Valid() && |inodes| == |old(inodes)|
        invariant Reading(old(disk), old(inodes), old(bitmap), disk, inodes, bitmap, i, off, left, op, tot, dst, cur)
        invariant Holes(old(disk), old(inodes)[i], off / 512, cur) == 0 || !op ==> unchanged(this)
      {
        ghost var at := cur;
        ok, tot, dst, cur := ReadRound(i, off, left, op, tot, dst, old(disk), old(inodes), old(bitmap), cur);
        NoHoleSoFar(old(disk), old(inodes)[i], off / 512, at, (off + left + 511) / 512);
        if !ok {
          return;
        }
      }
      ReadAll(old(disk), old(inodes), old(bitmap), disk, inodes, bitmap, i, off, left, op, tot, dst, cur);
      ok := true;
    }

    /** A file of nonzero size whose first block is a hole: fileread outside any operation panics. */
    method ReadHole(i: nat) returns (r: ReadResult)
      requires Valid() && i < |inodes| && inodes[i].size > 0 && BlockOf(disk, inodes[i], 0) == 0
      modifies this`disk, this`bitmap, this`inodes, this`own, this`tally, this`steady, this`logged
      ensures r.ReadPanic?
    {
      var dst;
      r, dst := ReadI(i, 0, 1, false);
    }

    /** writei and then readi of the same range give the data back. */
    method WriteThenRead(i: nat, off: nat, src: seq<byte>) returns (w: WriteResult, dst: seq<byte>)
      requires Valid() && i < |inodes| == |dinodes| && NoHoles(disk, inodes[i]) && off < UINT && |src| < UINT
      modifies this`disk, this`bitmap, this`inodes, this`dinodes, this`own, this`tally, this`steady, this`logged
      ensures Valid()
      ensures w.Done? ==> dst == src
    {
      dst := [];
      w := WriteI(i, off, src);
      if w.Done? {
        ReadBack(Content(old(disk), old(inodes)[i]), off, src);
        var r;
        r, dst := ReadI(i, off, |src|, false);
      }
    }

    /** One round of itrunc's loop over the direct blocks. */
    method TruncSlot(i: nat, k: nat)
      requires Valid() && i < |inodes| && k < 12
      modifies this`bitmap, this`inodes, this`own, this`tally, this`steady, this`logged
      ensures Valid() && inodes == SetAddr(old(inodes), i, k, 0)
      ensures Gone(old(own), own, i, k, k + 1)
    {
      OpenInv(l, disk, bitmap, inodes, own);
      OnlySlot(l, disk, bitmap, inodes, own, i, k);
      var b := inodes[i].addrs[k];
      if b == 0 {
        assert inodes[i].addrs == inodes[i].addrs[k := 0];
        assert inodes == SetAddr(inodes, i, k, 0);
        return;
      }
      DetachDirect(l, disk, bitmap, inodes, own, i, k);
      inodes := SetAddr(inodes, i, k, 0);
      own := own[b := Loose];
      CloseInv(l, disk, bitmap, inodes, own);
      var _ := Bfree(b);
    }

    /** itrunc's loop over the direct blocks. */
    method TruncDirect(i: nat)
      requires Valid() && i < |inodes|
      modifies this`bitmap, this`inodes, this`own, this`tally, this`steady, this`logged
      ensures Valid() && |inodes| == |old(inodes)|
      ensures inodes[i].addrs[..12] == seq(12, _ => 0) && inodes[i].addrs[12] == old(inodes)[i].addrs[12] && inodes[i].size == old(inodes)[i].size
      ensures forall j :: 0 <= j < |inodes| && j != i ==> inodes[j] == old(inodes)[j]
      ensures Gone(old(own), own, i, 0, 12)
    {
      var k := 0;
      while k < NDIRECT
        invariant 0 <= k <= 12 && Valid() && |inodes| == |old(inodes)|
        invariant forall m :: 0 <= m < k ==> inodes[i].addrs[m] == 0
        invariant inodes[i].addrs[12] == old(inodes)[i].addrs[12] && inodes[i].size == old(inodes)[i].size
        invariant forall j :: 0 <= j < |inodes| && j != i ==> inodes[j] == old(inodes)[j]
        invariant Gone(old(own), own, i, 0, k)
      {
        ghost var own1 := own;
        TruncSlot(i, k);
        GoneMore(old(own), own1, own, i, 0, k);
        k := k + 1;
      }
    }

    /** itrunc's work on the indirect block and the blocks it lists. */
    method TruncIndirect(i: nat)
      requires Valid() && i < |inodes|
      modifies this`bitmap, this`inodes, this`own, this`tally, this`steady, this`logged
      ensures Valid() && |inodes| == |old(inodes)|
      ensures inodes == SetAddr(old(inodes), i, 12, 0)
      ensures Gone(old(own), own, i, 12, SLOTS)
    {
      OpenInv(l, disk, bitmap, inodes, own);
      var ind := inodes[i].addrs[12];
      if ind == 0 {
        NoneOwned(l, disk, bitmap, inodes, own, i);
        assert inodes[i].addrs == inodes[i].addrs[12 := 0];
        assert inodes == SetAddr(inodes, i, 12, 0);
        return;
      }
      DetachIndirect(l, disk, bitmap, inodes, own, i);
      ghost var own0 := own;
      inodes := SetAddr(inodes, i, 12, 0);
      own := Loosened(own, i);
      CloseInv(l, disk, bitmap, inodes, own);
      var j := 0;
      while j < NINDIRECT
        invariant 0 <= j <= 128 && Sound() && inodes == SetAddr(old(inodes), i, 12, 0)
        invariant Freed(own0, own, i, j)
      {
        var e := Le(disk[ind], j);
        ghost var own1 := own;
        assert e == Addr(disk, old(inodes)[i], j + 13);
        OnlySlot(l, disk, old(bitmap), old(inodes), own0, i, j + 13);
        if e != 0 {
          var _ := Bfree(e);
        }
        FreedMore(own0, own1, own, i, j, e);
        j := j + 1;
      }
      OnlySlot(l, disk, old(bitmap), old(inodes), own0, i, 12);
      HoldersInRange(l, disk, old(bitmap), old(inodes), own0);
      var _ := Bfree(ind);
    }

    /** itrunc: the file is empty, its blocks are free, and no other file has changed. */
    method Itrunc(i: nat)
      requires Valid() && i < |inodes| == |dinodes|
      modifies this`bitmap, this`inodes, this`dinodes, this`own, this`tally, this`steady, this`logged
      ensures Valid() && |inodes| == |old(inodes)| && |dinodes| == |old(dinodes)|
      ensures inodes[i] == Inode(0, seq(13, _ => 0)) && dinodes[i] == inodes[i]
      ensures forall j :: 0 <= j < |inodes| && j != i ==> inodes[j] == old(inodes)[j] && dinodes[j] == old(dinodes)[j]
      ensures Gone(old(own), own, i, 0, SLOTS)
    {
      TruncDirect(i);
      TruncIndirect(i);
      OpenInv(l, disk, bitmap, inodes, own);
      Resized(l, disk, bitmap, inodes, own, i, 0);
      inodes := inodes[i := inodes[i].(size := 0)];
      CloseInv(l, disk, bitmap, inodes, own);
      assert inodes[i].addrs == inodes[i].addrs[..12] + [0];
      assert inodes[i].addrs == seq(13, _ => 0);
      IUpdate(i);
    }

    /** begin_op: a new operation has logged nothing. */
    ghost method BeginOp()
      modifies this`tally, this`steady, this`logged, this`base
      ensures tally == NoBlocks && steady && logged == [] && base == Now() && Recorded()
    {
      NothingLogged(l, Now());
      base := Now();
      tally := NoBlocks;
      steady := true;
      logged := [];
    }

    /**
     filewrite on an inode: chunks of at most three blocks, one operation each.  `ops` are the
     blocks each operation logged: every one stays within its reservation, with room before
     each log_write.  The chunks together write src at off.  `snaps` are the home blocks before
     the first operation and after each one.
     */
    method FileWrite(i: nat, off: nat, src: seq<byte>)
      returns (r: WriteResult, wrote: nat, ghost ops: seq<seq<nat>>, ghost snaps: seq<Image>)
      requires Valid() && i < |inodes| == |dinodes| && NoHoles(disk, inodes[i]) && off < UINT && |src| < UINT
      modifies this`disk, this`bitmap, this`inodes, this`dinodes, this`own, this`tally, this`steady, this`logged, this`base
      ensures Valid() && |inodes| == |dinodes| == |old(inodes)| && wrote <= |src|
      ensures r.Done? ==> wrote == |src|
      ensures r.Failed? ==> off > old(inodes)[i].size || off + |src| > MAXFILE * 512
      ensures if r.Full? then OthersSame(old(disk), old(inodes), disk, inodes, i)
              else Writing(old(disk), old(inodes), disk, inodes, i, off, src, wrote)
      ensures WithinReservations(ops) && Operations(|ops|, wrote, |src|)
      ensures r.Full? ==> AllUsed(bitmap)
      ensures old(inodes == dinodes) ==> Chunks(l, old(Now()), snaps, ops, i, off, src)
    {
      wrote, ops, snaps := 0, [], [Now()];
      WritingStarts(disk, inodes, i, off, src);
      ghost var synced := inodes == dinodes;
      PlannedStarts(l, Now(), i, off, src, synced);
      while wrote < |src|
        invariant 0 <= wrote <= |src| && Valid() && |inodes| == |dinodes| == |old(inodes)|
        invariant Writing(old(disk), old(inodes), disk, inodes, i, off, src, wrote)
        invariant Planned(l, old(Now()), snaps, Now(), ops, i, off, src, wrote, synced) && (synced ==> inodes == dinodes)
      {
        r, wrote, ops, snaps := FileRound(i, off, src, wrote, old(disk), old(inodes), old(Now()), ops, snaps, synced);
        if !r.Done? {
          return;
        }
      }
      PlannedFacts(l, old(Now()), snaps, Now(), ops, i, off, src, wrote, synced);
      r := Done;
    }

    /** The next operation of filewrite, and the record of it. */
    method FileRound(i: nat, off: nat, src: seq<byte>, wrote: nat, ghost d0: Disk, ghost n0: seq<Inode>, ghost a: Image,
                     ghost ops: seq<seq<nat>>, ghost snaps: seq<Image>, ghost synced: bool)
      returns (r: WriteResult, wrote': nat, ghost ops': seq<seq<nat>>, ghost snaps': seq<Image>)
      requires Valid() && i < |inodes| == |dinodes| && off < UINT && wrote < |src| < UINT
      requires |n0| == |inodes| && Writing(d0, n0, disk, inodes, i, off, src, wrote)
      requires Planned(l, a, snaps, Now(), ops, i, off, src, wrote, synced) && (synced ==> inodes == dinodes && a.disk == d0 && a.nodes == n0)
      modifies this`disk, this`bitmap, this`inodes, this`dinodes, this`own, this`tally, this`steady, this`logged, this`base
      ensures Valid() && |inodes| == |dinodes| == |old(inodes)|
      ensures if r.Done? then wrote < wrote' <= |src| else wrote' == wrote
      ensures r.Done? ==> (synced ==> inodes == dinodes) && Planned(l, a, snaps', Now(), ops', i, off, src, wrote', synced)
      ensures !r.Done? ==> WithinReservations(ops') && Operations(|ops'|, wrote', |src|) && (synced ==> Chunks(l, a, snaps', ops', i, off, src))
      ensures r.Failed? ==> off > n0[i].size || off + |src| > MAXFILE * 512
      ensures !r.Full? ==> Writing(d0, n0, disk, inodes, i, off, src, wrote')
      ensures r.Full? ==> OthersSame(d0, n0, disk, inodes, i) && AllUsed(bitmap)
    {
      r, wrote' := WriteOp(i, off, src, wrote, d0, n0);
      if r.Done? {
        PlannedMore(l, a, snaps, old(Now()), Now(), ops, logged, i, off, src, wrote, wrote', synced);
        ops', snaps' := ops + [logged], snaps + [Now()];
      } else {
        PlannedFacts(l, a, snaps, old(Now()), ops, i, off, src, wrote, synced);
        ops', snaps' := ops, snaps;
      }
    }

    /** One operation of filewrite, in terms of the state (d0, n0) before the call. */
    method WriteOp(i: nat, off: nat, src: seq<byte>, wrote: nat, ghost d0: Disk, ghost n0: seq<Inode>) returns (r: WriteResult, wrote': nat)
      requires Valid() && i < |inodes| == |dinodes| && off < UINT && wrote < |src| < UINT
      requires |n0| == |inodes| && Writing(d0, n0, disk, inodes, i, off, src, wrote)
      modifies this`disk, this`bitmap, this`inodes, this`dinodes, this`own, this`tally, this`steady, this`logged, this`base
      ensures Valid() && |inodes| == |dinodes| == |old(inodes)|
      ensures wrote' == if !r.Done? then wrote else if |src| - wrote > 1536 then wrote + 1536 else |src|
      ensures r.Failed? ==> off > n0[i].size || off + |src| > MAXFILE * 512
      ensures !r.Full? ==> Writing(d0, n0, disk, inodes, i, off, src, wrote') && WithinReservation(logged)
      ensures r.Full? ==> OthersSame(d0, n0, disk, inodes, i) && AllUsed(bitmap)
      ensures r.Done? ==> Covered(l, old(Now()), Now(), logged)
      ensures r.Done? && old(inodes == dinodes) ==> inodes == dinodes
    {
      WritingFacts(d0, n0, disk, inodes, i, off, src, wrote);
      var end := if |src| - wrote > 3 * 512 then wrote + 3 * 512 else |src|;
      BeginOp();
      r := WriteI(i, off + wrote, src[wrote..end]);
      tally.AddSize(Data, 0);
      LoggedFacts(l, tally, steady, logged, base, Now(), logged);
      if r.Done? {
        wrote' := end;
        WritingMore(d0, n0, old(disk), old(inodes), disk, inodes, i, off, src, wrote, wrote');
      } else {
        wrote' := wrote;
        WritingStops(d0, n0, old(disk), old(inodes), disk, inodes, i, off, src, wrote, wrote');
      }
    }
  }

  /** Each operation logs at most MAXOPBLOCKS distinct blocks, and fewer before each log_write. */
  ghost predicate WithinReservations(ops: seq<seq<nat>>) {
    forall k :: 0 <= k < |ops| ==> WithinReservation(ops[k])
  }

  ghost predicate WithinReservation(bs: seq<nat>) {
    forall z: nat {:trigger Unfold(z)} :: Unfold(z) ==> LogRun.Frugal(bs) && |LogRun.Distinguished(bs)| <= MAXOPBLOCKS
  }

  /** k operations of three blocks each, the last one perhaps shorter, write `wrote` of len bytes. */
  predicate Operations(k: nat, wrote: nat, len: nat) {
    && wrote == (if 1536 * k < len then 1536 * k else len)
    && (k > 0 ==> 1536 * (k - 1) < len)
  }

  /** The state after k operations of filewrite, snap, from the state a. */
  ghost predicate ChunkAt(a: Image, snap: Image, i: nat, off: nat, src: seq<byte>, k: nat) {
    Writing(a.disk, a.nodes, snap.disk, snap.nodes, i, off, src, if 1536 * k < |src| then 1536 * k else |src|)
  }

  /**
   The states between the operations of filewrite, from the state a: every block an operation
   changed is one it logged, and after k operations the file has the first k chunks of src.
   */
  ghost predicate Chunks(l: Layout, a: Image, snaps: seq<Image>, ops: seq<seq<nat>>, i: nat, off: nat, src: seq<byte>) {
    && |snaps| == |ops| + 1 && snaps[0] == a
    && (forall k {:trigger ops[k]} :: 0 <= k < |ops| ==> Covered(l, snaps[k], snaps[k + 1], ops[k]))
    && (forall k {:trigger snaps[k]} :: 0 <= k <= |ops| ==> ChunkAt(a, snaps[k], i, off, src, k))
  }

  lemma ChunksMore(l: Layout, a: Image, snaps: seq<Image>, ops: seq<seq<nat>>, snap: Image, op: seq<nat>, i: nat, off: nat, src: seq<byte>, wrote: nat)
    requires Chunks(l, a, snaps, ops, i, off, src) && Covered(l, snaps[|ops|], snap, op)
    requires wrote == if 1536 * (|ops| + 1) < |src| then 1536 * (|ops| + 1) else |src|
    requires Writing(a.disk, a.nodes, snap.disk, snap.nodes, i, off, src, wrote)
    ensures Chunks(l, a, snaps + [snap], ops + [op], i, off, src)
  {
    forall k | 0 <= k < |ops| + 1
      ensures Covered(l, (snaps + [snap])[k], (snaps + [snap])[k + 1], (ops + [op])[k])
    {
      assert k < |ops| ==> Covered(l, snaps[k], snaps[k + 1], ops[k]);
    }
    forall k | 0 <= k <= |ops| + 1
      ensures ChunkAt(a, (snaps + [snap])[k], i, off, src, k)
    {
      assert k <= |ops| ==> ChunkAt(a, snaps[k], i, off, src, k);
    }
  }

  /** filewrite's record of its operations, the last of which left the state `now`. */
  ghost predicate Planned(l: Layout, a: Image, snaps: seq<Image>, now: Image, ops: seq<seq<nat>>, i: nat, off: nat, src: seq<byte>, wrote: nat, synced: bool) {
    forall z: nat {:trigger Expand(z)} :: Expand(z) ==>
      && WithinReservations(ops) && Operations(|ops|, wrote, |src|)
      && (synced ==> Chunks(l, a, snaps, ops, i, off, src) && snaps[|ops|] == now)
  }

  lemma PlannedStarts(l: Layout, a: Image, i: nat, off: nat, src: seq<byte>, synced: bool)
    requires Writing(a.disk, a.nodes, a.disk, a.nodes, i, off, src, 0) || !synced
    ensures Planned(l, a, [a], a, [], i, off, src, 0, synced)
  {
  }

  lemma PlannedFacts(l: Layout, a: Image, snaps: seq<Image>, now: Image, ops: seq<seq<nat>>, i: nat, off: nat, src: seq<byte>, wrote: nat, synced: bool)
    requires Planned(l, a, snaps, now, ops, i, off, src, wrote, synced)
    ensures WithinReservations(ops) && Operations(|ops|, wrote, |src|) && (synced ==> Chunks(l, a, snaps, ops, i, off, src) && snaps[|ops|] == now)
  {
    assert Expand(0);
  }

  lemma PlannedMore(l: Layout, a: Image, snaps: seq<Image>, was: Image, now: Image, ops: seq<seq<nat>>, op: seq<nat>,
                    i: nat, off: nat, src: seq<byte>, wrote: nat, wrote': nat, synced: bool)
    requires Planned(l, a, snaps, was, ops, i, off, src, wrote, synced) && WithinReservation(op)
    requires wrote < |src| && wrote' == if |src| - wrote > 1536 then wrote + 1536 else |src|
    requires synced ==> Covered(l, was, now, op) && Writing(a.disk, a.nodes, now.disk, now.nodes, i, off, src, wrote')
    ensures Planned(l, a, snaps + [now], now, ops + [op], i, off, src, wrote', synced)
  {
    PlannedFacts(l, a, snaps, was, ops, i, off, src, wrote, synced);
    if synced {
      ChunksMore(l, a, snaps, ops, now, op, i, off, src, wrote');
    }
  }

  /** filewrite has written the first `wrote` bytes. */
  ghost predicate Writing(d0: Disk, n0: seq<Inode>, d: Disk, n: seq<Inode>, i: nat, off: nat, src: seq<byte>, wrote: nat) {
    forall z: nat {:trigger Expand(z)} :: Expand(z) ==>
      && wrote <= |src| && |n| == |n0| && i < |n| && NoHoles(d, n[i])
      && (if off > n0[i].size then wrote == 0 && n == n0
          else Content(d, n[i]) == Overwrite(Content(d0, n0[i]), off, src[..wrote]) && off + wrote <= n[i].size)
      && OthersSame(d0, n0, d, n, i)
  }

  ghost predicate OthersSame(d0: Disk, n0: seq<Inode>, d: Disk, n: seq<Inode>, i: nat) {
    |n| == |n0| && forall j :: 0 <= j < |n| && j != i ==> n[j] == n0[j] && Content(d, n[j]) == Content(d0, n0[j])
  }

  /** All files have the bytes they had. */
  ghost predicate SameFiles(d0: Disk, n0: seq<Inode>, d: Disk, n: seq<Inode>) {
    && |n| == |n0|
    && (forall j :: 0 <= j < |n| ==> n[j].size == n0[j].size)
    && (forall z: nat {:trigger Unfold(z)} :: Unfold(z) ==> forall j :: 0 <= j < |n| ==> Content(d, n[j]) == Content(d0, n0[j]))
  }

  /** Part of a block is a part of the file. */
  lemma PieceIs(d0: Disk, n0: seq<Inode>, d: Disk, n: seq<Inode>, i: nat, pos: nat, m: nat)
    requires Extends(d0, n0, d, n, i) && i < |n| && pos % 512 + m <= 512 && 0 < BlockOf(d, n[i], pos / 512) < |d|
    ensures var piece := d[BlockOf(d, n[i], pos / 512)][pos % 512..pos % 512 + m];
            |piece| == m && forall x :: 0 <= x < m ==> piece[x] == ByteAt(d0, n0[i], pos + x)
  {
    var piece := d[BlockOf(d, n[i], pos / 512)][pos % 512..pos % 512 + m];
    forall x | 0 <= x < m
      ensures piece[x] == ByteAt(d0, n0[i], pos + x)
    {
      assert (pos + x) / 512 == pos / 512 && (pos + x) % 512 == pos % 512 + x;
      assert ByteAt(d, n[i], pos + x) == ByteAt(d0, n0[i], pos + x);
    }
  }

  // ---- What a read allocates ----

  /** The unmapped blocks among blocks a..b of a file. */
  function Holes(d: Disk, ip: Inode, a: nat, b: nat): nat
    decreases b
  {
    if b <= a then 0 else Holes(d, ip, a, b - 1) + if BlockOf(d, ip, b - 1) == 0 then 1 else 0
  }

  /** What bmap allocates for them: one block for each, and the indirect block if they need it. */
  function Need(d: Disk, ip: Inode, a: nat, b: nat): nat
    requires |ip.addrs| == 13
  {
    Holes(d, ip, a, b) + if a < b && 12 < b && ip.addrs[12] == 0 then 1 else 0
  }

  /** bmap succeeds for all blocks of the n bytes at off, while an operation is running (`op`) or not. */
  ghost predicate Mappable(d: Disk, ip: Inode, bitmap: seq<bool>, off: nat, n: nat, op: bool) {
    |ip.addrs| == 13 && (n == 0 || BlocksMappable(d, ip, bitmap, off / 512, (off + n + 511) / 512, op))
  }

  ghost predicate BlocksMappable(d: Disk, ip: Inode, bitmap: seq<bool>, a: nat, b: nat, op: bool)
    requires |ip.addrs| == 13
  {
    b <= MAXFILE && if op then Clear(bitmap) >= Need(d, ip, a, b) else Holes(d, ip, a, b) == 0
  }

  lemma {:induction false} HolesGrow(d: Disk, ip: Inode, a: nat, b: nat, c: nat)
    requires b <= c
    ensures Holes(d, ip, a, b) <= Holes(d, ip, a, c)
    decreases c
  {
    if b < c {
      HolesGrow(d, ip, a, b, c - 1);
    }
  }

  lemma NoHoleSoFar(d: Disk, ip: Inode, a: nat, cur: nat, b: nat)
    requires a <= cur < b
    ensures Holes(d, ip, a, cur + 1) == 0 <==> Holes(d, ip, a, cur) == 0 && BlockOf(d, ip, cur) != 0
    ensures Holes(d, ip, a, b) == 0 ==> Holes(d, ip, a, cur + 1) == 0
  {
    HolesGrow(d, ip, a, cur + 1, b);
  }

  lemma {:induction false} NoneToFill(d: Disk, ip: Inode, a: nat, b: nat)
    requires NoHoles(d, ip) && b <= (ip.size + 511) / 512 && |ip.addrs| == 13
    ensures b <= MAXFILE && Holes(d, ip, a, b) == 0 && Need(d, ip, a, b) == 0
    decreases b
  {
    if a < b {
      NoneToFill(d, ip, a, b - 1);
      assert (b - 1) * 512 < ip.size && BlockOf(d, ip, b - 1) != 0;
    }
  }

  /** bmap has been called for blocks a..cur since the state (d0, ip0, bm0). */
  ghost predicate MappedUpTo(d0: Disk, ip0: Inode, bm0: seq<bool>, d: Disk, ip: Inode, bm: seq<bool>, a: nat, cur: nat, op: bool) {
    forall z: nat {:trigger Unfold(z)} :: Unfold(z) ==>
      && |ip0.addrs| == |ip.addrs| == 13 && a <= cur && (a < cur ==> cur <= MAXFILE)
      && (forall c: nat :: c < MAXFILE && !(a <= c < cur) ==> BlockOf(d, ip, c) == BlockOf(d0, ip0, c))
      && (ip.addrs[12] == 0 <==> ip0.addrs[12] == 0 && !(a < cur && 12 < cur))
      && Clear(bm) == Clear(bm0) - Need(d0, ip0, a, cur)
      && (!op ==> Holes(d0, ip0, a, cur) == 0)
  }

  /** bmap fails for block cur, after blocks a..cur. */
  ghost predicate Stuck(d0: Disk, ip0: Inode, bm0: seq<bool>, a: nat, cur: nat, op: bool) {
    |ip0.addrs| == 13 && a <= cur
    && (cur >= MAXFILE || if op then Clear(bm0) < Need(d0, ip0, a, cur + 1) else Holes(d0, ip0, a, cur + 1) > 0)
  }

  /** What bmap(cur) will need, in terms of the first state. */
  lemma NextMissing(d0: Disk, ip0: Inode, bm0: seq<bool>, d: Disk, ip: Inode, bm: seq<bool>, a: nat, cur: nat, op: bool)
    requires MappedUpTo(d0, ip0, bm0, d, ip, bm, a, cur, op) && cur < MAXFILE
    ensures |ip0.addrs| == |ip.addrs| == 13 && a <= cur
    ensures var missing := (if BlockOf(d, ip, cur) == 0 then 1 else 0) + (if cur >= 12 && ip.addrs[12] == 0 then 1 else 0);
            && (Clear(bm) >= missing <==> Clear(bm0) >= Need(d0, ip0, a, cur + 1))
            && Need(d0, ip0, a, cur + 1) == Need(d0, ip0, a, cur) + missing
            && Clear(bm) - missing == Clear(bm0) - Need(d0, ip0, a, cur + 1)
    ensures BlockOf(d, ip, cur) == BlockOf(d0, ip0, cur)
    ensures BlockOf(d, ip, cur) == 0 ==> Holes(d0, ip0, a, cur + 1) > 0
  {
    assert Unfold(0);
  }

  lemma MappedMore(d0: Disk, ip0: Inode, bm0: seq<bool>, d: Disk, ip: Inode, bm: seq<bool>,
                   d': Disk, ip': Inode, bm': seq<bool>, a: nat, cur: nat, cur': nat, op: bool)
    requires MappedUpTo(d0, ip0, bm0, d, ip, bm, a, cur, op) && cur' == cur + 1 <= MAXFILE && MapsOnly(d, ip, d', ip', cur)
    requires Clear(bm') == Clear(bm) - (if BlockOf(d, ip, cur) == 0 then 1 else 0) - (if cur >= 12 && ip.addrs[12] == 0 then 1 else 0)
    requires !op ==> BlockOf(d, ip, cur) != 0
    ensures MappedUpTo(d0, ip0, bm0, d', ip', bm', a, cur', op)
  {
    NextMissing(d0, ip0, bm0, d, ip, bm, a, cur, op);
    assert Unfold(0);
  }

  /** readi's loop is at the start of its range or of block cur, or past the last block. */
  ghost predicate AtBlock(off: nat, tot: nat, left: nat, cur: nat) {
    forall z: nat {:trigger Unfold(z)} :: Unfold(z) ==>
      && tot <= left && (tot < left ==> (off + tot) / 512 == cur && (tot > 0 ==> (off + tot) % 512 == 0))
      && (tot == left ==> cur == if left == 0 then off / 512 else (off + left + 511) / 512)
  }

  lemma AtBlockNext(off: nat, tot: nat, left: nat, cur: nat)
    requires AtBlock(off, tot, left, cur) && tot < left
    ensures AtBlock(off, tot + Chunk(off + tot, left - tot), left, cur + 1)
    ensures off / 512 <= (off + tot) / 512 == cur < (off + left + 511) / 512
  {
    assert Unfold(0);
  }

  lemma StuckFails(d: Disk, ip: Inode, bm: seq<bool>, off: nat, n: nat, cur: nat, op: bool)
    requires Stuck(d, ip, bm, off / 512, cur, op) && cur < (off + n + 511) / 512 && n > 0
    ensures !Mappable(d, ip, bm, off, n, op)
  {
    HolesGrow(d, ip, off / 512, cur + 1, (off + n + 511) / 512);
  }

  /** readi has read dst, the first tot of its bytes, in blocks off / 512..cur. */
  ghost predicate Reading(d0: Disk, n0: seq<Inode>, bm0: seq<bool>, d: Disk, n: seq<Inode>, bm: seq<bool>,
                          i: nat, off: nat, left: nat, op: bool, tot: nat, dst: seq<byte>, cur: nat) {
    forall z: nat {:trigger Expand(z)} :: Expand(z) ==>
      && i < |n0| && |n0[i].addrs| == 13 && off + left <= n0[i].size && SameFiles(d0, n0, d, n)
      && Slice(Content(d0, n0[i]), off, tot, dst) && AtBlock(off, tot, left, cur)
      && MappedUpTo(d0, n0[i], bm0, d, n[i], bm, off / 512, cur, op)
  }

  lemma ReadingFacts(d0: Disk, n0: seq<Inode>, bm0: seq<bool>, d: Disk, n: seq<Inode>, bm: seq<bool>,
                     i: nat, off: nat, left: nat, op: bool, tot: nat, dst: seq<byte>, cur: nat)
    requires Reading(d0, n0, bm0, d, n, bm, i, off, left, op, tot, dst, cur)
    ensures i < |n0| && |n0[i].addrs| == 13 && off + left <= n0[i].size && SameFiles(d0, n0, d, n)
    ensures Slice(Content(d0, n0[i]), off, tot, dst) && AtBlock(off, tot, left, cur)
    ensures MappedUpTo(d0, n0[i], bm0, d, n[i], bm, off / 512, cur, op)
  {
    assert Expand(0);
  }

  lemma ReadingMore(d0: Disk, n0: seq<Inode>, bm0: seq<bool>, d: Disk, n: seq<Inode>, bm: seq<bool>, i: nat, off: nat, left: nat, op: bool,
                    tot: nat, dst: seq<byte>, piece: seq<byte>, tot': nat, dst': seq<byte>, cur: nat, cur': nat)
    requires i < |n0| && |n0[i].addrs| == 13 && off + left <= n0[i].size && SameFiles(d0, n0, d, n)
    requires Slice(Content(d0, n0[i]), off, tot, dst) && AtBlock(off, tot, left, cur) && tot < left
    requires |piece| == Chunk(off + tot, left - tot) && piece == Content(d0, n0[i])[off + tot..off + tot + |piece|]
    requires MappedUpTo(d0, n0[i], bm0, d, n[i], bm, off / 512, cur', op)
    requires tot' == tot + |piece| && dst' == dst + piece && cur' == cur + 1
    ensures Reading(d0, n0, bm0, d, n, bm, i, off, left, op, tot', dst', cur')
  {
    SliceMore(Content(d0, n0[i]), off, tot, dst, piece);
    AtBlockNext(off, tot, left, cur);
  }

  lemma ReadStarts(d: Disk, n: seq<Inode>, bm: seq<bool>, i: nat, off: nat, left: nat, op: bool)
    requires i < |n| && |n[i].addrs| == 13 && off + left <= n[i].size
    ensures Reading(d, n, bm, d, n, bm, i, off, left, op, 0, [], off / 512)
  {
  }

  lemma ReadAll(d0: Disk, n0: seq<Inode>, bm0: seq<bool>, d: Disk, n: seq<Inode>, bm: seq<bool>,
                i: nat, off: nat, left: nat, op: bool, tot: nat, dst: seq<byte>, cur: nat)
    requires Reading(d0, n0, bm0, d, n, bm, i, off, left, op, tot, dst, cur) && tot == left
    ensures i < |n0| && SameFiles(d0, n0, d, n) && Mappable(d0, n0[i], bm0, off, left, op)
    ensures off + left <= n0[i].size && dst == Content(d0, n0[i])[off..off + left]
    ensures cur == if left == 0 then off / 512 else (off + left + 511) / 512
  {
    assert Expand(0) && Unfold(0);
  }

  /** bmap has been called for the blocks of the first tot bytes from off on. */
  ghost predicate MappedFor(d0: Disk, ip0: Inode, bm0: seq<bool>, d: Disk, ip: Inode, bm: seq<bool>, off: nat, tot: nat) {
    forall z: nat {:trigger Unfold(z)} :: Unfold(z) ==>
      |ip0.addrs| == 13 && MappedUpTo(d0, ip0, bm0, d, ip, bm, off / 512, off / 512 + Touched(off, tot), true)
  }

  /** Whether bmap succeeds for the next block. */
  lemma MappedForNext(d0: Disk, ip0: Inode, bm0: seq<bool>, d: Disk, ip: Inode, bm: seq<bool>, off: nat, tot: nat, n: nat)
    requires MappedFor(d0, ip0, bm0, d, ip, bm, off, tot) && tot < n && (tot > 0 ==> (off + tot) % 512 == 0)
    requires off + n <= MAXFILE * 512 && |ip.addrs| == 13
    ensures Clear(bm) < (if BlockOf(d, ip, (off + tot) / 512) == 0 then 1 else 0) + (if (off + tot) / 512 >= 12 && ip.addrs[12] == 0 then 1 else 0)
            ==> !Mappable(d0, ip0, bm0, off, n, true)
  {
    assert Unfold(0);
    var cur := off / 512 + Touched(off, tot);
    TouchedBlock(off, tot, 1, n);
    NextMissing(d0, ip0, bm0, d, ip, bm, off / 512, cur, true);
    if Clear(bm0) < Need(d0, ip0, off / 512, cur + 1) {
      StuckFails(d0, ip0, bm0, off, n, cur, true);
    }
  }

  lemma MappedForMore(d0: Disk, ip0: Inode, bm0: seq<bool>, d: Disk, ip: Inode, bm: seq<bool>,
                      d': Disk, ip': Inode, bm': seq<bool>, off: nat, tot: nat, tot': nat, n: nat)
    requires MappedFor(d0, ip0, bm0, d, ip, bm, off, tot) && (tot > 0 ==> (off + tot) % 512 == 0)
    requires tot < tot' <= n && tot' <= tot + 512 - (off + tot) % 512 && off + n <= MAXFILE * 512
    requires MapsOnly(d, ip, d', ip', (off + tot) / 512)
    requires Clear(bm') == Clear(bm) - (if BlockOf(d, ip, (off + tot) / 512) == 0 then 1 else 0)
                           - (if (off + tot) / 512 >= 12 && ip.addrs[12] == 0 then 1 else 0)
    ensures MappedFor(d0, ip0, bm0, d', ip', bm', off, tot')
  {
    assert Unfold(0);
    TouchedBlock(off, tot, tot' - tot, n);
    MappedMore(d0, ip0, bm0, d, ip, bm, d', ip', bm', off / 512, off / 512 + Touched(off, tot), off / 512 + Touched(off, tot'), true);
  }

  lemma MappedForStarts(d: Disk, ip: Inode, bm: seq<bool>, off: nat)
    requires |ip.addrs| == 13
    ensures MappedFor(d, ip, bm, d, ip, bm, off, 0)
  {
  }

  lemma AllMapped(d0: Disk, ip0: Inode, bm0: seq<bool>, d: Disk, ip: Inode, bm: seq<bool>, off: nat, n: nat)
    requires MappedFor(d0, ip0, bm0, d, ip, bm, off, n)
    ensures Mappable(d0, ip0, bm0, off, n, true)
  {
    assert Unfold(0);
  }

  /**
   mkfs rounds the size of the root directory up to the next block, and by a whole block if it is
   one already.  The rounded directory has no hole exactly if the last block was not full.
   */
  lemma MkfsRoot(d: Disk, ip: Inode)
    requires ip.size < MAXFILE * 512 && forall bn: nat :: bn < MAXFILE ==> (BlockOf(d, ip, bn) != 0 <==> bn * 512 < ip.size)
    ensures NoHoles(d, ip.(size := (ip.size / 512 + 1) * 512)) <==> ip.size % 512 != 0
  {
    var ip' := ip.(size := (ip.size / 512 + 1) * 512);
    assert forall bn: nat :: BlockOf(d, ip', bn) == BlockOf(d, ip, bn);
    if ip.size % 512 == 0 {
      var last := ip.size / 512;
      assert last * 512 < ip'.size && BlockOf(d, ip', last) == 0;
    }
  }

  lemma SameFilesMore(d0: Disk, n0: seq<Inode>, d1: Disk, n1: seq<Inode>, d: Disk, n: seq<Inode>, i: nat)
    requires SameFiles(d0, n0, d1, n1) && SameFiles(d1, n1, d, n) && i < |n|
    ensures SameFiles(d0, n0, d, n) && Content(d1, n1[i]) == Content(d0, n0[i])
  {
    assert Unfold(0);
  }

  lemma ExtendsSame(d0: Disk, n0: seq<Inode>, d: Disk, n: seq<Inode>, i: nat)
    requires Extends(d0, n0, d, n, i)
    ensures SameFiles(d0, n0, d, n)
  {
    forall j | 0 <= j < |n|
      ensures Content(d, n[j]) == Content(d0, n0[j])
    {
      assert forall x: nat :: ByteAt(d, n[j], x) == ByteAt(d0, n0[j], x);
    }
  }

  lemma WritingFacts(d0: Disk, n0: seq<Inode>, d: Disk, n: seq<Inode>, i: nat, off: nat, src: seq<byte>, wrote: nat)
    requires Writing(d0, n0, d, n, i, off, src, wrote)
    ensures |n| == |n0| && i < |n| && NoHoles(d, n[i]) && if off > n0[i].size then wrote == 0 && n == n0 else off + wrote <= n[i].size
  {
    assert Expand(0);
  }

  lemma WritingContent(d0: Disk, n0: seq<Inode>, d: Disk, n: seq<Inode>, i: nat, off: nat, src: seq<byte>, wrote: nat)
    requires Writing(d0, n0, d, n, i, off, src, wrote)
    ensures |n| == |n0| && i < |n| && wrote <= |src| && OthersSame(d0, n0, d, n, i)
    ensures off <= n0[i].size ==> Content(d, n[i]) == Overwrite(Content(d0, n0[i]), off, src[..wrote])
  {
    assert Expand(0);
  }

  lemma WritingStarts(d: Disk, n: seq<Inode>, i: nat, off: nat, src: seq<byte>)
    requires i < |n| && NoHoles(d, n[i])
    ensures Writing(d, n, d, n, i, off, src, 0)
  {
    assert src[..0] == [];
    if off <= n[i].size {
      OverwriteNothing(Content(d, n[i]), off);
    }
  }

  lemma WritingMore(d0: Disk, n0: seq<Inode>, d1: Disk, n1: seq<Inode>, d: Disk, n: seq<Inode>, i: nat, off: nat, src: seq<byte>, wrote: nat, wrote': nat)
    requires Writing(d0, n0, d1, n1, i, off, src, wrote) && wrote < wrote' <= |src| && i < |n1| == |n0| && off + wrote <= n1[i].size
    requires OthersSame(d1, n1, d, n, i) && NoHoles(d, n[i])
    requires Content(d, n[i]) == Overwrite(Content(d1, n1[i]), off + wrote, src[wrote..wrote'])
    requires off <= n0[i].size
    ensures Writing(d0, n0, d, n, i, off, src, wrote')
  {
    assert Expand(0);
    OverwriteMore(Content(d0, n0[i]), off, src, wrote, wrote' - wrote);
    assert |Content(d, n[i])| >= off + wrote';
  }

  lemma WritingStops(d0: Disk, n0: seq<Inode>, d1: Disk, n1: seq<Inode>, d: Disk, n: seq<Inode>, i: nat, off: nat, src: seq<byte>, wrote: nat, wrote': nat)
    requires Writing(d0, n0, d1, n1, i, off, src, wrote) && OthersSame(d1, n1, d, n, i) && wrote' == wrote
    ensures OthersSame(d0, n0, d, n, i)
    ensures d == d1 && n == n1 ==> Writing(d0, n0, d, n, i, off, src, wrote')
  {
    assert Expand(0);
  }

  /** The blocks of slots lo..hi of inode i are free; every other block keeps its holder. */
  ghost predicate Gone(own: Owners, own': Owners, i: nat, lo: nat, hi: nat) {
    && (forall b :: b in own ==> (b in own' <==> !(own[b].Slot? && own[b].i == i && lo <= own[b].k < hi)))
    && (forall b :: b in own' ==> b in own && own'[b] == own[b])
  }

  /** In the middle of itrunc: the first j listed blocks are free, the rest of slots 12 and above loose. */
  ghost predicate Freed(own: Owners, own': Owners, i: nat, j: nat) {
    && (forall b :: b in own ==> (b in own' <==> !(own[b].Slot? && own[b].i == i && 13 <= own[b].k < 13 + j)))
    && (forall b :: b in own' ==> b in own && own'[b] == Loosened(own, i)[b])
  }

  lemma FreedMore(own: Owners, a: Owners, b: Owners, i: nat, j: nat, e: nat)
    requires Freed(own, a, i, j)
    requires if e != 0 then e in own && own[e] == Slot(i, j + 13) && b == a - {e} else b == a
    requires forall c :: c in own && own[c] == Slot(i, j + 13) ==> c == e && c != 0
    ensures Freed(own, b, i, j + 1)
  {
  }

  lemma NoneOwned(l: Layout, d: Disk, bitmap: seq<bool>, inodes: seq<Inode>, own: Owners, i: nat)
    requires Inv(l, d, bitmap, inodes, own) && i < |inodes| && inodes[i].addrs[12] == 0
    ensures Gone(own, own, i, 12, SLOTS)
  {
    forall b | b in own
      ensures !(own[b].Slot? && own[b].i == i && 12 <= own[b].k < SLOTS)
    {
      assert HolderAt(l, d, inodes, own, b);
    }
  }

  lemma HoldersInRange(l: Layout, d: Disk, bitmap: seq<bool>, inodes: seq<Inode>, own: Owners)
    requires Inv(l, d, bitmap, inodes, own)
    ensures forall b :: b in own && own[b].Slot? ==> own[b].k < SLOTS
  {
    forall b | b in own && own[b].Slot?
      ensures own[b].k < SLOTS
    {
      assert HolderAt(l, d, inodes, own, b);
    }
  }

  lemma GoneMore(a: Owners, b: Owners, c: Owners, i: nat, lo: nat, k: nat)
    requires Gone(a, b, i, lo, k) && Gone(b, c, i, k, k + 1) && lo <= k
    ensures Gone(a, c, i, lo, k + 1)
  {
  }

  /** Slot (i, k) owns at most the block it names. */
  lemma OnlySlot(l: Layout, d: Disk, bitmap: seq<bool>, inodes: seq<Inode>, own: Owners, i: nat, k: nat)
    requires Inv(l, d, bitmap, inodes, own) && i < |inodes| && k < SLOTS
    ensures forall b :: b in own && own[b] == Slot(i, k) ==> b == Addr(d, inodes[i], k) && b != 0
  {
    forall b | b in own && own[b] == Slot(i, k)
      ensures b == Addr(d, inodes[i], k) && b != 0
    {
      assert HolderAt(l, d, inodes, own, b);
    }
  }

  /** readi's clipping of n at the end of the file. */
  function Clip(size: nat, off: nat, n: nat): (r: nat)
    requires off <= size
    ensures r <= n && off + r <= size && (r < n ==> off + r == size)
  {
    if off + n > size then size - off else n
  }

  /** min(n - tot, BSIZE - off % BSIZE): up to the end of the block. */
  function Chunk(pos: nat, left: nat): (m: nat)
    requires left > 0
    ensures 0 < m <= left && m <= 512 - pos % 512 && pos % 512 + m <= 512
    ensures m < left ==> (pos + m) % 512 == 0
  {
    if left < 512 - pos % 512 then left else 512 - pos % 512
  }

  /** writei has written the first tot bytes. */
  ghost predicate Progress(d0: Disk, n0: seq<Inode>, d: Disk, n: seq<Inode>, i: nat, off: nat, src: seq<byte>, tot: nat) {
    forall z: nat {:trigger Unfold(z)} :: Unfold(z) ==>
      && tot <= |src|
      && Wrote(d0, n0, d, n, i, off, src[..tot])
      && (tot > 0 ==> forall bn :: off / 512 <= bn && bn * 512 < off + tot ==> BlockOf(d, n[i], bn) != 0)
      && (off + tot <= n0[i].size && NoHoles(d0, n0[i]) ==> n == n0)
  }

  lemma ProgressStarts(d: Disk, n: seq<Inode>, i: nat, off: nat, src: seq<byte>)
    requires i < |n|
    ensures Progress(d, n, d, n, i, off, src, 0)
  {
    assert src[..0] == [];
  }

  /** writei ran out of blocks after some prefix of the data. */
  ghost predicate Partly(d0: Disk, n0: seq<Inode>, d: Disk, n: seq<Inode>, i: nat, off: nat, src: seq<byte>) {
    forall z: nat {:trigger Unfold(z)} :: Unfold(z) ==>
      OthersSame(d0, n0, d, n, i) && exists tot :: 0 <= tot <= |src| && Wrote(d0, n0, d, n, i, off, src[..tot])
  }

  lemma PartlyFacts(d0: Disk, n0: seq<Inode>, d: Disk, n: seq<Inode>, i: nat, off: nat, src: seq<byte>)
    requires Partly(d0, n0, d, n, i, off, src)
    ensures OthersSame(d0, n0, d, n, i) && exists tot :: 0 <= tot <= |src| && Wrote(d0, n0, d, n, i, off, src[..tot])
  {
    assert Unfold(0);
  }

  /** Every round but the first and the last starts and ends on a block boundary. */
  ghost predicate Aligned(off: nat, tot: nat, n: nat) {
    forall z: nat {:trigger Unfold(z)} :: Unfold(z) ==> 0 < tot < n ==> (off + tot) % 512 == 0
  }

  lemma AlignedNext(off: nat, tot: nat, tot': nat, n: nat)
    requires Aligned(off, tot, n) && tot < n && tot' == tot + Chunk(off + tot, n - tot)
    ensures tot > 0 ==> (off + tot) % 512 == 0
    ensures Aligned(off, tot', n)
  {
    assert Unfold(0);
  }

  lemma ProgressStops(d0: Disk, n0: seq<Inode>, d1: Disk, n1: seq<Inode>, d: Disk, n: seq<Inode>, i: nat, off: nat, src: seq<byte>, tot: nat)
    requires Progress(d0, n0, d1, n1, i, off, src, tot) && tot <= |src| && Halted(d1, n1, d, n, i)
    ensures Partly(d0, n0, d, n, i, off, src)
  {
    assert Unfold(0);
    WroteThenExtends(d0, n0, d1, n1, d, n, i, off, src[..tot]);
    WroteOthers(d0, n0, d, n, i, off, src[..tot]);
  }

  lemma ProgressDone(d0: Disk, n0: seq<Inode>, d: Disk, n: seq<Inode>, i: nat, off: nat, src: seq<byte>)
    requires Progress(d0, n0, d, n, i, off, src, |src|)
    ensures Wrote(d0, n0, d, n, i, off, src) && OthersSame(d0, n0, d, n, i)
    ensures |src| > 0 ==> forall bn :: off / 512 <= bn && bn * 512 < off + |src| ==> BlockOf(d, n[i], bn) != 0
    ensures off + |src| <= n0[i].size && NoHoles(d0, n0[i]) ==> n == n0
  {
    assert Unfold(0);
    assert src[..|src|] == src;
    WroteOthers(d0, n0, d, n, i, off, src);
  }

  lemma RoundFacts(d0: Disk, n0: seq<Inode>, d: Disk, n: seq<Inode>, i: nat, off: nat, src: seq<byte>, tot: nat, tot': nat)
    requires i < |n| == |n0| && Progress(d0, n0, d, n, i, off, src, tot) && NoHoles(d0, n0[i]) && off <= n0[i].size
    requires tot < tot' <= tot + 512 - (off + tot) % 512 && tot' <= |src| && (tot > 0 ==> (off + tot) % 512 == 0)
    requires |n0[i].addrs| == 13 == |n[i].addrs|
    ensures Touched(off, tot') == Touched(off, tot) + 1
    ensures |src| <= 3 * 512 ==> Touched(off, tot') <= if off % 512 != 0 then 4 else 3
    ensures off + tot < n0[i].size ==> BlockOf(d, n[i], (off + tot) / 512) != 0
    ensures Touched(off, tot) == 0 && off % 512 != 0 ==> BlockOf(d, n[i], (off + tot) / 512) != 0
    ensures n0[i].addrs[12] != 0 ==> n[i].addrs[12] == n0[i].addrs[12]
  {
    assert Unfold(0);
    TouchedNext(off, tot, tot');
    TouchedSome(off, tot);
    if |src| <= 3 * 512 {
      TouchedFew(off, tot');
    }
    MappedBelow(d0, n0, d, n, i, off, src[..tot], off + tot);
    if tot == 0 && off % 512 != 0 {
      MappedBelow(d0, n0, d, n, i, off, src[..tot], off - 1);
      assert (off - 1) / 512 == off / 512;
    }
    if n0[i].addrs[12] != 0 {
      assert Addr(d, n[i], 12) == Addr(d0, n0[i], 12);
    }
  }

  /** What a round leaves: the bytes written in a mapped block, no inode changed if it was mapped before. */
  ghost predicate Piece(d1: Disk, n1: seq<Inode>, d2: Disk, n2: seq<Inode>, i: nat, pos: nat, bytes: seq<byte>) {
    forall z: nat {:trigger Unfold(z)} :: Unfold(z) ==>
      && i < |n1| == |n2| && |n1[i].addrs| == 13
      && Wrote(d1, n1, d2, n2, i, pos, bytes) && BlockOf(d2, n2[i], pos / 512) != 0
      && (BlockOf(d1, n1[i], pos / 512) != 0 ==> n2 == n1)
  }

  lemma PieceDone(d1: Disk, n1: seq<Inode>, d2: Disk, n2: seq<Inode>, i: nat, pos: nat, bytes: seq<byte>)
    requires i < |n1| == |n2| && |n1[i].addrs| == 13
    requires Wrote(d1, n1, d2, n2, i, pos, bytes) && BlockOf(d2, n2[i], pos / 512) != 0
    requires BlockOf(d1, n1[i], pos / 512) != 0 ==> n2 == n1
    ensures Piece(d1, n1, d2, n2, i, pos, bytes)
  {
  }

  lemma PieceFacts(d1: Disk, n1: seq<Inode>, d2: Disk, n2: seq<Inode>, i: nat, pos: nat, bytes: seq<byte>)
    requires Piece(d1, n1, d2, n2, i, pos, bytes)
    ensures i < |n1| == |n2| && |n1[i].addrs| == 13
    ensures Wrote(d1, n1, d2, n2, i, pos, bytes) && BlockOf(d2, n2[i], pos / 512) != 0
    ensures BlockOf(d1, n1[i], pos / 512) != 0 ==> n2 == n1
  {
    assert Unfold(0);
  }

  /** What a round leaves when there is no block to be had. */
  ghost predicate Halted(d1: Disk, n1: seq<Inode>, d2: Disk, n2: seq<Inode>, i: nat) {
    forall z: nat {:trigger Unfold(z)} :: Unfold(z) ==> Extends(d1, n1, d2, n2, i)
  }

  lemma NoPiece(d1: Disk, n1: seq<Inode>, d2: Disk, n2: seq<Inode>, i: nat)
    requires Extends(d1, n1, d2, n2, i)
    ensures Halted(d1, n1, d2, n2, i)
  {
  }

  /** A round that wrote the next piece, in a block that was mapped or not. */
  lemma RoundDone(d0: Disk, n0: seq<Inode>, d1: Disk, n1: seq<Inode>, d2: Disk, n2: seq<Inode>, i: nat, off: nat, src: seq<byte>, tot: nat, tot': nat)
    requires i < |n1| == |n0| && Progress(d0, n0, d1, n1, i, off, src, tot) && tot' <= |src|
    requires off <= n0[i].size && |n0[i].addrs| == 13 && (tot > 0 ==> (off + tot) % 512 == 0)
    requires tot < tot' <= tot + 512 - (off + tot) % 512 && off + tot' <= MAXFILE * 512
    requires Piece(d1, n1, d2, n2, i, off + tot, src[tot..tot'])
    ensures Progress(d0, n0, d2, n2, i, off, src, tot')
  {
    PieceFacts(d1, n1, d2, n2, i, off + tot, src[tot..tot']);
    if NoHoles(d0, n0[i]) {
      RoundFacts(d0, n0, d1, n1, i, off, src, tot, tot');
    }
    ProgressMore(d0, n0, d1, n1, d2, n2, i, off, src, tot, tot');
  }

  lemma ProgressMore(d0: Disk, n0: seq<Inode>, d1: Disk, n1: seq<Inode>, d2: Disk, n2: seq<Inode>, i: nat, off: nat, src: seq<byte>, tot: nat, tot': nat)
    requires i < |n1| == |n0| && Progress(d0, n0, d1, n1, i, off, src, tot) && tot' <= |src|
    requires tot < tot' <= tot + 512 - (off + tot) % 512 && off + tot' <= MAXFILE * 512
    requires Wrote(d1, n1, d2, n2, i, off + tot, src[tot..tot']) && BlockOf(d2, n2[i], (off + tot) / 512) != 0
    requires off + tot < n0[i].size && NoHoles(d0, n0[i]) ==> n2 == n1
    ensures Progress(d0, n0, d2, n2, i, off, src, tot')
  {
    assert Unfold(0);
    WroteMore(d0, n0, d1, n1, d2, n2, i, off, src[..tot], src[tot..tot']);
    assert src[..tot] + src[tot..tot'] == src[..tot'];
    BlocksKept(d1, n1, d2, n2, i, off, off + tot, tot' - tot, src[tot..tot']);
  }

  /** The number of blocks that bytes off..off + n touch. */
  function Touched(off: nat, n: nat): nat {
    if n == 0 then 0 else (off + n - 1) / 512 - off / 512 + 1
  }

  /** Data and bitmap blocks after t rounds; a start inside a block finds it mapped. */
  ghost predicate Thrift(tally: Tally, index: nat, t: nat, off: nat, ind: nat) {
    && tally.node == {}
    && |tally.data| <= t
    && |tally.maps| <= t - (if off % 512 != 0 && t > 0 then 1 else 0) + (if ind == 0 && index != 0 then 1 else 0)
  }

  /** The blocks logged by the first t rounds of a write that starts at off. */
  ghost predicate Sparing(s: Stage, i: nat, t: nat, off: nat, ind: nat) {
    && i < |s.n| && |s.n[i].addrs| == 13 && s.steady
    && (forall x :: x in s.tally.index ==> x != 0 && x == s.n[i].addrs[12])
    && Thrift(s.tally, s.n[i].addrs[12], t, off, ind)
  }

  /** Sparing after the first tot bytes of a write at off, folded. */
  ghost predicate SparingAt(s: Stage, i: nat, off: nat, tot: nat, ind: nat) {
    forall z: nat {:trigger Unfold(z)} :: Unfold(z) ==> Sparing(s, i, Touched(off, tot), off, ind)
  }

  lemma OpenSparing(s: Stage, i: nat, off: nat, tot: nat, ind: nat)
    requires SparingAt(s, i, off, tot, ind)
    ensures Sparing(s, i, Touched(off, tot), off, ind)
  {
    assert Unfold(0);
  }

  lemma CloseSparing(s: Stage, i: nat, off: nat, tot: nat, ind: nat)
    requires Sparing(s, i, Touched(off, tot), off, ind)
    ensures SparingAt(s, i, off, tot, ind)
  {
  }

  /** writei has written the first tot bytes since the stage a, and if `small` logged as little as it may. */
  ghost predicate Midway(a: Stage, s: Stage, i: nat, off: nat, src: seq<byte>, tot: nat, small: bool) {
    forall z: nat {:trigger Expand(z)} :: Expand(z) ==>
      && i < |a.n| == |s.n| && off <= a.n[i].size && |a.n[i].addrs| == |s.n[i].addrs| == 13 && Aligned(off, tot, |src|)
      && Progress(a.d, a.n, s.d, s.n, i, off, src, tot) && MappedFor(a.d, a.n[i], a.bm, s.d, s.n[i], s.bm, off, tot)
      && (small ==> |src| <= 3 * 512 && SparingAt(s, i, off, tot, a.n[i].addrs[12]) && NoHoles(a.d, a.n[i]))
  }

  lemma OpenMidway(a: Stage, s: Stage, i: nat, off: nat, src: seq<byte>, tot: nat, small: bool)
    requires Midway(a, s, i, off, src, tot, small)
    ensures i < |a.n| == |s.n| && off <= a.n[i].size && |a.n[i].addrs| == |s.n[i].addrs| == 13 && Aligned(off, tot, |src|)
    ensures Progress(a.d, a.n, s.d, s.n, i, off, src, tot) && MappedFor(a.d, a.n[i], a.bm, s.d, s.n[i], s.bm, off, tot)
    ensures small ==> |src| <= 3 * 512 && SparingAt(s, i, off, tot, a.n[i].addrs[12]) && NoHoles(a.d, a.n[i])
  {
    assert Expand(0);
  }

  lemma MidwayStarts(a: Stage, i: nat, off: nat, src: seq<byte>, small: bool)
    requires i < |a.n| && |a.n[i].addrs| == 13 && off <= a.n[i].size
    requires small ==> a.tally == NoBlocks && a.steady && NoHoles(a.d, a.n[i]) && |src| <= 3 * 512
    ensures Midway(a, a, i, off, src, 0, small)
  {
    ProgressStarts(a.d, a.n, i, off, src);
    MappedForStarts(a.d, a.n[i], a.bm, off);
    if small {
      CloseSparing(a, i, off, 0, a.n[i].addrs[12]);
    }
  }

  ghost function MissingAt(s: Stage, i: nat, bn: nat): nat
    requires i < |s.n| && |s.n[i].addrs| == 13
  {
    (if BlockOf(s.d, s.n[i], bn) == 0 then 1 else 0) + (if bn >= 12 && s.n[i].addrs[12] == 0 then 1 else 0)
  }

  /** What the next round may rely on. */
  lemma MidwayRound(a: Stage, s: Stage, i: nat, off: nat, src: seq<byte>, tot: nat, tot': nat, small: bool)
    requires Midway(a, s, i, off, src, tot, small) && tot < |src| && off + |src| <= MAXFILE * 512 && tot' == tot + Chunk(off + tot, |src| - tot)
    ensures i < |a.n| == |s.n| && |a.n[i].addrs| == |s.n[i].addrs| == 13 && tot < tot' <= |src|
    ensures (off + tot) / 512 < MAXFILE && (off + tot) % 512 + (tot' - tot) <= 512
    ensures small ==>
              && Sparing(s, i, Touched(off, tot), off, a.n[i].addrs[12])
              && Touched(off, tot') == Touched(off, tot) + 1 <= (if off % 512 != 0 then 4 else 3)
              && (Touched(off, tot) == 0 && off % 512 != 0 ==> BlockOf(s.d, s.n[i], (off + tot) / 512) != 0)
              && (a.n[i].addrs[12] != 0 ==> s.n[i].addrs[12] == a.n[i].addrs[12])
  {
    OpenMidway(a, s, i, off, src, tot, small);
    AlignedNext(off, tot, tot', |src|);
    if small {
      RoundFacts(a.d, a.n, s.d, s.n, i, off, src, tot, tot');
      OpenSparing(s, i, off, tot, a.n[i].addrs[12]);
    }
  }

  /** A round that wrote the bytes from tot to tot'. */
  lemma MidwayMore(a: Stage, s: Stage, s': Stage, i: nat, off: nat, src: seq<byte>, tot: nat, tot': nat, small: bool)
    requires Midway(a, s, i, off, src, tot, small) && tot < |src| && off + |src| <= MAXFILE * 512 && tot' == tot + Chunk(off + tot, |src| - tot)
    requires Piece(s.d, s.n, s'.d, s'.n, i, off + tot, src[tot..tot'])
    requires i < |s.n| == |s'.n| && MapsOnly(s.d, s.n[i], s'.d, s'.n[i], (off + tot) / 512)
    requires Clear(s'.bm) == Clear(s.bm) - MissingAt(s, i, (off + tot) / 512)
    requires small ==> i < |a.n| && |a.n[i].addrs| == 13 && SparingAt(s', i, off, tot', a.n[i].addrs[12])
    ensures Midway(a, s', i, off, src, tot', small)
  {
    OpenMidway(a, s, i, off, src, tot, small);
    AlignedNext(off, tot, tot', |src|);
    RoundDone(a.d, a.n, s.d, s.n, s'.d, s'.n, i, off, src, tot, tot');
    MappedForMore(a.d, a.n[i], a.bm, s.d, s.n[i], s.bm, s'.d, s'.n[i], s'.bm, off, tot, tot', |src|);
  }

  /** writei ran out of blocks: it has written a prefix, and could not have had all the blocks it needs. */
  ghost predicate Ended(a: Stage, s: Stage, i: nat, off: nat, src: seq<byte>) {
    forall z: nat {:trigger Expand(z)} :: Expand(z) ==>
      && Partly(a.d, a.n, s.d, s.n, i, off, src) && i < |a.n| && !Mappable(a.d, a.n[i], a.bm, off, |src|, true)
  }

  lemma EndedFacts(a: Stage, s: Stage, i: nat, off: nat, src: seq<byte>)
    requires Ended(a, s, i, off, src)
    ensures i < |a.n| && !Mappable(a.d, a.n[i], a.bm, off, |src|, true)
    ensures OthersSame(a.d, a.n, s.d, s.n, i) && exists tot :: 0 <= tot <= |src| && Wrote(a.d, a.n, s.d, s.n, i, off, src[..tot])
  {
    assert Expand(0);
    PartlyFacts(a.d, a.n, s.d, s.n, i, off, src);
  }

  lemma MidwayEnds(a: Stage, s: Stage, s': Stage, i: nat, off: nat, src: seq<byte>, tot: nat, small: bool)
    requires Midway(a, s, i, off, src, tot, small) && tot < |src| && off + |src| <= MAXFILE * 512
    requires Halted(s.d, s.n, s'.d, s'.n, i) && i < |s.n| && |s.n[i].addrs| == 13
    requires Clear(s.bm) < MissingAt(s, i, (off + tot) / 512)
    ensures Ended(a, s', i, off, src)
  {
    OpenMidway(a, s, i, off, src, tot, small);
    AlignedNext(off, tot, tot + Chunk(off + tot, |src| - tot), |src|);
    ProgressStops(a.d, a.n, s.d, s.n, s'.d, s'.n, i, off, src, tot);
    MappedForNext(a.d, a.n[i], a.bm, s.d, s.n[i], s.bm, off, tot, |src|);
  }

  /** Another round keeps the bound, and within four rounds (three if aligned) there is room for it. */
  lemma ThriftNext(a: Tally, index: nat, b: Tally, index': nat, t: nat, off: nat, ind: nat, data: nat, node: nat)
    requires Thrift(a, index, t, off, ind) && data <= 1 && node <= 1
    requires t == 0 && off % 512 != 0 ==> data == node == 0
    requires node == 1 ==> index == 0 && ind == 0
    ensures (&& b.node == {} && |b.data| <= |a.data| + 1 && |b.maps| <= |a.maps| + data + node
             && (node == 1 || index != 0 ==> index' != 0))
            ==> Thrift(b, index', t + 1, off, ind)
    ensures t + 1 <= (if off % 512 != 0 then 4 else 3) ==> |a.data| + |a.maps| + |a.node| + 2 + data + node < MAXOPBLOCKS
  {
  }

  /** After the data of a chunk there is room for the inode block. */
  lemma GrowFits(tally: Tally, index: nat, off: nat, n: nat, ind: nat, b: nat)
    requires Thrift(tally, index, Touched(off, n), off, ind) && n <= 3 * 512
    requires forall x :: x in tally.index ==> x == index
    ensures tally.Size() < MAXOPBLOCKS && tally.Add(Node, b).Size() <= MAXOPBLOCKS
  {
    AtMostOne(tally.index, index);
    TouchedFew(off, n);
    tally.AddSize(Node, b);
  }

  lemma TouchedNext(off: nat, tot: nat, tot': nat)
    requires tot < tot' <= tot + 512 - (off + tot) % 512 && (tot > 0 ==> (off + tot) % 512 == 0)
    ensures Touched(off, tot') == Touched(off, tot) + 1
  {
  }

  /** The next block is the one after those touched, and not past the last. */
  lemma TouchedBlock(off: nat, tot: nat, m: nat, n: nat)
    requires tot < n && 0 < m <= n - tot && m <= 512 - (off + tot) % 512 && (tot > 0 ==> (off + tot) % 512 == 0)
    ensures (off + tot) / 512 == off / 512 + Touched(off, tot) < (off + n + 511) / 512
    ensures Touched(off, tot + m) == Touched(off, tot) + 1
  {
  }

  lemma TouchedSome(off: nat, tot: nat)
    ensures Touched(off, tot) == 0 <==> tot == 0
  {
  }

  /** At most three blocks' length touches four blocks, three if aligned. */
  lemma TouchedFew(off: nat, n: nat)
    requires n <= 3 * 512
    ensures Touched(off, n) <= if off % 512 != 0 then 4 else 3
  {
  }

  /** Offsets below the old size are in mapped blocks. */
  lemma MappedBelow(d: Disk, n: seq<Inode>, d': Disk, n': seq<Inode>, i: nat, off: nat, src: seq<byte>, pos: nat)
    requires Wrote(d, n, d', n', i, off, src) && NoHoles(d, n[i])
    ensures pos < n[i].size ==> BlockOf(d', n'[i], pos / 512) != 0
  {
    if pos < n[i].size {
      assert pos / 512 * 512 <= pos;
      assert BlockOf(d, n[i], pos / 512) != 0;
      assert Addr(d', n'[i], SlotOf(pos / 512)) == Addr(d, n[i], SlotOf(pos / 512));
    }
  }

  lemma BlocksKept(d: Disk, n: seq<Inode>, d': Disk, n': seq<Inode>, i: nat, off: nat, pos: nat, m: nat, src: seq<byte>)
    requires Wrote(d, n, d', n', i, pos, src) && off <= pos && pos + m <= MAXFILE * 512 && 0 < m <= 512 - pos % 512
    requires off < pos ==> forall bn :: off / 512 <= bn && bn * 512 < pos ==> BlockOf(d, n[i], bn) != 0
    requires BlockOf(d', n'[i], pos / 512) != 0
    ensures forall bn :: off / 512 <= bn && bn * 512 < pos + m ==> BlockOf(d', n'[i], bn) != 0
  {
    forall bn | off / 512 <= bn && bn * 512 < pos + m
      ensures BlockOf(d', n'[i], bn) != 0
    {
      if off < pos && bn * 512 < pos {
        assert BlockOf(d, n[i], bn) != 0;
        assert Addr(d', n'[i], SlotOf(bn)) == Addr(d, n[i], SlotOf(bn));
      } else {
        assert bn == pos / 512;
      }
    }
  }

  lemma WroteOthers(d: Disk, n: seq<Inode>, d': Disk, n': seq<Inode>, i: nat, off: nat, src: seq<byte>)
    requires Wrote(d, n, d', n', i, off, src)
    ensures OthersSame(d, n, d', n', i)
  {
    forall j | 0 <= j < |n| && j != i
      ensures Content(d', n'[j]) == Content(d, n[j])
    {
      assert forall x: nat :: ByteAt(d', n'[j], x) == ByteAt(d, n[j], x);
    }
  }

  lemma WroteThenExtends(d: Disk, n: seq<Inode>, d': Disk, n': seq<Inode>, d'': Disk, n'': seq<Inode>, i: nat, off: nat, src: seq<byte>)
    requires Wrote(d, n, d', n', i, off, src) && Extends(d', n', d'', n'', i)
    ensures Wrote(d, n, d'', n'', i, off, src)
  {
    forall j, x: nat | 0 <= j < |n|
      ensures ByteAt(d'', n''[j], x) == if j == i && off <= x < off + |src| then src[x - off] else ByteAt(d, n[j], x)
    {
      assert ByteAt(d'', n''[j], x) == ByteAt(d', n'[j], x);
    }
  }

  /** A larger size changes no slot. */
  lemma Resized(l: Layout, d: Disk, bitmap: seq<bool>, inodes: seq<Inode>, own: Owners, i: nat, size: nat)
    requires Inv(l, d, bitmap, inodes, own) && i < |inodes|
    ensures Inv(l, d, bitmap, inodes[i := inodes[i].(size := size)], own)
  {
    var inodes' := inodes[i := inodes[i].(size := size)];
    forall j, k | 0 <= j < |inodes'| && 0 <= k < SLOTS
      ensures Addr(d, inodes'[j], k) == Addr(d, inodes[j], k) && SlotAt(l, d, inodes', own, j, k)
    {
      assert SlotAt(l, d, inodes, own, j, k);
    }
    forall b | b in own
      ensures HolderAt(l, d, inodes', own, b)
    {
      assert HolderAt(l, d, inodes, own, b);
    }
  }

  /** From bytes to sequences: the written file is the old one overwritten, without holes if it had none. */
  lemma WroteContent(d: Disk, n: seq<Inode>, d': Disk, n1: seq<Inode>, n2: seq<Inode>, i: nat, off: nat, src: seq<byte>)
    requires Wrote(d, n, d', n1, i, off, src) && off <= n[i].size && off + |src| <= MAXFILE * 512
    requires |src| > 0 ==> forall bn :: off / 512 <= bn && bn * 512 < off + |src| ==> BlockOf(d', n1[i], bn) != 0
    requires n2 == if |src| > 0 && off + |src| > n1[i].size then n1[i := n1[i].(size := off + |src|)] else n1
    ensures Content(d', n2[i]) == Overwrite(Content(d, n[i]), off, src)
    ensures NoHoles(d, n[i]) ==> NoHoles(d', n2[i])
    ensures OthersSame(d, n, d', n2, i)
  {
    WroteOthers(d, n, d', n1, i, off, src);
    var s := Content(d, n[i]);
    forall x | 0 <= x < n2[i].size
      ensures Content(d', n2[i])[x] == Overwrite(s, off, src)[x]
    {
      assert ByteAt(d', n2[i], x) == ByteAt(d', n1[i], x);
      OverwriteAt(s, off, src, x);
    }
    if NoHoles(d, n[i]) {
      WroteMapped(d, n, d', n1, n2, i, off, src);
    }
  }

  lemma WroteMapped(d: Disk, n: seq<Inode>, d': Disk, n1: seq<Inode>, n2: seq<Inode>, i: nat, off: nat, src: seq<byte>)
    requires Wrote(d, n, d', n1, i, off, src) && NoHoles(d, n[i]) && off <= n[i].size && off + |src| <= MAXFILE * 512
    requires |src| > 0 ==> forall bn :: off / 512 <= bn && bn * 512 < off + |src| ==> BlockOf(d', n1[i], bn) != 0
    requires n2 == if |src| > 0 && off + |src| > n1[i].size then n1[i := n1[i].(size := off + |src|)] else n1
    ensures NoHoles(d', n2[i])
  {
    forall bn | 0 <= bn && bn * 512 < n2[i].size
      ensures BlockOf(d', n2[i], bn) != 0
    {
      assert BlockOf(d', n2[i], bn) == BlockOf(d', n1[i], bn);
      if bn * 512 < n[i].size {
        assert BlockOf(d, n[i], bn) != 0;
        assert Addr(d', n1[i], SlotOf(bn)) == Addr(d, n[i], SlotOf(bn));
      }
    }
  }

  const NoBlocks := Tally({}, {}, {}, {})

  /** Full is the panic of balloc. */
  datatype WriteResult = Failed | Full | Done

  /** ReadPanic is a panic of bmap. */
  datatype ReadResult = NotRead | ReadPanic | ReadDone

  function Overwrite(s: seq<byte>, off: nat, src: seq<byte>): (r: seq<byte>)
    requires off <= |s|
  {
    s[..off] + src + if off + |src| < |s| then s[off + |src|..] else []
  }

  lemma OverwriteAt(s: seq<byte>, off: nat, src: seq<byte>, x: nat)
    requires off <= |s| && x < |Overwrite(s, off, src)|
    ensures Overwrite(s, off, src)[x] == if off <= x < off + |src| then src[x - off] else s[x]
  {
  }

  lemma OverwriteNothing(s: seq<byte>, off: nat)
    requires off <= |s|
    ensures Overwrite(s, off, []) == s
  {
  }

  /** Two adjacent writes are one. */
  lemma OverwriteMore(s: seq<byte>, off: nat, src: seq<byte>, k: nat, n: nat)
    requires off <= |s| && k + n <= |src|
    ensures off + k <= |Overwrite(s, off, src[..k])|
    ensures Overwrite(Overwrite(s, off, src[..k]), off + k, src[k..k + n]) == Overwrite(s, off, src[..k + n])
  {
  }

  /** Reading back what was written. */
  lemma ReadBack(s: seq<byte>, off: nat, src: seq<byte>)
    requires off <= |s|
    ensures Clip(|Overwrite(s, off, src)|, off, |src|) == |src|
    ensures Overwrite(s, off, src)[off..off + |src|] == src
    ensures var r := Overwrite(s, off, src);
            && |s| <= |r| && (|r| == |s| || |r| == off + |src|)
            && r[..off] == s[..off] && (off + |src| <= |s| ==> r[off + |src|..] == s[off + |src|..])
  {
  }
}
