/**
 The on-disk state of fs.c: the free bitmap, data and indirect blocks, and inodes, with the
 meaning of a file as one sequence of bytes and the ownership of every block.
 */
module FsState {

  const BSIZE: nat := 512
  const NDIRECT: nat := 12
  const NINDIRECT: nat := 128
  const MAXFILE: nat := 140
  const SLOTS: nat := 141 // 12 direct, the indirect block, 128 indirectly listed
  const BPB: nat := 4096

  type byte = x: nat | x < 256
  type Block = b: seq<byte> | |b| == 512 witness seq(512, _ => 0)
  type Disk = seq<Block>

  function ZeroBlock(): (b: Block)
    ensures forall i :: 0 <= i < 512 ==> b[i] == 0
  {
    seq(512, _ => 0)
  }

  // ---- The words of an indirect block ----

  /** a[i], where a is the block as an array of little-endian uints. */
  function Le(b: Block, i: nat): nat
    requires i < NINDIRECT
  {
    (b[4 * i] as nat) + 256 * (b[4 * i + 1] as nat) + 65536 * (b[4 * i + 2] as nat) + 16777216 * (b[4 * i + 3] as nat)
  }

  function PutLe(b: Block, i: nat, v: nat): (r: Block)
    requires i < NINDIRECT && v < 0x1_0000_0000
  {
    b[..4 * i] + [v % 256, v / 256 % 256, v / 65536 % 256, v / 16777216] + b[4 * i + 4..]
  }

  lemma LeZero(i: nat)
    requires i < NINDIRECT
    ensures Le(ZeroBlock(), i) == 0
  {
  }

  lemma LePut(b: Block, i: nat, v: nat, j: nat)
    requires i < NINDIRECT && v < 0x1_0000_0000 && j < NINDIRECT
    ensures Le(PutLe(b, i, v), j) == if i == j then v else Le(b, j)
  {
    var r := PutLe(b, i, v);
    if i == j {
      assert r[4 * i] == v % 256 && r[4 * i + 1] == v / 256 % 256;
      assert r[4 * i + 2] == v / 65536 % 256 && r[4 * i + 3] == v / 16777216;
    } else if j < i {
      assert forall x :: 0 <= x < 4 * i ==> r[x] == b[x];
    } else {
      assert forall x :: 4 * i + 4 <= x < 512 ==> r[x] == b[x];
    }
  }

  // ---- Inodes ----

  /** size, and addrs[NDIRECT + 1]. */
  datatype Inode = Inode(size: nat, addrs: seq<nat>)

  /** The disk layout: blocks below `data` hold the log, the inodes and the bitmap. */
  datatype Layout = Layout(size: nat, inodestart: nat, bmapstart: nat, data: nat) {
    function BBlock(b: nat): nat {
      b / 4096 + bmapstart
    }

    function IBlock(i: nat): nat {
      i / 8 + inodestart
    }
  }

  /** The block number in slot k of an inode: 0..11 direct, 12 the indirect block, 13..140 its entries. */
  function Addr(d: Disk, ip: Inode, k: nat): nat {
    if |ip.addrs| != 13 || k >= SLOTS then 0
    else if k <= 12 then ip.addrs[k]
    else if ip.addrs[12] == 0 || ip.addrs[12] >= |d| then 0
    else Le(d[ip.addrs[12]], k - 13)
  }

  /** The slot of the file's bn-th block. */
  function SlotOf(bn: nat): nat {
    if bn < 12 then bn else bn + 1
  }

  function BlockOf(d: Disk, ip: Inode, bn: nat): nat {
    Addr(d, ip, SlotOf(bn))
  }

  /** The byte at offset x; unmapped blocks read as zeros. */
  function ByteAt(d: Disk, ip: Inode, x: nat): byte {
    var a := BlockOf(d, ip, x / 512);
    if 0 < a < |d| then d[a][x % 512] else 0
  }

  /** The file as a sequence of bytes. */
  ghost function Content(d: Disk, ip: Inode): (s: seq<byte>)
    ensures |s| == ip.size && forall x :: 0 <= x < ip.size ==> s[x] == ByteAt(d, ip, x)
  {
    seq(ip.size, x requires 0 <= x < ip.size => ByteAt(d, ip, x))
  }

  /** Every block below the file's size is mapped. */
  ghost predicate NoHoles(d: Disk, ip: Inode) {
    ip.size <= MAXFILE * 512 && forall bn :: 0 <= bn && bn * 512 < ip.size ==> BlockOf(d, ip, bn) != 0
  }

  // ---- Ownership ----

  /** Loose: allocated, but not yet in an inode, or already taken out of it. */
  datatype Holder = Loose | Slot(i: nat, k: nat)

  type Owners = map<nat, Holder>

  ghost predicate SlotAt(l: Layout, d: Disk, inodes: seq<Inode>, own: Owners, i: nat, k: nat)
    requires i < |inodes|
  {
    var a := Addr(d, inodes[i], k);
    a != 0 ==> a in own && own[a] == Slot(i, k)
  }

  ghost predicate HolderAt(l: Layout, d: Disk, inodes: seq<Inode>, own: Owners, b: nat)
    requires b in own
  {
    && l.data <= b < |d|
    && (own[b].Slot? ==> own[b].i < |inodes| && own[b].k < SLOTS && Addr(d, inodes[own[b].i], own[b].k) == b)
  }

  ghost predicate BitAt(l: Layout, bitmap: seq<bool>, own: Owners, b: nat)
    requires b < |bitmap|
  {
    bitmap[b] <==> b < l.data || b in own
  }

  /** The set bits are exactly the metadata blocks and the allocated blocks, each with one holder. */
  ghost predicate Inv(l: Layout, d: Disk, bitmap: seq<bool>, inodes: seq<Inode>, own: Owners) {
    && |d| == |bitmap| == l.size && 0 < l.data && l.size < 0x1_0000_0000
    && (forall i :: 0 <= i < |inodes| ==> |inodes[i].addrs| == 13)
    && (forall i, k {:trigger SlotAt(l, d, inodes, own, i, k)} ::
          0 <= i < |inodes| && 0 <= k < SLOTS ==> SlotAt(l, d, inodes, own, i, k))
    && (forall b {:trigger HolderAt(l, d, inodes, own, b)} :: b in own ==> HolderAt(l, d, inodes, own, b))
    && (forall b {:trigger BitAt(l, bitmap, own, b)} :: 0 <= b < |bitmap| ==> BitAt(l, bitmap, own, b))
  }

  /** Every allocated block is in an inode. */
  ghost predicate NoLoose(own: Owners) {
    forall b :: b in own ==> own[b].Slot?
  }

  /** Block b is in slot (i, k). */
  ghost predicate Named(d: Disk, inodes: seq<Inode>, b: nat) {
    exists i, k :: 0 <= i < |inodes| && 0 <= k < SLOTS && Addr(d, inodes[i], k) == b
  }

  /** With no loose block, the set bits are exactly the metadata blocks and the blocks that inodes name. */
  lemma BitmapExact(l: Layout, d: Disk, bitmap: seq<bool>, inodes: seq<Inode>, own: Owners, b: nat)
    requires Inv(l, d, bitmap, inodes, own) && NoLoose(own) && b < |bitmap|
    ensures bitmap[b] <==> b < l.data || Named(d, inodes, b)
  {
    assert BitAt(l, bitmap, own, b);
    if b in own {
      assert HolderAt(l, d, inodes, own, b);
      assert Addr(d, inodes[own[b].i], own[b].k) == b;
    }
    if b >= l.data && Named(d, inodes, b) {
      var i, k :| 0 <= i < |inodes| && 0 <= k < SLOTS && Addr(d, inodes[i], k) == b;
      assert SlotAt(l, d, inodes, own, i, k);
    }
  }

  /** No block is in two slots, of one inode or of two. */
  lemma SlotsApart(l: Layout, d: Disk, bitmap: seq<bool>, inodes: seq<Inode>, own: Owners, i: nat, k: nat, j: nat, m: nat)
    requires Inv(l, d, bitmap, inodes, own) && i < |inodes| && j < |inodes| && k < SLOTS && m < SLOTS
    requires Addr(d, inodes[i], k) == Addr(d, inodes[j], m) != 0
    ensures i == j && k == m
  {
    assert SlotAt(l, d, inodes, own, i, k) && SlotAt(l, d, inodes, own, j, m);
  }

  /** All slots of all inodes are as they were. */
  ghost predicate SameAddrs(d: Disk, inodes: seq<Inode>, d': Disk, inodes': seq<Inode>) {
    && |inodes'| == |inodes|
    && forall i, k {:trigger Addr(d', inodes'[i], k)} :: 0 <= i < |inodes| && 0 <= k < SLOTS ==>
         Addr(d', inodes'[i], k) == Addr(d, inodes[i], k)
  }

  /** A block that no inode refers to may change: no slot and no byte of any file does. */
  lemma WriteUnowned(l: Layout, d: Disk, bitmap: seq<bool>, inodes: seq<Inode>, own: Owners, b: nat, data: Block)
    requires Inv(l, d, bitmap, inodes, own) && b < |d| && (b in own ==> own[b] == Loose)
    ensures Inv(l, d[b := data], bitmap, inodes, own) && SameAddrs(d, inodes, d[b := data], inodes)
    ensures forall i :: 0 <= i < |inodes| ==> Content(d[b := data], inodes[i]) == Content(d, inodes[i])
  {
    var d' := d[b := data];
    forall i, k | 0 <= i < |inodes| && 0 <= k < SLOTS
      ensures Addr(d', inodes[i], k) == Addr(d, inodes[i], k)
      ensures SlotAt(l, d', inodes, own, i, k)
    {
      assert SlotAt(l, d, inodes, own, i, k) && SlotAt(l, d, inodes, own, i, 12);
    }
    forall c | c in own
      ensures HolderAt(l, d', inodes, own, c)
    {
      assert HolderAt(l, d, inodes, own, c);
    }
    forall i | 0 <= i < |inodes|
      ensures Content(d', inodes[i]) == Content(d, inodes[i])
    {
      ContentSame(l, d, bitmap, inodes, own, d', i, b);
    }
  }

  /** A file none of whose blocks is b keeps its bytes when only b changes. */
  lemma ContentSame(l: Layout, d: Disk, bitmap: seq<bool>, inodes: seq<Inode>, own: Owners, d': Disk, i: nat, b: nat)
    requires Inv(l, d, bitmap, inodes, own) && i < |inodes| && b < |d| && |d'| == |d|
    requires forall c :: 0 <= c < |d| && c != b ==> d'[c] == d[c]
    requires b in own && own[b].Slot? ==> own[b].i != i
    ensures Content(d', inodes[i]) == Content(d, inodes[i])
  {
    forall x | 0 <= x < inodes[i].size
      ensures ByteAt(d', inodes[i], x) == ByteAt(d, inodes[i], x)
    {
      assert SlotAt(l, d, inodes, own, i, 12);
      assert SlotOf(x / 512) < SLOTS ==> SlotAt(l, d, inodes, own, i, SlotOf(x / 512));
    }
  }

  /** balloc: a free bit is set and its block zeroed; no file changes. */
  lemma TakeBlock(l: Layout, d: Disk, bitmap: seq<bool>, inodes: seq<Inode>, own: Owners, b: nat)
    requires Inv(l, d, bitmap, inodes, own) && b < |bitmap| && !bitmap[b]
    ensures b !in own && l.data <= b
    ensures Inv(l, d[b := ZeroBlock()], bitmap[b := true], inodes, own[b := Loose])
    ensures SameAddrs(d, inodes, d[b := ZeroBlock()], inodes)
    ensures forall i :: 0 <= i < |inodes| ==> Content(d[b := ZeroBlock()], inodes[i]) == Content(d, inodes[i])
  {
    assert BitAt(l, bitmap, own, b);
    WriteUnowned(l, d, bitmap, inodes, own, b, ZeroBlock());
    var d', bitmap', own' := d[b := ZeroBlock()], bitmap[b := true], own[b := Loose];
    forall i, k | 0 <= i < |inodes| && 0 <= k < SLOTS
      ensures SlotAt(l, d', inodes, own', i, k)
    {
      assert SlotAt(l, d', inodes, own, i, k);
    }
    forall c | c in own'
      ensures HolderAt(l, d', inodes, own', c)
    {
      assert c != b ==> HolderAt(l, d', inodes, own, c);
    }
    forall c | 0 <= c < |bitmap'|
      ensures BitAt(l, bitmap', own', c)
    {
      assert BitAt(l, bitmap, own, c);
    }
  }

  /** bfree: a loose block's bit is cleared. */
  lemma DropBlock(l: Layout, d: Disk, bitmap: seq<bool>, inodes: seq<Inode>, own: Owners, b: nat)
    requires Inv(l, d, bitmap, inodes, own) && b in own && own[b] == Loose
    ensures b < |bitmap| && bitmap[b]
    ensures Inv(l, d, bitmap[b := false], inodes, own - {b})
  {
    assert HolderAt(l, d, inodes, own, b);
    assert BitAt(l, bitmap, own, b);
    var bitmap', own' := bitmap[b := false], own - {b};
    forall i, k | 0 <= i < |inodes| && 0 <= k < SLOTS
      ensures SlotAt(l, d, inodes, own', i, k)
    {
      assert SlotAt(l, d, inodes, own, i, k);
    }
    forall c | c in own'
      ensures HolderAt(l, d, inodes, own', c)
    {
      assert HolderAt(l, d, inodes, own, c);
    }
    forall c | 0 <= c < |bitmap'|
      ensures BitAt(l, bitmap', own', c)
    {
      assert BitAt(l, bitmap, own, c);
    }
  }

  function SetAddr(inodes: seq<Inode>, i: nat, k: nat, b: nat): (r: seq<Inode>)
    requires i < |inodes| && |inodes[i].addrs| == 13 && k <= 12
  {
    inodes[i := inodes[i].(addrs := inodes[i].addrs[k := b])]
  }

  /** A change of slot (i, k) alone. */
  ghost predicate OneSlot(d: Disk, inodes: seq<Inode>, d': Disk, inodes': seq<Inode>, i: nat, k: nat, b: nat) {
    && |inodes'| == |inodes| && i < |inodes|
    && (forall j :: 0 <= j < |inodes| ==> inodes'[j].size == inodes[j].size)
    && Addr(d', inodes'[i], k) == b
    && (forall j, m {:trigger Addr(d', inodes'[j], m)} :: 0 <= j < |inodes| && 0 <= m < SLOTS && !(j == i && m == k) ==>
         Addr(d', inodes'[j], m) == Addr(d, inodes[j], m))
  }

  /** Inv after slot (i, k) went from 0 to a loose block, which it now owns. */
  lemma InvOneSlot(l: Layout, d: Disk, bitmap: seq<bool>, inodes: seq<Inode>, own: Owners, d': Disk, inodes': seq<Inode>, i: nat, k: nat, b: nat)
    requires Inv(l, d, bitmap, inodes, own) && OneSlot(d, inodes, d', inodes', i, k, b) && k < SLOTS && |d'| == |d|
    requires forall j :: 0 <= j < |inodes| ==> |inodes'[j].addrs| == 13
    requires Addr(d, inodes[i], k) == 0 && b in own && own[b] == Loose
    ensures Inv(l, d', bitmap, inodes', own[b := Slot(i, k)])
  {
    var own' := own[b := Slot(i, k)];
    forall j, m | 0 <= j < |inodes'| && 0 <= m < SLOTS
      ensures SlotAt(l, d', inodes', own', j, m)
    {
      assert SlotAt(l, d, inodes, own, j, m);
      if !(j == i && m == k) {
        assert Addr(d', inodes'[j], m) == Addr(d, inodes[j], m);
      }
    }
    forall c | c in own'
      ensures HolderAt(l, d', inodes', own', c)
    {
      assert HolderAt(l, d, inodes, own, c);
      if c != b && own[c].Slot? {
        assert Addr(d', inodes'[own[c].i], own[c].k) == Addr(d, inodes[own[c].i], own[c].k);
      }
    }
    forall c | 0 <= c < |bitmap|
      ensures BitAt(l, bitmap, own', c)
    {
      assert BitAt(l, bitmap, own, c);
    }
  }

  /** bmap: ip->addrs[k] = b, for a direct block or for a zeroed indirect block. */
  lemma SetDirect(l: Layout, d: Disk, bitmap: seq<bool>, inodes: seq<Inode>, own: Owners, i: nat, k: nat, b: nat)
    requires Inv(l, d, bitmap, inodes, own) && i < |inodes| && k <= 12 && inodes[i].addrs[k] == 0
    requires b in own && own[b] == Loose && b < |d| && d[b] == ZeroBlock()
    ensures OneSlot(d, inodes, d, SetAddr(inodes, i, k, b), i, k, b)
    ensures Inv(l, d, bitmap, SetAddr(inodes, i, k, b), own[b := Slot(i, k)])
  {
    var inodes' := SetAddr(inodes, i, k, b);
    assert HolderAt(l, d, inodes, own, b);
    forall j, m | 0 <= j < |inodes| && 0 <= m < SLOTS && !(j == i && m == k)
      ensures Addr(d, inodes'[j], m) == Addr(d, inodes[j], m)
    {
      if j == i && k == 12 && m > 12 {
        LeZero(m - 13);
      }
    }
    InvOneSlot(l, d, bitmap, inodes, own, d, inodes', i, k, b);
  }

  /** bmap: a[k - 13] = b in the indirect block. */
  lemma SetIndirect(l: Layout, d: Disk, bitmap: seq<bool>, inodes: seq<Inode>, own: Owners, i: nat, k: nat, b: nat)
    requires Inv(l, d, bitmap, inodes, own) && i < |inodes| && 13 <= k < SLOTS && Addr(d, inodes[i], k) == 0
    requires inodes[i].addrs[12] != 0 && b in own && own[b] == Loose
    ensures inodes[i].addrs[12] < |d| && b < 0x1_0000_0000
    ensures var d' := d[inodes[i].addrs[12] := PutLe(d[inodes[i].addrs[12]], k - 13, b)];
            OneSlot(d, inodes, d', inodes, i, k, b) && Inv(l, d', bitmap, inodes, own[b := Slot(i, k)])
  {
    var ind := inodes[i].addrs[12];
    assert SlotAt(l, d, inodes, own, i, 12);
    assert HolderAt(l, d, inodes, own, ind) && HolderAt(l, d, inodes, own, b);
    var d' := d[ind := PutLe(d[ind], k - 13, b)];
    forall j, m | 0 <= j < |inodes| && 0 <= m < SLOTS
      ensures Addr(d', inodes[j], m) == if j == i && m == k then b else Addr(d, inodes[j], m)
    {
      assert SlotAt(l, d, inodes, own, j, 12);
      if j == i && m > 12 {
        LePut(d[ind], k - 13, b, m - 13);
      }
    }
    InvOneSlot(l, d, bitmap, inodes, own, d', inodes, i, k, b);
  }

  /** A data block of file i may be rewritten: no slot changes. */
  lemma WriteData(l: Layout, d: Disk, bitmap: seq<bool>, inodes: seq<Inode>, own: Owners, i: nat, k: nat, data: Block)
    requires Inv(l, d, bitmap, inodes, own) && i < |inodes| && k < SLOTS && k != 12 && Addr(d, inodes[i], k) != 0
    ensures Addr(d, inodes[i], k) < |d|
    ensures var d' := d[Addr(d, inodes[i], k) := data];
            Inv(l, d', bitmap, inodes, own) && SameAddrs(d, inodes, d', inodes)
  {
    var a := Addr(d, inodes[i], k);
    assert SlotAt(l, d, inodes, own, i, k) && HolderAt(l, d, inodes, own, a);
    var d' := d[a := data];
    forall j, m | 0 <= j < |inodes| && 0 <= m < SLOTS
      ensures Addr(d', inodes[j], m) == Addr(d, inodes[j], m)
      ensures SlotAt(l, d', inodes, own, j, m)
    {
      assert SlotAt(l, d, inodes, own, j, m) && SlotAt(l, d, inodes, own, j, 12);
    }
    forall c | c in own
      ensures HolderAt(l, d', inodes, own, c)
    {
      assert HolderAt(l, d, inodes, own, c);
    }
  }

  /** A byte of file j is the same on a disk that differs only in a block that holds none of j's data. */
  lemma ByteSame(l: Layout, d: Disk, bitmap: seq<bool>, inodes: seq<Inode>, own: Owners, d': Disk, inodes': seq<Inode>, j: nat, x: nat, c: nat)
    requires Inv(l, d, bitmap, inodes, own) && j < |inodes| && |inodes'| == |inodes| && |d'| == |d| && c < |d|
    requires forall e :: 0 <= e < |d| && e != c ==> d'[e] == d[e]
    requires c in own ==> own[c] == Loose || (own[c].Slot? && (own[c].i != j || own[c].k == 12))
    requires BlockOf(d', inodes'[j], x / 512) == BlockOf(d, inodes[j], x / 512)
    ensures ByteAt(d', inodes'[j], x) == ByteAt(d, inodes[j], x)
  {
    var k := SlotOf(x / 512);
    if k < SLOTS {
      assert SlotAt(l, d, inodes, own, j, k);
    }
  }

  /** What bmap may do: map new, zeroed blocks of file i.  No byte of any file changes. */
  ghost predicate Extends(d: Disk, inodes: seq<Inode>, d': Disk, inodes': seq<Inode>, i: nat) {
    && |inodes'| == |inodes| && |d'| == |d|
    && (forall j :: 0 <= j < |inodes| ==> inodes'[j].size == inodes[j].size)
    && (forall j :: 0 <= j < |inodes| && j != i ==> inodes'[j] == inodes[j])
    && (forall j, m {:trigger Addr(d', inodes'[j], m)} :: 0 <= j < |inodes| && 0 <= m < SLOTS && (j != i || Addr(d, inodes[j], m) != 0) ==>
          Addr(d', inodes'[j], m) == Addr(d, inodes[j], m))
    && (forall j, x: nat {:trigger ByteAt(d', inodes'[j], x)} :: 0 <= j < |inodes| ==>
          ByteAt(d', inodes'[j], x) == ByteAt(d, inodes[j], x))
  }

  lemma ExtendsTrans(d: Disk, n: seq<Inode>, d': Disk, n': seq<Inode>, d'': Disk, n'': seq<Inode>, i: nat)
    requires Extends(d, n, d', n', i) && Extends(d', n', d'', n'', i)
    ensures Extends(d, n, d'', n'', i)
  {
  }

  lemma TakeExtends(l: Layout, d: Disk, bitmap: seq<bool>, inodes: seq<Inode>, own: Owners, i: nat, b: nat)
    requires Inv(l, d, bitmap, inodes, own) && b < |bitmap| && !bitmap[b]
    ensures Extends(d, inodes, d[b := ZeroBlock()], inodes, i)
  {
    TakeBlock(l, d, bitmap, inodes, own, b);
    var d' := d[b := ZeroBlock()];
    forall j, x: nat | 0 <= j < |inodes|
      ensures ByteAt(d', inodes[j], x) == ByteAt(d, inodes[j], x)
    {
      assert SlotOf(x / 512) < SLOTS ==> Addr(d', inodes[j], SlotOf(x / 512)) == Addr(d, inodes[j], SlotOf(x / 512));
      ByteSame(l, d, bitmap, inodes, own, d', inodes, j, x, b);
    }
  }

  /** Slot (i, k) now names a zeroed block; block c may have changed if it is i's indirect block. */
  lemma SlotExtends(l: Layout, d: Disk, bitmap: seq<bool>, inodes: seq<Inode>, own: Owners, d': Disk, inodes': seq<Inode>, i: nat, k: nat, b: nat, c: nat)
    requires Inv(l, d, bitmap, inodes, own) && OneSlot(d, inodes, d', inodes', i, k, b) && k < SLOTS && |d'| == |d|
    requires Addr(d, inodes[i], k) == 0 && b in own && own[b] == Loose && b < |d| && d'[b] == ZeroBlock() && c < |d|
    requires c == b || (c in own && own[c] == Slot(i, 12))
    requires forall e :: 0 <= e < |d| && e != c ==> d'[e] == d[e]
    requires forall j :: 0 <= j < |inodes| && j != i ==> inodes'[j] == inodes[j]
    ensures Extends(d, inodes, d', inodes', i)
  {
    forall j, x: nat | 0 <= j < |inodes|
      ensures ByteAt(d', inodes'[j], x) == ByteAt(d, inodes[j], x)
    {
      var m := SlotOf(x / 512);
      if m < SLOTS && !(j == i && m == k) {
        assert Addr(d', inodes'[j], m) == Addr(d, inodes[j], m);
        ByteSame(l, d, bitmap, inodes, own, d', inodes', j, x, c);
      }
    }
  }

  // ---- Writing bytes ----

  /** Bytes off..off + |src| of file i are src; all other bytes of all files, and all mapped blocks, are as before. */
  ghost predicate Wrote(d: Disk, inodes: seq<Inode>, d': Disk, inodes': seq<Inode>, i: nat, off: nat, src: seq<byte>) {
    && |inodes'| == |inodes| && |d'| == |d| && i < |inodes|
    && (forall j :: 0 <= j < |inodes| ==> inodes'[j].size == inodes[j].size)
    && (forall j :: 0 <= j < |inodes| && j != i ==> inodes'[j] == inodes[j])
    && (forall j, m {:trigger Addr(d', inodes'[j], m)} :: 0 <= j < |inodes| && 0 <= m < SLOTS && (j != i || Addr(d, inodes[j], m) != 0) ==>
          Addr(d', inodes'[j], m) == Addr(d, inodes[j], m))
    && (forall j, x: nat {:trigger ByteAt(d', inodes'[j], x)} :: 0 <= j < |inodes| ==>
          ByteAt(d', inodes'[j], x) == if j == i && off <= x < off + |src| then src[x - off] else ByteAt(d, inodes[j], x))
  }

  function Patch(b: Block, o: nat, src: seq<byte>): (r: Block)
    requires o + |src| <= 512
    ensures forall x :: 0 <= x < 512 ==> r[x] == if o <= x < o + |src| then src[x - o] else b[x]
  {
    b[..o] + src + b[o + |src|..]
  }

  /** memmove into the mapped block that holds offset off. */
  lemma PatchWrites(l: Layout, d: Disk, bitmap: seq<bool>, inodes: seq<Inode>, own: Owners, i: nat, off: nat, src: seq<byte>)
    requires Inv(l, d, bitmap, inodes, own) && i < |inodes| && off / 512 < MAXFILE && off % 512 + |src| <= 512
    requires BlockOf(d, inodes[i], off / 512) != 0
    ensures BlockOf(d, inodes[i], off / 512) < |d|
    ensures var a := BlockOf(d, inodes[i], off / 512);
            var d' := d[a := Patch(d[a], off % 512, src)];
            Inv(l, d', bitmap, inodes, own) && Wrote(d, inodes, d', inodes, i, off, src) && SameAddrs(d, inodes, d', inodes)
  {
    var k := SlotOf(off / 512);
    var a := BlockOf(d, inodes[i], off / 512);
    WriteData(l, d, bitmap, inodes, own, i, k, ZeroBlock());
    WriteData(l, d, bitmap, inodes, own, i, k, Patch(d[a], off % 512, src));
    var d' := d[a := Patch(d[a], off % 512, src)];
    assert SlotAt(l, d, inodes, own, i, k);
    forall j, x: nat | 0 <= j < |inodes|
      ensures ByteAt(d', inodes[j], x) == if j == i && off <= x < off + |src| then src[x - off] else ByteAt(d, inodes[j], x)
    {
      var m := SlotOf(x / 512);
      if m < SLOTS {
        assert Addr(d', inodes[j], m) == Addr(d, inodes[j], m);
        assert SlotAt(l, d, inodes, own, j, m);
        if j == i && x / 512 == off / 512 {
          assert x % 512 - off % 512 == x - off;
        } else if j == i {
          assert m != k;
        }
      }
    }
  }

  lemma ExtendsThenWrote(d: Disk, n: seq<Inode>, d': Disk, n': seq<Inode>, d'': Disk, n'': seq<Inode>, i: nat, off: nat, src: seq<byte>)
    requires Extends(d, n, d', n', i) && Wrote(d', n', d'', n'', i, off, src)
    ensures Wrote(d, n, d'', n'', i, off, src)
  {
  }

  lemma WroteMore(d: Disk, n: seq<Inode>, d': Disk, n': seq<Inode>, d'': Disk, n'': seq<Inode>, i: nat, off: nat, a: seq<byte>, b: seq<byte>)
    requires Wrote(d, n, d', n', i, off, a) && Wrote(d', n', d'', n'', i, off + |a|, b)
    ensures Wrote(d, n, d'', n'', i, off, a + b)
  {
    forall j, x: nat | 0 <= j < |n|
      ensures ByteAt(d'', n''[j], x) == if j == i && off <= x < off + |a + b| then (a + b)[x - off] else ByteAt(d, n[j], x)
    {
      assert ByteAt(d', n'[j], x) == if j == i && off <= x < off + |a| then a[x - off] else ByteAt(d, n[j], x);
    }
  }

  // ---- Taking blocks away from an inode ----

  /** itrunc: ip->addrs[k] = 0 for a direct block. */
  lemma DetachDirect(l: Layout, d: Disk, bitmap: seq<bool>, inodes: seq<Inode>, own: Owners, i: nat, k: nat)
    requires Inv(l, d, bitmap, inodes, own) && i < |inodes| && k < 12 && inodes[i].addrs[k] != 0
    ensures var b := inodes[i].addrs[k];
            b in own && own[b] == Slot(i, k) && Inv(l, d, bitmap, SetAddr(inodes, i, k, 0), own[b := Loose])
  {
    assert SlotAt(l, d, inodes, own, i, k);
    var b := inodes[i].addrs[k];
    var inodes', own' := SetAddr(inodes, i, k, 0), own[b := Loose];
    forall j, m | 0 <= j < |inodes'| && 0 <= m < SLOTS
      ensures Addr(d, inodes'[j], m) == if j == i && m == k then 0 else Addr(d, inodes[j], m)
      ensures SlotAt(l, d, inodes', own', j, m)
    {
      assert SlotAt(l, d, inodes, own, j, m);
    }
    forall c | c in own'
      ensures HolderAt(l, d, inodes', own', c)
    {
      assert HolderAt(l, d, inodes, own, c);
    }
    forall c | 0 <= c < |bitmap|
      ensures BitAt(l, bitmap, own', c)
    {
      assert BitAt(l, bitmap, own, c);
    }
  }

  /** The owners once inode i has given up slots 12 and above. */
  ghost function Loosened(own: Owners, i: nat): (r: Owners)
    ensures r.Keys == own.Keys
  {
    map b | b in own :: if own[b].Slot? && own[b].i == i && own[b].k >= 12 then Loose else own[b]
  }

  /** itrunc: ip->addrs[NDIRECT] = 0 detaches the indirect block and all it lists. */
  lemma DetachIndirect(l: Layout, d: Disk, bitmap: seq<bool>, inodes: seq<Inode>, own: Owners, i: nat)
    requires Inv(l, d, bitmap, inodes, own) && i < |inodes| && inodes[i].addrs[12] != 0
    ensures inodes[i].addrs[12] < |d|
    ensures Inv(l, d, bitmap, SetAddr(inodes, i, 12, 0), Loosened(own, i))
    ensures inodes[i].addrs[12] in own && own[inodes[i].addrs[12]] == Slot(i, 12)
    ensures forall j :: 0 <= j < NINDIRECT ==>
              var e := Le(d[inodes[i].addrs[12]], j);
              e == Addr(d, inodes[i], j + 13) && (e != 0 ==> e in own && own[e] == Slot(i, j + 13))
  {
    assert SlotAt(l, d, inodes, own, i, 12);
    assert HolderAt(l, d, inodes, own, inodes[i].addrs[12]);
    var inodes', own' := SetAddr(inodes, i, 12, 0), Loosened(own, i);
    forall j | 0 <= j < NINDIRECT
      ensures var e := Le(d[inodes[i].addrs[12]], j);
              e == Addr(d, inodes[i], j + 13) && (e != 0 ==> e in own && own[e] == Slot(i, j + 13))
    {
      assert SlotAt(l, d, inodes, own, i, j + 13);
    }
    forall j, m | 0 <= j < |inodes'| && 0 <= m < SLOTS
      ensures Addr(d, inodes'[j], m) == if j == i && m >= 12 then 0 else Addr(d, inodes[j], m)
      ensures SlotAt(l, d, inodes', own', j, m)
    {
      assert SlotAt(l, d, inodes, own, j, m);
    }
    forall c | c in own'
      ensures HolderAt(l, d, inodes', own', c)
    {
      assert HolderAt(l, d, inodes, own, c);
    }
    forall c | 0 <= c < |bitmap|
      ensures BitAt(l, bitmap, own', c)
    {
      assert BitAt(l, bitmap, own, c);
    }
  }

  // ---- What an operation has to log ----

  /** What the home blocks of the file system hold. */
  datatype Image = Image(disk: Disk, bitmap: seq<bool>, nodes: seq<Inode>)

  ghost predicate BlockLogged(a: Image, b: Image, logged: seq<nat>, c: nat)
    requires c < |a.disk| == |b.disk|
  {
    b.disk[c] == a.disk[c] || c in logged
  }

  ghost predicate BitLogged(l: Layout, a: Image, b: Image, logged: seq<nat>, c: nat)
    requires c < |a.bitmap| == |b.bitmap|
  {
    b.bitmap[c] == a.bitmap[c] || l.BBlock(c) in logged
  }

  ghost predicate NodeLogged(l: Layout, a: Image, b: Image, logged: seq<nat>, i: nat)
    requires i < |a.nodes| == |b.nodes|
  {
    b.nodes[i] == a.nodes[i] || l.IBlock(i) in logged
  }

  /** Every block that differs between a and b is among the logged ones. */
  ghost predicate Covered(l: Layout, a: Image, b: Image, logged: seq<nat>) {
    && |a.disk| == |b.disk| && |a.bitmap| == |b.bitmap| && |a.nodes| == |b.nodes|
    && (forall c {:trigger BlockLogged(a, b, logged, c)} :: 0 <= c < |a.disk| ==> BlockLogged(a, b, logged, c))
    && (forall c {:trigger BitLogged(l, a, b, logged, c)} :: 0 <= c < |a.bitmap| ==> BitLogged(l, a, b, logged, c))
    && (forall i {:trigger NodeLogged(l, a, b, logged, i)} :: 0 <= i < |a.nodes| ==> NodeLogged(l, a, b, logged, i))
  }

  /** One more logged block, and the one change that it stands for. */
  lemma CoveredMore(l: Layout, a: Image, b: Image, b': Image, logged: seq<nat>, c: nat)
    requires Covered(l, a, b, logged) && |b'.disk| == |b.disk| && |b'.bitmap| == |b.bitmap| && |b'.nodes| == |b.nodes|
    requires forall x :: 0 <= x < |b.disk| && x != c ==> b'.disk[x] == b.disk[x]
    requires forall x :: 0 <= x < |b.bitmap| && l.BBlock(x) != c ==> b'.bitmap[x] == b.bitmap[x]
    requires forall i :: 0 <= i < |b.nodes| && l.IBlock(i) != c ==> b'.nodes[i] == b.nodes[i]
    ensures Covered(l, a, b', logged + [c])
  {
    forall x | 0 <= x < |a.disk|
      ensures BlockLogged(a, b', logged + [c], x)
    {
      assert BlockLogged(a, b, logged, x);
    }
    forall x | 0 <= x < |a.bitmap|
      ensures BitLogged(l, a, b', logged + [c], x)
    {
      assert BitLogged(l, a, b, logged, x);
    }
    forall i | 0 <= i < |a.nodes|
      ensures NodeLogged(l, a, b', logged + [c], i)
    {
      assert NodeLogged(l, a, b, logged, i);
    }
  }
}
