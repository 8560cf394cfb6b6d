/**
 The words of the file system's blocks (fs.h, and the bit of balloc in fs.c): where each bit of the
 bitmap, each inode and each byte of data lies, so that a block depends on its own part of the state
 only, and everything can be read back from the block that the code looks into.
 */
module DiskLayout {

  import opened FsState
  import D = LogDisk
  import FileCrash

  const IPB: nat := 8 // inodes in a block, 16 words each
  /** Bit k of a word. */
  predicate Bit(w: nat, k: nat) {
    if k == 0 then w % 2 == 1 else Bit(w / 2, k - 1)
  }

  /** The word whose bit k is bit base + k of the bitmap, for k below n. */
  function Bits(bitmap: seq<bool>, base: nat, n: nat): nat
    decreases n, base
  {
    if n == 0 then 0
    else (if base < |bitmap| && bitmap[base] then 1 else 0) + 2 * Bits(bitmap, base + 1, n - 1)
  }

  /** Byte k of a little-endian word. */
  function ByteOf(w: nat, k: nat): nat
    requires k < 4
  {
    if k == 0 then w % 256 else if k == 1 then w / 256 % 256 else if k == 2 then w / 256 / 256 % 256 else w / 256 / 256 / 256
  }

  /** Word w of a dinode: two words of type and link count, which are not modelled, the size, and 13 addresses. */
  function NodeWord(ip: Inode, w: nat): nat {
    if w == 2 then ip.size else if 3 <= w && w - 3 < |ip.addrs| then ip.addrs[w - 3] else 0
  }

  function DataBlock(b: Block): D.Block {
    seq(128, w requires 0 <= w < 128 => Le(b, w))
  }

  function BitBlock(bitmap: seq<bool>, k: nat): D.Block {
    seq(128, w requires 0 <= w < 128 => Bits(bitmap, 4096 * k + 32 * w, 32))
  }

  function NodeBlock(nodes: seq<Inode>, k: nat): D.Block {
    seq(128, w requires 0 <= w < 128 => if 8 * k + w / 16 < |nodes| then NodeWord(nodes[8 * k + w / 16], w % 16) else 0)
  }

  /** Block c: the k-th inode block, the k-th bitmap block, or data. */
  function BlockAt(l: Layout, img: Image, c: nat): D.Block
    requires c < |img.disk|
  {
    if l.inodestart <= c && 8 * (c - l.inodestart) < |img.nodes| then NodeBlock(img.nodes, c - l.inodestart)
    else if l.bmapstart <= c && 4096 * (c - l.bmapstart) < |img.bitmap| then BitBlock(img.bitmap, c - l.bmapstart)
    else DataBlock(img.disk[c])
  }

  function Encode(l: Layout, img: Image): (d: D.Disk)
    ensures |d| == |img.disk| && forall c :: 0 <= c < |d| ==> d[c] == BlockAt(l, img, c)
  {
    seq(|img.disk|, c requires 0 <= c < |img.disk| => BlockAt(l, img, c))
  }

  // ---- A block depends on its own part of the state ----

  lemma {:induction false} BitsSame(a: seq<bool>, b: seq<bool>, base: nat, n: nat)
    requires |a| == |b| && forall x :: base <= x < base + n && x < |a| ==> a[x] == b[x]
    ensures Bits(a, base, n) == Bits(b, base, n)
    decreases n
  {
    if n > 0 {
      BitsSame(a, b, base + 1, n - 1);
    }
  }

  lemma BlockSame(l: Layout, a: Image, b: Image, c: nat)
    requires c < |a.disk| && FileCrash.SameAt(l, a, b, c)
    ensures BlockAt(l, a, c) == BlockAt(l, b, c)
  {
    if l.inodestart <= c && 8 * (c - l.inodestart) < |a.nodes| {
      var k := c - l.inodestart;
      forall w | 0 <= w < 128 && 8 * k + w / 16 < |a.nodes|
        ensures a.nodes[8 * k + w / 16] == b.nodes[8 * k + w / 16]
      {
        assert l.IBlock(8 * k + w / 16) == c;
      }
      assert NodeBlock(a.nodes, k) == NodeBlock(b.nodes, k);
    } else if l.bmapstart <= c && 4096 * (c - l.bmapstart) < |a.bitmap| {
      var k := c - l.bmapstart;
      forall w | 0 <= w < 128
        ensures Bits(a.bitmap, 4096 * k + 32 * w, 32) == Bits(b.bitmap, 4096 * k + 32 * w, 32)
      {
        forall x | 4096 * k + 32 * w <= x < 4096 * k + 32 * w + 32 && x < |a.bitmap|
          ensures a.bitmap[x] == b.bitmap[x]
        {
          assert l.BBlock(x) == c;
        }
        BitsSame(a.bitmap, b.bitmap, 4096 * k + 32 * w, 32);
      }
      assert BitBlock(a.bitmap, k) == BitBlock(b.bitmap, k);
    }
  }

  /** So what a crash leaves of a write holds of the disk as it is laid out. */
  lemma EncodeLocal(l: Layout)
    ensures FileCrash.Local(l, img => Encode(l, img))
  {
    forall a: Image, b: Image, c: nat | FileCrash.SameAt(l, a, b, c) && c < |Encode(l, a)| == |Encode(l, b)|
      ensures Encode(l, a)[c] == Encode(l, b)[c]
    {
      BlockSame(l, a, b, c);
    }
  }

  // ---- Reading back ----

  /** The inode blocks end before the bitmap, the bitmap before the data. */
  predicate InOrder(l: Layout, img: Image) {
    && l.inodestart + (|img.nodes| + 7) / 8 <= l.bmapstart && l.bmapstart + (|img.bitmap| + 4095) / 4096 <= l.data <= |img.disk|
  }

  lemma {:induction false} BitTest(bitmap: seq<bool>, base: nat, n: nat, k: nat)
    requires k < n
    ensures Bit(Bits(bitmap, base, n), k) <==> base + k < |bitmap| && bitmap[base + k]
    decreases n
  {
    var rest := Bits(bitmap, base + 1, n - 1);
    if k > 0 {
      BitTest(bitmap, base + 1, n - 1, k - 1);
      assert Bits(bitmap, base, n) / 2 == rest;
    }
  }

  lemma InBitmap(l: Layout, img: Image, c: nat)
    requires InOrder(l, img) && 4096 * c < |img.bitmap|
    ensures l.bmapstart + c < |img.disk| && BlockAt(l, img, l.bmapstart + c) == BitBlock(img.bitmap, c)
  {
  }

  lemma InNodes(l: Layout, img: Image, c: nat)
    requires InOrder(l, img) && 8 * c < |img.nodes|
    ensures l.inodestart + c < |img.disk| && BlockAt(l, img, l.inodestart + c) == NodeBlock(img.nodes, c)
  {
  }

  /** balloc and bfree find the bit of block b in block BBLOCK(b), at bit b % BPB. */
  lemma BitReadBack(l: Layout, img: Image, b: nat)
    requires InOrder(l, img) && b < |img.bitmap|
    ensures l.BBlock(b) < |img.disk|
    ensures Bit(Encode(l, img)[l.BBlock(b)][b % BPB / 32], b % BPB % 32) <==> img.bitmap[b]
  {
    var c, r := b / 4096, b % 4096;
    assert b == 4096 * c + r;
    InBitmap(l, img, c);
    BitInBlock(img.bitmap, c, r);
  }

  lemma BitInBlock(bitmap: seq<bool>, c: nat, r: nat)
    requires r < 4096 && 4096 * c + r < |bitmap|
    ensures Bit(BitBlock(bitmap, c)[r / 32], r % 32) <==> bitmap[4096 * c + r]
  {
    var w, k := r / 32, r % 32;
    assert r == 32 * w + k;
    BitTest(bitmap, 4096 * c + 32 * w, 32, k);
  }

  /** ilock and iupdate find inode i in block IBLOCK(i), at the i % IPB-th dinode. */
  lemma NodeReadBack(l: Layout, img: Image, i: nat, k: nat)
    requires InOrder(l, img) && i < |img.nodes| && k < |img.nodes[i].addrs| == 13
    ensures l.IBlock(i) < |img.disk|
    ensures Encode(l, img)[l.IBlock(i)][16 * (i % IPB) + 2] == img.nodes[i].size
    ensures Encode(l, img)[l.IBlock(i)][16 * (i % IPB) + 3 + k] == img.nodes[i].addrs[k]
  {
    var c, r := i / 8, i % 8;
    assert i == 8 * c + r;
    InNodes(l, img, c);
    NodeInBlock(img.nodes, c, r, 2);
    NodeInBlock(img.nodes, c, r, 3 + k);
  }

  lemma NodeInBlock(nodes: seq<Inode>, c: nat, r: nat, w: nat)
    requires r < 8 && w < 16 && 8 * c + r < |nodes|
    ensures NodeBlock(nodes, c)[16 * r + w] == NodeWord(nodes[8 * c + r], w)
  {
    assert (16 * r + w) / 16 == r && (16 * r + w) % 16 == w;
  }

  /** Data blocks hold their bytes, four to a word. */
  lemma DataReadBack(l: Layout, img: Image, c: nat, x: nat)
    requires InOrder(l, img) && l.data <= c < |img.disk| && x < BSIZE
    ensures ByteOf(Encode(l, img)[c][x / 4], x % 4) == img.disk[c][x]
  {
    assert Encode(l, img)[c] == DataBlock(img.disk[c]);
    LeBytes(img.disk[c], x / 4, x % 4);
    assert 4 * (x / 4) + x % 4 == x;
  }

  lemma LeBytes(b: Block, i: nat, k: nat)
    requires i < NINDIRECT && k < 4
    ensures ByteOf(Le(b, i), k) == b[4 * i + k]
  {
    FourBytes(b[4 * i], b[4 * i + 1], b[4 * i + 2], b[4 * i + 3]);
  }

  lemma FourBytes(x: nat, y: nat, z: nat, u: nat)
    requires x < 256 && y < 256 && z < 256 && u < 256
    ensures var w := x + 256 * y + 65536 * z + 16777216 * u;
            w % 256 == x && w / 256 % 256 == y && w / 256 / 256 % 256 == z && w / 256 / 256 / 256 == u
  {
    var w := x + 256 * y + 65536 * z + 16777216 * u;
    var v := y + 256 * z + 65536 * u;
    var t := z + 256 * u;
    assert w == x + 256 * v && v == y + 256 * t;
    assert w / 256 == v;
    assert v / 256 == t;
    assert t / 256 == u;
  }
}
