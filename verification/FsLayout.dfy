/** The on-disk structures of kernel/fs.h over a plain block store: the free bitmap and the inode table. */
module FsLayout {
  import opened Blocks

  const NDIRECT: nat := 12
  const NINDIRECT: nat := 256          // BSIZE / sizeof(uint)
  const MAXFILE: nat := 268            // NDIRECT + NINDIRECT
  const IPB: nat := 16                 // inodes per block
  const BPB: nat := 8192               // bitmap bits per block
  const SHORT_LIMIT: nat := 0x1_0000

  /** What the superblock says of the disk: how many blocks and inodes there are, where the inode table and the bitmap begin, and
      how many blocks come before the first data block. */
  datatype Geo = Geo(size: nat, ninodes: nat, inodestart: nat, bmapstart: nat, nmeta: nat)

  ghost predicate GeoOk(g: Geo) {
    && 2 <= g.inodestart && 1 < g.ninodes
    && g.inodestart + g.ninodes / IPB + 1 <= g.bmapstart
    && g.bmapstart + g.size / BPB + 1 <= g.nmeta <= g.size < UINT_LIMIT
  }

  function InodeBlock(g: Geo, i: nat): nat {
    i / IPB + g.inodestart
  }

  function BitmapBlock(g: Geo, b: nat): nat {
    b / BPB + g.bmapstart
  }

  predicate InBitmap(g: Geo, b: nat) {
    g.bmapstart <= b < g.nmeta
  }

  // ---------------------------------------------------------------- bits

  /** n & (1 << k) */
  predicate TestBit(n: nat, k: nat) {
    if k == 0 then n % 2 == 1 else TestBit(n / 2, k - 1)
  }

  /** n | (1 << k), or n & ~(1 << k) */
  function StoreBit(n: nat, k: nat, v: bool): nat {
    if k == 0 then n / 2 * 2 + (if v then 1 else 0) else StoreBit(n / 2, k - 1, v) * 2 + n % 2
  }

  lemma {:induction false} StoreBitTest(n: nat, k: nat, v: bool, j: nat)
    ensures TestBit(StoreBit(n, k, v), j) == if j == k then v else TestBit(n, j)
  {
    if k > 0 {
      assert StoreBit(n, k, v) / 2 == StoreBit(n / 2, k - 1, v);
      if j > 0 {
        StoreBitTest(n / 2, k - 1, v, j - 1);
      }
    }
  }

  function TwoTo(m: nat): nat {
    if m == 0 then 1 else 2 * TwoTo(m - 1)
  }

  lemma Halved(n: nat, h: nat)
    requires n < 2 * h
    ensures n / 2 < h && n / 2 * 2 + 1 < 2 * h
  {
  }

  lemma {:induction false} StoreBitRange(n: nat, k: nat, v: bool, m: nat)
    requires n < TwoTo(m) && k < m
    ensures StoreBit(n, k, v) < TwoTo(m)
  {
    var h := TwoTo(m - 1);
    Halved(n, h);
    if k > 0 {
      StoreBitRange(n / 2, k - 1, v, m - 1);
      var half := StoreBit(n / 2, k - 1, v);
      assert half < h && StoreBit(n, k, v) == half * 2 + n % 2;
    }
  }

  function StoreByte(byte: Byte, k: nat, v: bool): (r: Byte)
    requires k < 8
    ensures r == StoreBit(byte, k, v)
  {
    assert TwoTo(4) == 16;
    assert TwoTo(8) == 256;
    StoreBitRange(byte, k, v, 8);
    StoreBit(byte, k, v)
  }

  /** Is block b marked in use? */
  predicate Bit(g: Geo, store: Disk, b: nat)
    requires BitmapBlock(g, b) < |store|
  {
    TestBit(store[BitmapBlock(g, b)][b % BPB / 8], b % 8)
  }

  function SetBit(g: Geo, store: Disk, b: nat, v: bool): Disk
    requires BitmapBlock(g, b) < |store|
  {
    var blk := store[BitmapBlock(g, b)];
    store[BitmapBlock(g, b) := blk[b % BPB / 8 := StoreByte(blk[b % BPB / 8], b % 8, v)]]
  }

  /** Storing one bit of the bitmap changes that bit, and nothing outside its bitmap block. */
  lemma BitStored(g: Geo, store: Disk, b: nat, v: bool, c: nat)
    requires BitmapBlock(g, b) < |store| && BitmapBlock(g, c) < |store|
    ensures Bit(g, SetBit(g, store, b, v), c) == if c == b then v else Bit(g, store, c)
  {
    var byte := store[BitmapBlock(g, b)][b % BPB / 8];
    StoreBitTest(byte, b % 8, v, c % 8);
    if c != b && c / BPB == b / BPB && c % BPB / 8 == b % BPB / 8 {
      assert c % 8 != b % 8;
    }
  }

  // ---------------------------------------------------------------- inodes

  /** struct dinode, and the copy of it in struct inode. */
  datatype Inode = Inode(typ: nat, major: nat, minor: nat, nlink: nat, size: nat, addrs: seq<nat>)

  const NO_ADDRS: seq<nat> := [0, 0, 0, 0, 0, 0, 0, 0, 0, 0, 0, 0, 0]

  ghost predicate InodeRange(x: Inode) {
    && x.typ < SHORT_LIMIT && x.major < SHORT_LIMIT && x.minor < SHORT_LIMIT && x.nlink < SHORT_LIMIT
    && x.size < UINT_LIMIT && |x.addrs| == NDIRECT + 1
    && (forall k :: 0 <= k <= NDIRECT ==> x.addrs[k] < UINT_LIMIT)
  }

  /** Word k of an inode's 16 words. */
  function InodeWord(x: Inode, k: nat): Word
    requires InodeRange(x) && k < 16
  {
    if k == 0 then x.typ + SHORT_LIMIT * x.major
    else if k == 1 then x.minor + SHORT_LIMIT * x.nlink
    else if k == 2 then x.size
    else x.addrs[k - 3]
  }

  /** Word k of slot s of an inode block. */
  function SlotWord(b: Block, s: nat, k: nat): nat
    requires s < IPB && k < 16
  {
    GetWord(b, 16 * s + k)
  }

  /** The inode at slot s of an inode block. */
  function DecodeInode(b: Block, s: nat): Inode
    requires s < IPB
  {
    Inode(SlotWord(b, s, 0) % SHORT_LIMIT, SlotWord(b, s, 0) / SHORT_LIMIT,
          SlotWord(b, s, 1) % SHORT_LIMIT, SlotWord(b, s, 1) / SHORT_LIMIT,
          SlotWord(b, s, 2), seq(13, k requires 0 <= k < 13 => SlotWord(b, s, 3 + k)))
  }

  /** The inode block after the first k words of x have been stored at slot s. */
  function EncodeInode(b: Block, s: nat, x: Inode, k: nat): Block
    requires s < IPB && InodeRange(x) && k <= 16
  {
    if k == 0 then b else PutWord(EncodeInode(b, s, x, k - 1), 16 * s + k - 1, InodeWord(x, k - 1))
  }

  lemma {:induction false} EncodedWord(b: Block, s: nat, x: Inode, k: nat, w: nat)
    requires s < IPB && InodeRange(x) && k <= 16 && w < WORDS
    ensures GetWord(EncodeInode(b, s, x, k), w) ==
            if 16 * s <= w < 16 * s + k then InodeWord(x, w - 16 * s) else GetWord(b, w)
  {
    if k > 0 {
      EncodedWord(b, s, x, k - 1, w);
      var c := EncodeInode(b, s, x, k - 1);
      if w == 16 * s + k - 1 {
        PutGetSame(c, w, InodeWord(x, k - 1));
      } else {
        PutGetOther(c, 16 * s + k - 1, InodeWord(x, k - 1), w);
      }
    }
  }

  /** Slots with equal words decode alike. */
  lemma DecodeSame(b: Block, s: nat, c: Block, t: nat)
    requires s < IPB && t < IPB && forall k :: 0 <= k < 16 ==> SlotWord(c, t, k) == SlotWord(b, s, k)
    ensures DecodeInode(c, t) == DecodeInode(b, s)
  {
    var y, z := DecodeInode(c, t), DecodeInode(b, s);
    forall k | 0 <= k < 13 ensures y.addrs[k] == z.addrs[k] {
      assert SlotWord(c, t, 3 + k) == SlotWord(b, s, 3 + k);
    }
    assert y.addrs == z.addrs;
  }

  /** Two shorts in one word. */
  lemma TwoShorts(lo: nat, hi: nat)
    requires lo < SHORT_LIMIT
    ensures (lo + SHORT_LIMIT * hi) % SHORT_LIMIT == lo && (lo + SHORT_LIMIT * hi) / SHORT_LIMIT == hi
  {
  }


  /** A slot whose words are those of x decodes to x. */
  lemma DecodeOfWords(b: Block, s: nat, x: Inode)
    requires s < IPB && InodeRange(x) && forall k :: 0 <= k < 16 ==> SlotWord(b, s, k) == InodeWord(x, k)
    ensures DecodeInode(b, s) == x
  {
    var y := DecodeInode(b, s);
    TwoShorts(x.typ, x.major);
    TwoShorts(x.minor, x.nlink);
    assert SlotWord(b, s, 0) == InodeWord(x, 0) && SlotWord(b, s, 1) == InodeWord(x, 1);
    forall k | 0 <= k < 13 ensures y.addrs[k] == x.addrs[k] {
      assert SlotWord(b, s, 3 + k) == InodeWord(x, 3 + k);
    }
    assert y.addrs == x.addrs;
  }

  /** Storing an inode in its slot reads back as that inode and leaves the other slots alone. */
  lemma InodeRoundTrip(b: Block, s: nat, x: Inode, t: nat)
    requires s < IPB && t < IPB && InodeRange(x)
    ensures DecodeInode(EncodeInode(b, s, x, 16), t) == if t == s then x else DecodeInode(b, t)
  {
    var c := EncodeInode(b, s, x, 16);
    if t == s {
      forall k | 0 <= k < 16 ensures SlotWord(c, s, k) == InodeWord(x, k) {
        EncodedWord(b, s, x, 16, 16 * s + k);
      }
      DecodeOfWords(c, s, x);
    } else {
      forall k | 0 <= k < 16 ensures SlotWord(c, t, k) == SlotWord(b, t, k) {
        EncodedWord(b, s, x, 16, 16 * t + k);
      }
      DecodeSame(b, t, c, t);
    }
  }

  function DInode(g: Geo, store: Disk, i: nat): Inode
    requires InodeBlock(g, i) < |store|
  {
    DecodeInode(store[InodeBlock(g, i)], i % IPB)
  }

  function PutInode(g: Geo, store: Disk, i: nat, x: Inode): Disk
    requires InodeBlock(g, i) < |store| && InodeRange(x)
  {
    store[InodeBlock(g, i) := EncodeInode(store[InodeBlock(g, i)], i % IPB, x, 16)]
  }

  /** iupdate changes one inode and nothing outside its inode block. */
  lemma InodeStored(g: Geo, store: Disk, i: nat, x: Inode, j: nat)
    requires InodeBlock(g, i) < |store| && InodeBlock(g, j) < |store| && InodeRange(x)
    ensures DInode(g, PutInode(g, store, i, x), j) == if j == i then x else DInode(g, store, j)
  {
    InodeRoundTrip(store[InodeBlock(g, i)], i % IPB, x, j % IPB);
  }
}
