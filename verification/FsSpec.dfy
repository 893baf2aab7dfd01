/** What a consistent file system is: every block in use has one owner, and files have no holes. */
module FsSpec {
  import Common
  import opened Blocks
  import opened FsLayout

  /** Block positions of an inode: 0..11 direct, 12 the indirect block, 13.. its entries. */
  const INDIRECT: nat := 12
  const NPOS: nat := 269

  type Owner = map<nat, (nat, nat)>

  function At(store: Disk, x: Inode, p: nat): nat
    requires |x.addrs| == 13 && x.addrs[INDIRECT] < |store| && p < NPOS
  {
    if p <= INDIRECT then x.addrs[p]
    else if x.addrs[INDIRECT] == 0 then 0
    else GetWord(store[x.addrs[INDIRECT]], p - 13)
  }

  /** The position of file block bn. */
  function Pos(bn: nat): nat {
    if bn < NDIRECT then bn else bn + 1
  }

  ghost predicate Shape(g: Geo, store: Disk, tab: seq<Inode>) {
    && GeoOk(g) && |store| == g.size && |tab| == g.ninodes
    && (forall i :: 0 <= i < |tab| ==> InodeRange(tab[i]) && tab[i].addrs[INDIRECT] < g.size)
  }

  /** The first k indirect entries of inode t: itrunc frees their blocks before it drops the entries. */
  predicate Exempt(t: nat, k: nat, i: nat, p: nat) {
    i == t && 13 <= p < 13 + k
  }

  /** Block b is where its owner says, and inside the data area. */
  ghost predicate OwnedOk(g: Geo, store: Disk, tab: seq<Inode>, owner: Owner, t: nat, k: nat, b: nat)
    requires Shape(g, store, tab)
  {
    b in owner ==>
      && g.nmeta <= b < g.size && owner[b].0 < |tab| && owner[b].1 < NPOS
      && !Exempt(t, k, owner[b].0, owner[b].1)
      && At(store, tab[owner[b].0], owner[b].1) == b
  }

  /** Whatever stands at position p of inode i is owned by that position. */
  ghost predicate PosOk(g: Geo, store: Disk, tab: seq<Inode>, owner: Owner, t: nat, k: nat, i: nat, p: nat)
    requires Shape(g, store, tab) && i < |tab| && p < NPOS
  {
    var b := At(store, tab[i], p);
    b != 0 && !Exempt(t, k, i, p) ==> b in owner && owner[b] == (i, p)
  }

  /** Every address belongs to exactly one position of one inode. */
  ghost predicate OwnerInv(g: Geo, store: Disk, tab: seq<Inode>, owner: Owner, t: nat, k: nat) {
    && Shape(g, store, tab)
    && (forall b: nat {:trigger OwnedOk(g, store, tab, owner, t, k, b)} :: OwnedOk(g, store, tab, owner, t, k, b))
    && (forall i, p {:trigger PosOk(g, store, tab, owner, t, k, i, p)} ::
          0 <= i < |tab| && 0 <= p < NPOS ==> PosOk(g, store, tab, owner, t, k, i, p))
  }

  /** The bitmap marks exactly the metadata and the owned blocks. */
  ghost predicate BitInv(g: Geo, store: Disk, owner: Owner) {
    && GeoOk(g) && |store| == g.size
    && forall b {:trigger Bit(g, store, b)} :: 0 <= b < g.size ==> (Bit(g, store, b) <==> b < g.nmeta || b in owner)
  }

  /** A file has a block for every byte below its size; a free inode holds nothing. */
  ghost predicate FileOk(store: Disk, x: Inode)
    requires |x.addrs| == 13 && x.addrs[INDIRECT] < |store|
  {
    && x.size <= MAXFILE * BSIZE
    && (forall bn {:trigger Pos(bn)} :: 0 <= bn < MAXFILE && bn * BSIZE < x.size ==> At(store, x, Pos(bn)) != 0)
    && (x.typ == 0 ==> x.size == 0 && x.addrs == NO_ADDRS)
  }

  ghost predicate FilesOk(g: Geo, store: Disk, tab: seq<Inode>) {
    Shape(g, store, tab) && forall i :: 0 <= i < |tab| ==> FileOk(store, tab[i])
  }

  /** The inode table agrees with the disk, except possibly for inode t. */
  ghost predicate Synced(g: Geo, store: Disk, tab: seq<Inode>, t: int) {
    Shape(g, store, tab) && forall i {:trigger DInode(g, store, i)} :: 0 <= i < |tab| && i != t ==> tab[i] == DInode(g, store, i)
  }

  // ---------------------------------------------------------------- consequences

  /** No block is used twice. */
  lemma NoSharing(g: Geo, store: Disk, tab: seq<Inode>, owner: Owner, i: nat, p: nat, j: nat, q: nat)
    requires OwnerInv(g, store, tab, owner, 0, 0) && i < |tab| && j < |tab| && p < NPOS && q < NPOS
    requires At(store, tab[i], p) == At(store, tab[j], q) != 0
    ensures i == j && p == q
  {
    assert PosOk(g, store, tab, owner, 0, 0, i, p) && PosOk(g, store, tab, owner, 0, 0, j, q);
  }

  /** No block leaks and none is lost: a data block is marked exactly when some inode uses it. */
  lemma MarkedIffUsed(g: Geo, store: Disk, tab: seq<Inode>, owner: Owner, b: nat)
    requires OwnerInv(g, store, tab, owner, 0, 0) && BitInv(g, store, owner) && g.nmeta <= b < g.size
    ensures Bit(g, store, b) <==>
            exists i, p :: 0 <= i < |tab| && 0 <= p < NPOS && At(store, tab[i], p) == b
  {
    assert OwnedOk(g, store, tab, owner, 0, 0, b);
    if b in owner {
      assert At(store, tab[owner[b].0], owner[b].1) == b;
    }
    forall i, p | 0 <= i < |tab| && 0 <= p < NPOS && At(store, tab[i], p) == b ensures b in owner {
      assert PosOk(g, store, tab, owner, 0, 0, i, p);
    }
  }

  /** Addresses stay in the data area. */
  lemma InDataArea(g: Geo, store: Disk, tab: seq<Inode>, owner: Owner, t: nat, k: nat, i: nat, p: nat)
    requires OwnerInv(g, store, tab, owner, t, k) && i < |tab| && p < NPOS && At(store, tab[i], p) != 0
    requires !Exempt(t, k, i, p)
    ensures var b := At(store, tab[i], p); g.nmeta <= b < g.size && b in owner && owner[b] == (i, p)
  {
    assert PosOk(g, store, tab, owner, t, k, i, p);
    assert OwnedOk(g, store, tab, owner, t, k, At(store, tab[i], p));
  }

  // ---------------------------------------------------------------- what each change keeps

  /** Changes outside the indirect blocks keep every address. */
  lemma StoreFrame(g: Geo, store: Disk, store': Disk, tab: seq<Inode>, owner: Owner, t: nat, k: nat)
    requires OwnerInv(g, store, tab, owner, t, k) && |store'| == |store|
    requires forall i :: 0 <= i < |tab| && tab[i].addrs[INDIRECT] != 0 ==>
               store'[tab[i].addrs[INDIRECT]] == store[tab[i].addrs[INDIRECT]]
    ensures OwnerInv(g, store', tab, owner, t, k)
    ensures forall i, p :: 0 <= i < |tab| && 0 <= p < NPOS ==> At(store', tab[i], p) == At(store, tab[i], p)
  {
    forall b: nat ensures OwnedOk(g, store', tab, owner, t, k, b) {
      assert OwnedOk(g, store, tab, owner, t, k, b);
    }
    forall i, p | 0 <= i < |tab| && 0 <= p < NPOS ensures PosOk(g, store', tab, owner, t, k, i, p) {
      assert PosOk(g, store, tab, owner, t, k, i, p);
    }
  }

  /** Changing blocks that no inode uses as its indirect block. */
  lemma OwnedFrame(g: Geo, store: Disk, store': Disk, tab: seq<Inode>, owner: Owner, t: nat, k: nat)
    requires OwnerInv(g, store, tab, owner, t, k) && |store'| == |store|
    requires forall b :: b in owner && owner[b].1 == INDIRECT && b < g.size ==> store'[b] == store[b]
    ensures OwnerInv(g, store', tab, owner, t, k)
    ensures forall i, p :: 0 <= i < |tab| && 0 <= p < NPOS ==> At(store', tab[i], p) == At(store, tab[i], p)
  {
    forall i | 0 <= i < |tab| && tab[i].addrs[INDIRECT] != 0
      ensures store'[tab[i].addrs[INDIRECT]] == store[tab[i].addrs[INDIRECT]]
    {
      InDataArea(g, store, tab, owner, t, k, i, INDIRECT);
    }
    StoreFrame(g, store, store', tab, owner, t, k);
  }

  function SetAddr(tab: seq<Inode>, i: nat, p: nat, b: nat): seq<Inode>
    requires i < |tab| && p < |tab[i].addrs|
  {
    tab[i := tab[i].(addrs := tab[i].addrs[p := b])]
  }

  /** An unowned block becomes direct block p, or the (zeroed) indirect block, of inode i. */
  lemma TakeDirect(g: Geo, store: Disk, store': Disk, tab: seq<Inode>, owner: Owner, i: nat, p: nat, b: nat)
    requires OwnerInv(g, store, tab, owner, 0, 0) && i < |tab| && p <= INDIRECT
    requires At(store, tab[i], p) == 0 && g.nmeta <= b < g.size && b !in owner
    requires |store'| == |store| && (forall c :: c in owner && c < g.size ==> store'[c] == store[c])
    requires p == INDIRECT ==> store'[b] == ZeroBlock()
    ensures OwnerInv(g, store', SetAddr(tab, i, p, b), owner[b := (i, p)], 0, 0)
    ensures forall j, q :: 0 <= j < |tab| && 0 <= q < NPOS ==>
              At(store', SetAddr(tab, i, p, b)[j], q) == if j == i && q == p then b else At(store, tab[j], q)
  {
    var tab', owner' := SetAddr(tab, i, p, b), owner[b := (i, p)];
    OwnedFrame(g, store, store', tab, owner, 0, 0);
    forall j, q | 0 <= j < |tab| && 0 <= q < NPOS
      ensures At(store', tab'[j], q) == if j == i && q == p then b else At(store, tab[j], q)
    {
      if p == INDIRECT && q > INDIRECT { ZeroWords(q - 13); }
    }
    forall c: nat ensures OwnedOk(g, store', tab', owner', 0, 0, c) {
      assert OwnedOk(g, store, tab, owner, 0, 0, c);
    }
    forall j, q | 0 <= j < |tab| && 0 <= q < NPOS ensures PosOk(g, store', tab', owner', 0, 0, j, q) {
      assert PosOk(g, store, tab, owner, 0, 0, j, q);
    }
  }

  /** An unowned block becomes entry e of inode i's indirect block. */
  lemma TakeEntry(g: Geo, store: Disk, store': Disk, tab: seq<Inode>, owner: Owner, i: nat, e: nat, b: nat)
    requires OwnerInv(g, store, tab, owner, 0, 0) && i < |tab| && e < NINDIRECT
    requires tab[i].addrs[INDIRECT] != 0 && At(store, tab[i], 13 + e) == 0
    requires g.nmeta <= b < g.size && b !in owner
    requires |store'| == |store|
    requires forall c :: c in owner && c < g.size && c != tab[i].addrs[INDIRECT] ==> store'[c] == store[c]
    requires store'[tab[i].addrs[INDIRECT]] == PutWord(store[tab[i].addrs[INDIRECT]], e, b)
    ensures OwnerInv(g, store', tab, owner[b := (i, 13 + e)], 0, 0)
    ensures forall j, q :: 0 <= j < |tab| && 0 <= q < NPOS ==>
              At(store', tab[j], q) == if j == i && q == 13 + e then b else At(store, tab[j], q)
  {
    var owner' := owner[b := (i, 13 + e)];
    var ind := tab[i].addrs[INDIRECT];
    forall j, q | 0 <= j < |tab| && 0 <= q < NPOS
      ensures At(store', tab[j], q) == if j == i && q == 13 + e then b else At(store, tab[j], q)
    {
      if q > INDIRECT && tab[j].addrs[INDIRECT] != 0 {
        InDataArea(g, store, tab, owner, 0, 0, j, INDIRECT);
        if j == i {
          PutGetSame(store[ind], e, b);
          if q != 13 + e { PutGetOther(store[ind], e, b, q - 13); }
        } else {
          if tab[j].addrs[INDIRECT] == ind { NoSharing(g, store, tab, owner, i, INDIRECT, j, INDIRECT); }
        }
      }
    }
    forall c: nat ensures OwnedOk(g, store', tab, owner', 0, 0, c) {
      assert OwnedOk(g, store, tab, owner, 0, 0, c);
    }
    forall j, q | 0 <= j < |tab| && 0 <= q < NPOS ensures PosOk(g, store', tab, owner', 0, 0, j, q) {
      assert PosOk(g, store, tab, owner, 0, 0, j, q);
    }
  }

  /** Direct block p of inode i is given up. */
  lemma DropDirect(g: Geo, store: Disk, tab: seq<Inode>, owner: Owner, i: nat, p: nat)
    requires OwnerInv(g, store, tab, owner, 0, 0) && i < |tab| && p < INDIRECT
    ensures OwnerInv(g, store, SetAddr(tab, i, p, 0), owner - {tab[i].addrs[p]}, 0, 0)
  {
    var b := tab[i].addrs[p];
    var tab', owner' := SetAddr(tab, i, p, 0), owner - {b};
    assert forall j, q :: 0 <= j < |tab| && 0 <= q < NPOS ==>
             At(store, tab'[j], q) == if j == i && q == p then 0 else At(store, tab[j], q);
    assert PosOk(g, store, tab, owner, 0, 0, i, p) && OwnedOk(g, store, tab, owner, 0, 0, 0);
    forall c: nat ensures OwnedOk(g, store, tab', owner', 0, 0, c) {
      assert OwnedOk(g, store, tab, owner, 0, 0, c);
    }
    forall j, q | 0 <= j < |tab| && 0 <= q < NPOS ensures PosOk(g, store, tab', owner', 0, 0, j, q) {
      assert PosOk(g, store, tab, owner, 0, 0, j, q);
      if !(j == i && q == p) && At(store, tab[j], q) == b != 0 {
        NoSharing(g, store, tab, owner, i, p, j, q);
      }
    }
  }

  /** The block of indirect entry k of inode t is freed; the entry itself stays for now. */
  lemma DropEntry(g: Geo, store: Disk, tab: seq<Inode>, owner: Owner, t: nat, k: nat)
    requires OwnerInv(g, store, tab, owner, t, k) && t < |tab| && k < NINDIRECT
    ensures OwnerInv(g, store, tab, owner - {At(store, tab[t], 13 + k)}, t, k + 1)
  {
    var b := At(store, tab[t], 13 + k);
    var owner', k' := owner - {b}, k + 1;
    assert PosOk(g, store, tab, owner, t, k, t, 13 + k) && OwnedOk(g, store, tab, owner, t, k, 0);
    forall c: nat ensures OwnedOk(g, store, tab, owner', t, k', c) {
      assert OwnedOk(g, store, tab, owner, t, k, c);
    }
    forall j, q | 0 <= j < |tab| && 0 <= q < NPOS ensures PosOk(g, store, tab, owner', t, k', j, q) {
      assert PosOk(g, store, tab, owner, t, k, j, q);
    }
  }

  /** Once all entries are free, the indirect block goes too, and the inode holds no indirect blocks. */
  lemma DropIndirect(g: Geo, store: Disk, tab: seq<Inode>, owner: Owner, t: nat)
    requires OwnerInv(g, store, tab, owner, t, NINDIRECT) && t < |tab|
    ensures OwnerInv(g, store, SetAddr(tab, t, INDIRECT, 0), owner - {tab[t].addrs[INDIRECT]}, 0, 0)
  {
    var b := tab[t].addrs[INDIRECT];
    var tab', owner' := SetAddr(tab, t, INDIRECT, 0), owner - {b};
    assert PosOk(g, store, tab, owner, t, NINDIRECT, t, INDIRECT) && OwnedOk(g, store, tab, owner, t, NINDIRECT, 0);
    assert OwnedOk(g, store, tab, owner, t, NINDIRECT, b);
    forall c: nat ensures OwnedOk(g, store, tab', owner', 0, 0, c) {
      assert OwnedOk(g, store, tab, owner, t, NINDIRECT, c);
    }
    forall j, q | 0 <= j < |tab| && 0 <= q < NPOS ensures PosOk(g, store, tab', owner', 0, 0, j, q) {
      assert PosOk(g, store, tab, owner, t, NINDIRECT, j, q);
    }
  }

  // ---------------------------------------------------------------- the bitmap

  /** Marking or freeing a data block in the bitmap. */
  lemma BitTaken(g: Geo, store: Disk, owner: Owner, owner': Owner, b: nat, v: bool)
    requires BitInv(g, store, owner) && g.nmeta <= b < g.size
    requires forall c :: c != b ==> (c in owner' <==> c in owner)
    requires b in owner' <==> v
    ensures BitInv(g, SetBit(g, store, b, v), owner')
  {
    forall c | 0 <= c < g.size
      ensures Bit(g, SetBit(g, store, b, v), c) <==> c < g.nmeta || c in owner'
    {
      BitStored(g, store, b, v, c);
      assert Bit(g, store, c) <==> c < g.nmeta || c in owner;
    }
  }

  /** Blocks outside the bitmap do not matter to it. */
  lemma BitFrame(g: Geo, store: Disk, store': Disk, owner: Owner)
    requires BitInv(g, store, owner) && |store'| == |store|
    requires forall c :: g.bmapstart <= c < g.nmeta ==> store'[c] == store[c]
    ensures BitInv(g, store', owner)
  {
    forall c | 0 <= c < g.size ensures Bit(g, store', c) <==> c < g.nmeta || c in owner {
      assert Bit(g, store, c) <==> c < g.nmeta || c in owner;
      assert g.bmapstart <= BitmapBlock(g, c) < g.nmeta;
    }
  }

  /** Storing an inode touches neither addresses nor the bitmap. */
  lemma InodePutKeeps(g: Geo, store: Disk, tab: seq<Inode>, owner: Owner, i: nat)
    requires OwnerInv(g, store, tab, owner, 0, 0) && BitInv(g, store, owner) && i < |tab|
    requires FilesOk(g, store, tab) && Synced(g, store, tab, i)
    ensures var store' := PutInode(g, store, i, tab[i]);
            && OwnerInv(g, store', tab, owner, 0, 0) && BitInv(g, store', owner)
            && FilesOk(g, store', tab) && Synced(g, store', tab, -1)
            && (forall b :: g.nmeta <= b < g.size ==> store'[b] == store[b])
  {
    var store' := PutInode(g, store, i, tab[i]);
    assert InodeBlock(g, i) < g.bmapstart;
    forall b | b in owner && owner[b].1 == INDIRECT && b < g.size ensures store'[b] == store[b] {
      assert OwnedOk(g, store, tab, owner, 0, 0, b);
    }
    OwnedFrame(g, store, store', tab, owner, 0, 0);
    BitFrame(g, store, store', owner);
    forall j | 0 <= j < |tab| ensures tab[j] == DInode(g, store', j) && FileOk(store', tab[j]) {
      InodeStored(g, store, i, tab[i], j);
      assert FileOk(store, tab[j]);
    }
  }

  // ---------------------------------------------------------------- contents

  /** Byte k of a file. */
  ghost function ByteAt(store: Disk, x: Inode, k: nat): Byte
    requires |x.addrs| == 13 && x.addrs[INDIRECT] < |store| && k < MAXFILE * BSIZE
  {
    var a := At(store, x, Pos(k / BSIZE));
    if a < |store| then store[a][k % BSIZE] else 0
  }

  /** A file as a sequence of bytes. */
  ghost function Content(store: Disk, x: Inode): (c: seq<Byte>)
    requires |x.addrs| == 13 && x.addrs[INDIRECT] < |store| && x.size <= MAXFILE * BSIZE
    ensures |c| == x.size && forall k :: 0 <= k < |c| ==> c[k] == ByteAt(store, x, k)
  {
    seq(x.size, k requires 0 <= k < x.size => ByteAt(store, x, k))
  }

  /** c with src written over it at off, growing it if need be. */
  ghost function Splice(c: seq<Byte>, off: nat, src: seq<Byte>): seq<Byte>
    requires off <= |c|
  {
    if off + |src| <= |c| then c[..off] + src + c[off + |src|..] else c[..off] + src
  }

  /** memmove of bytes into a block. */
  function Overwrite(b: Block, at: nat, bytes: seq<Byte>): (r: Block)
    requires at + |bytes| <= BSIZE
    ensures forall k :: 0 <= k < BSIZE ==> r[k] == if at <= k < at + |bytes| then bytes[k - at] else b[k]
  {
    Common.Patch(b, at, bytes)
  }

  /** An inode whose blocks keep their places and values keeps its contents. */
  lemma ContentFrame(g: Geo, store: Disk, store': Disk, tab: seq<Inode>, owner: Owner, j: nat)
    requires OwnerInv(g, store, tab, owner, 0, 0) && j < |tab| && |store'| == |store| && FileOk(store, tab[j])
    requires forall b :: b in owner && b < g.size && owner[b].0 == j ==> store'[b] == store[b]
    ensures FileOk(store', tab[j]) && Content(store', tab[j]) == Content(store, tab[j])
  {
    forall q | 0 <= q < NPOS
      ensures At(store', tab[j], q) == At(store, tab[j], q)
      ensures At(store, tab[j], q) != 0 ==> At(store, tab[j], q) < g.size
                                            && store'[At(store, tab[j], q)] == store[At(store, tab[j], q)]
    {
      if tab[j].addrs[INDIRECT] != 0 { InDataArea(g, store, tab, owner, 0, 0, j, INDIRECT); }
      if At(store, tab[j], q) != 0 { InDataArea(g, store, tab, owner, 0, 0, j, q); }
    }
    forall k | 0 <= k < tab[j].size ensures ByteAt(store', tab[j], k) == ByteAt(store, tab[j], k) {
      var bn := k / BSIZE;
      assert Pos(bn) < NPOS && At(store, tab[j], Pos(bn)) != 0;
    }
  }

  /** Overwriting part of data block bn of inode i: addresses and bitmap stay, only bytes of that block move. */
  lemma DataWritten(g: Geo, store: Disk, tab: seq<Inode>, owner: Owner, i: nat, bn: nat, data: Block)
    requires OwnerInv(g, store, tab, owner, 0, 0) && BitInv(g, store, owner) && i < |tab| && bn < MAXFILE
    requires At(store, tab[i], Pos(bn)) != 0
    ensures var a := At(store, tab[i], Pos(bn));
            && g.nmeta <= a < g.size && a in owner && owner[a] == (i, Pos(bn))
            && OwnerInv(g, store[a := data], tab, owner, 0, 0) && BitInv(g, store[a := data], owner)
            && (forall j, q :: 0 <= j < |tab| && 0 <= q < NPOS ==> At(store[a := data], tab[j], q) == At(store, tab[j], q))
            && (forall k :: 0 <= k < MAXFILE * BSIZE ==>
                  ByteAt(store[a := data], tab[i], k) == if k / BSIZE == bn then data[k % BSIZE] else ByteAt(store, tab[i], k))
  {
    var a := At(store, tab[i], Pos(bn));
    InDataArea(g, store, tab, owner, 0, 0, i, Pos(bn));
    var store' := store[a := data];
    OwnedFrame(g, store, store', tab, owner, 0, 0);
    BitFrame(g, store, store', owner);
    forall k | 0 <= k < MAXFILE * BSIZE
      ensures ByteAt(store', tab[i], k) == if k / BSIZE == bn then data[k % BSIZE] else ByteAt(store, tab[i], k)
    {
      var m := k / BSIZE;
      if m != bn && At(store, tab[i], Pos(m)) == a {
        NoSharing(g, store, tab, owner, i, Pos(bn), i, Pos(m));
      }
    }
  }
}
