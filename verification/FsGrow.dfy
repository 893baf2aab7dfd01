/** How allocation grows an inode, and why it keeps the file system consistent. */
module FsGrow {
  import opened Blocks
  import opened FsLayout
  import opened FsSpec

  /** What holds between the steps of an operation on inode t: all but t's table entry is on disk. */
  ghost predicate Consistent(g: Geo, store: Disk, tab: seq<Inode>, owner: Owner, t: int) {
    && OwnerInv(g, store, tab, owner, 0, 0) && BitInv(g, store, owner)
    && FilesOk(g, store, tab) && Synced(g, store, tab, t)
  }

  /** The bitmap blocks that cover a set of blocks. */
  ghost function BitmapBlocks(g: Geo, s: set<nat>): set<nat> {
    set b | b in s :: BitmapBlock(g, b)
  }

  /** Block c is unchanged or logged, and only the file system's own blocks are logged. */
  ghost predicate LogsBlock(g: Geo, s: Disk, logged: set<nat>, s': Disk, logged': set<nat>, c: nat) {
    && (c < |s| == |s'| && s'[c] != s[c] ==> c in logged')
    && (c in logged' && c !in logged ==> g.inodestart <= c < g.size)
  }

  /** The rule of the logging layer: from s to s' no block changed that was not passed to log_write. */
  ghost predicate Logs(g: Geo, s: Disk, logged: set<nat>, s': Disk, logged': set<nat>) {
    && |s'| == |s| && logged <= logged'
    && forall c: nat {:trigger LogsBlock(g, s, logged, s', logged', c)} :: LogsBlock(g, s, logged, s', logged', c)
  }

  lemma LogsNothing(g: Geo, s: Disk, logged: set<nat>)
    ensures Logs(g, s, logged, s, logged)
  {
    forall c: nat ensures LogsBlock(g, s, logged, s, logged, c) {}
  }

  lemma LogsThen(g: Geo, a: Disk, la: set<nat>, b: Disk, lb: set<nat>, c: Disk, lc: set<nat>)
    requires Logs(g, a, la, b, lb) && Logs(g, b, lb, c, lc)
    ensures Logs(g, a, la, c, lc)
  {
    forall k: nat ensures LogsBlock(g, a, la, c, lc, k) {
      assert LogsBlock(g, a, la, b, lb, k) && LogsBlock(g, b, lb, c, lc, k);
    }
  }

  /** One block written and logged. */
  lemma LogsOne(g: Geo, s: Disk, logged: set<nat>, k: nat, data: Block)
    requires g.inodestart <= k < g.size == |s|
    ensures Logs(g, s, logged, s[k := data], logged + {k})
  {
    var s', logged' := s[k := data], logged + {k};
    forall c: nat ensures LogsBlock(g, s, logged, s', logged', c) {}
  }

  /** Block c is not new, or every data block below it is in use. */
  ghost predicate LowestAt(g: Geo, a: Owner, b: Owner, c: nat) {
    c in b && c !in a ==> forall d :: g.nmeta <= d < c ==> d in b
  }

  /** From a to b, each block taken was the lowest free one at that moment. */
  ghost predicate Lowest(g: Geo, a: Owner, b: Owner) {
    a.Keys <= b.Keys && forall c: nat {:trigger LowestAt(g, a, b, c)} :: LowestAt(g, a, b, c)
  }

  lemma LowestNone(g: Geo, a: Owner)
    ensures Lowest(g, a, a)
  {
    forall c: nat ensures LowestAt(g, a, a, c) {}
  }

  lemma LowestThen(g: Geo, a: Owner, b: Owner, c: Owner)
    requires Lowest(g, a, b) && Lowest(g, b, c)
    ensures Lowest(g, a, c)
  {
    forall k: nat ensures LowestAt(g, a, c, k) {
      assert LowestAt(g, a, b, k) && LowestAt(g, b, c, k);
    }
  }

  lemma LowestOne(g: Geo, store: Disk, owner: Owner, r: nat, at: (nat, nat))
    requires BitInv(g, store, owner) && r < g.size && forall c :: 0 <= c < r ==> Bit(g, store, c)
    ensures Lowest(g, owner, owner[r := at])
  {
    var owner' := owner[r := at];
    forall c: nat ensures LowestAt(g, owner, owner', c) {
      forall d | g.nmeta <= d < c && c == r ensures d in owner' {
        assert Bit(g, store, d);
      }
    }
  }

  /** Every block is in use. */
  ghost predicate Full(g: Geo, store: Disk) {
    GeoOk(g) && |store| == g.size && forall c {:trigger Bit(g, store, c)} :: 0 <= c < g.size ==> Bit(g, store, c)
  }

  lemma FullFrame(g: Geo, store: Disk, store': Disk)
    requires Full(g, store) && |store'| == |store|
    requires forall b :: g.bmapstart <= b < g.size ==> store'[b] == store[b]
    ensures Full(g, store')
  {
    forall c | 0 <= c < g.size ensures Bit(g, store', c) {
      assert Bit(g, store, c);
    }
  }

  /** What balloc leaves for its caller: block b is marked, zeroed and unowned. */
  function Alloced(g: Geo, store: Disk, b: nat): Disk
    requires BitmapBlock(g, b) < |store| && b < |store|
  {
    SetBit(g, store, b, true)[b := ZeroBlock()]
  }

  lemma LogsBit(g: Geo, s: Disk, logged: set<nat>, b: nat, v: bool)
    requires GeoOk(g) && |s| == g.size && b < g.size
    ensures BitmapBlock(g, b) < g.nmeta && Logs(g, s, logged, SetBit(g, s, b, v), logged + {BitmapBlock(g, b)})
  {
    LogsOne(g, s, logged, BitmapBlock(g, b), SetBit(g, s, b, v)[BitmapBlock(g, b)]);
    assert SetBit(g, s, b, v) == s[BitmapBlock(g, b) := SetBit(g, s, b, v)[BitmapBlock(g, b)]];
  }

  lemma LogsAlloced(g: Geo, s: Disk, logged: set<nat>, b: nat)
    requires GeoOk(g) && |s| == g.size && g.nmeta <= b < g.size
    ensures BitmapBlock(g, b) < g.nmeta && Logs(g, s, logged, Alloced(g, s, b), logged + {BitmapBlock(g, b), b})
  {
    LogsBit(g, s, logged, b, true);
    LogsOne(g, SetBit(g, s, b, true), logged + {BitmapBlock(g, b)}, b, ZeroBlock());
    LogsThen(g, s, logged, SetBit(g, s, b, true), logged + {BitmapBlock(g, b)}, Alloced(g, s, b), logged + {BitmapBlock(g, b)} + {b});
    assert logged + {BitmapBlock(g, b)} + {b} == logged + {BitmapBlock(g, b), b};
  }

  lemma LogsInode(g: Geo, s: Disk, logged: set<nat>, i: nat, x: Inode)
    requires GeoOk(g) && |s| == g.size && i < g.ninodes && InodeRange(x)
    ensures InodeBlock(g, i) < g.bmapstart && Logs(g, s, logged, PutInode(g, s, i, x), logged + {InodeBlock(g, i)})
  {
    LogsOne(g, s, logged, InodeBlock(g, i), EncodeInode(s[InodeBlock(g, i)], i % IPB, x, 16));
  }

  lemma AllocedBlocks(g: Geo, store: Disk, tab: seq<Inode>, owner: Owner, t: nat, k: nat, b: nat)
    requires OwnerInv(g, store, tab, owner, t, k) && g.nmeta <= b < g.size && b !in owner
    ensures BitmapBlock(g, b) < g.nmeta
    ensures forall c :: c in owner && c < g.size ==> Alloced(g, store, b)[c] == store[c]
  {
    forall c | c in owner && c < g.size ensures Alloced(g, store, b)[c] == store[c] {
      assert OwnedOk(g, store, tab, owner, t, k, c);
    }
  }

  /** Allocation keeps the bitmap exact once the block gets an owner. */
  lemma AllocedBits(g: Geo, store: Disk, owner: Owner, b: nat, at: (nat, nat))
    requires BitInv(g, store, owner) && g.nmeta <= b < g.size && b !in owner
    ensures BitInv(g, Alloced(g, store, b), owner[b := at])
  {
    var owner' := owner[b := at];
    BitTaken(g, store, owner, owner', b, true);
    BitFrame(g, SetBit(g, store, b, true), Alloced(g, store, b), owner');
  }

  /** Inodes on disk do not move when only bitmap and data blocks change. */
  lemma SyncFrame(g: Geo, store: Disk, store': Disk, tab: seq<Inode>, tab': seq<Inode>, t: nat)
    requires Synced(g, store, tab, t) && Shape(g, store', tab') && t < |tab|
    requires forall i :: 0 <= i < |tab| && i != t ==> tab'[i] == tab[i]
    requires forall b :: 0 <= b < g.bmapstart ==> store'[b] == store[b]
    ensures Synced(g, store', tab', t)
  {
    forall i | 0 <= i < |tab'| && i != t ensures tab'[i] == DInode(g, store', i) {
      assert InodeBlock(g, i) < g.bmapstart;
      assert tab[i] == DInode(g, store, i);
    }
  }

  /** Files stay hole-free when addresses only appear. */
  lemma FilesGrow(g: Geo, store: Disk, store': Disk, tab: seq<Inode>, tab': seq<Inode>)
    requires FilesOk(g, store, tab) && Shape(g, store', tab')
    requires forall i :: 0 <= i < |tab| ==> tab'[i].size == tab[i].size && tab'[i].typ == tab[i].typ
                                            && (tab[i].typ == 0 ==> tab'[i] == tab[i])
    requires forall i, p :: 0 <= i < |tab| && 0 <= p < NPOS && At(store, tab[i], p) != 0 ==>
               At(store', tab'[i], p) == At(store, tab[i], p)
    ensures FilesOk(g, store', tab')
  {
    forall i | 0 <= i < |tab'| ensures FileOk(store', tab'[i]) {
      assert FileOk(store, tab[i]);
      forall bn | 0 <= bn < MAXFILE && bn * BSIZE < tab'[i].size ensures At(store', tab'[i], Pos(bn)) != 0 {
        assert At(store, tab[i], Pos(bn)) != 0;
      }
    }
  }

  /** A free block becomes a direct block, or the indirect block, of inode i. */
  lemma GrowDirect(g: Geo, store: Disk, tab: seq<Inode>, owner: Owner, i: nat, p: nat, b: nat)
    requires Consistent(g, store, tab, owner, i) && i < |tab| && tab[i].typ != 0 && p <= INDIRECT
    requires tab[i].addrs[p] == 0 && g.nmeta <= b < g.size && b !in owner
    ensures Consistent(g, Alloced(g, store, b), SetAddr(tab, i, p, b), owner[b := (i, p)], i)
    ensures forall j, q :: 0 <= j < |tab| && 0 <= q < NPOS ==>
              At(Alloced(g, store, b), SetAddr(tab, i, p, b)[j], q) == if j == i && q == p then b else At(store, tab[j], q)
  {
    var store', tab' := Alloced(g, store, b), SetAddr(tab, i, p, b);
    AllocedBlocks(g, store, tab, owner, 0, 0, b);
    TakeDirect(g, store, store', tab, owner, i, p, b);
    AllocedBits(g, store, owner, b, (i, p));
    SyncFrame(g, store, store', tab, tab', i);
    FilesGrow(g, store, store', tab, tab');
  }

  /** A free block becomes an entry of inode i's indirect block. */
  lemma GrowEntry(g: Geo, store: Disk, tab: seq<Inode>, owner: Owner, i: nat, e: nat, b: nat)
    requires Consistent(g, store, tab, owner, i) && i < |tab| && tab[i].typ != 0 && e < NINDIRECT
    requires tab[i].addrs[INDIRECT] != 0 && At(store, tab[i], 13 + e) == 0 && g.nmeta <= b < g.size && b !in owner
    ensures var ind := tab[i].addrs[INDIRECT]; var mid := Alloced(g, store, b);
            var store' := mid[ind := PutWord(mid[ind], e, b)];
            && g.nmeta <= ind < g.size && mid[ind] == store[ind]
            && Consistent(g, store', tab, owner[b := (i, 13 + e)], i)
            && forall j, q :: 0 <= j < |tab| && 0 <= q < NPOS ==>
                 At(store', tab[j], q) == if j == i && q == 13 + e then b else At(store, tab[j], q)
  {
    var ind, mid := tab[i].addrs[INDIRECT], Alloced(g, store, b);
    InDataArea(g, store, tab, owner, 0, 0, i, INDIRECT);
    AllocedBlocks(g, store, tab, owner, 0, 0, b);
    var store' := mid[ind := PutWord(mid[ind], e, b)];
    TakeEntry(g, store, store', tab, owner, i, e, b);
    AllocedBits(g, store, owner, b, (i, 13 + e));
    BitFrame(g, mid, store', owner[b := (i, 13 + e)]);
    SyncFrame(g, store, store', tab, tab, i);
    FilesGrow(g, store, store', tab, tab);
  }

  /** The state an operation works on. */
  datatype View = View(store: Disk, tab: seq<Inode>, owner: Owner, logged: set<nat>)

  /** What bmap of file block bn of inode i may change: addresses and blocks only appear, at bn and at the
      indirect position; other owned blocks keep their bytes; a new data block is zero. */
  ghost predicate Grown(g: Geo, v: View, w: View, i: nat, bn: nat)
    requires Shape(g, v.store, v.tab) && Shape(g, w.store, w.tab) && i < |v.tab| && bn < MAXFILE
  {
    && |w.tab| == |v.tab| && w.tab == v.tab[i := v.tab[i].(addrs := w.tab[i].addrs)]
    && (forall b :: b in v.owner ==> b in w.owner && w.owner[b] == v.owner[b])
    && (forall j, q :: 0 <= j < |v.tab| && 0 <= q < NPOS && !(j == i && (q == Pos(bn) || q == INDIRECT)) ==>
          At(w.store, w.tab[j], q) == At(v.store, v.tab[j], q))
    && (v.tab[i].addrs[INDIRECT] != 0 || bn < NDIRECT ==> w.tab[i].addrs[INDIRECT] == v.tab[i].addrs[INDIRECT])
    && (forall b :: b in v.owner && b < g.size && v.owner[b] != (i, INDIRECT) ==> w.store[b] == v.store[b])
    && (At(v.store, v.tab[i], Pos(bn)) != 0 ==> w == v)
    && (At(v.store, v.tab[i], Pos(bn)) == 0 != At(w.store, w.tab[i], Pos(bn)) ==>
          At(w.store, w.tab[i], Pos(bn)) < g.size && w.store[At(w.store, w.tab[i], Pos(bn))] == ZeroBlock())
  }

  /** bmap logs exactly the blocks it allocates, their bitmap blocks, and an indirect block it changes. */
  ghost predicate LoggedOk(g: Geo, v: View, w: View, i: nat, bn: nat, b: nat)
    requires Shape(g, v.store, v.tab) && Shape(g, w.store, w.tab) && i < |v.tab| == |w.tab| && bn < MAXFILE
  {
    b in w.logged <==>
      || b in v.logged
      || (b in w.owner && b !in v.owner)
      || b in BitmapBlocks(g, w.owner.Keys - v.owner.Keys)
      || (&& b == w.tab[i].addrs[INDIRECT] && bn >= NDIRECT && w.owner.Keys != v.owner.Keys
          && At(v.store, v.tab[i], Pos(bn)) == 0 != At(w.store, w.tab[i], Pos(bn)))
  }

  ghost predicate GrownLog(g: Geo, v: View, w: View, i: nat, bn: nat)
    requires Shape(g, v.store, v.tab) && Shape(g, w.store, w.tab) && i < |v.tab| == |w.tab| && bn < MAXFILE
  {
    forall b: nat {:trigger LoggedOk(g, v, w, i, bn, b)} :: LoggedOk(g, v, w, i, bn, b)
  }

  /** Giving block b to position p of inode i. */
  function Given(g: Geo, v: View, i: nat, p: nat, b: nat): View
    requires BitmapBlock(g, b) < |v.store| && b < |v.store| && i < |v.tab| && p < |v.tab[i].addrs|
  {
    View(Alloced(g, v.store, b), SetAddr(v.tab, i, p, b), v.owner[b := (i, p)], v.logged + {BitmapBlock(g, b), b})
  }

  /** Giving block b to entry e of inode i's indirect block. */
  function GivenEntry(g: Geo, v: View, i: nat, e: nat, b: nat): View
    requires BitmapBlock(g, b) < |v.store| && b < |v.store| && i < |v.tab| && |v.tab[i].addrs| == 13
    requires v.tab[i].addrs[INDIRECT] < |v.store| && e < NINDIRECT && b < UINT_LIMIT
  {
    var ind, mid := v.tab[i].addrs[INDIRECT], Alloced(g, v.store, b);
    View(mid[ind := PutWord(mid[ind], e, b)], v.tab, v.owner[b := (i, 13 + e)], v.logged + {BitmapBlock(g, b), b} + {ind})
  }

  ghost predicate ViewOk(g: Geo, v: View, t: int) {
    Consistent(g, v.store, v.tab, v.owner, t)
  }

  lemma FreshOne(g: Geo, owner: Owner, b: nat, at: (nat, nat))
    requires b !in owner
    ensures owner[b := at].Keys - owner.Keys == {b} && BitmapBlocks(g, {b}) == {BitmapBlock(g, b)}
  {
  }

  /** bmap's direct case. */
  lemma GivenGrows(g: Geo, v: View, i: nat, bn: nat, b: nat)
    requires ViewOk(g, v, i) && i < |v.tab| && v.tab[i].typ != 0 && bn < NDIRECT
    requires v.tab[i].addrs[bn] == 0 && g.nmeta <= b < g.size && b !in v.owner
    ensures var w := Given(g, v, i, bn, b);
            ViewOk(g, w, i) && Grown(g, v, w, i, bn) && GrownLog(g, v, w, i, bn) && At(w.store, w.tab[i], Pos(bn)) == b
  {
    GrowDirect(g, v.store, v.tab, v.owner, i, bn, b);
    AllocedBlocks(g, v.store, v.tab, v.owner, 0, 0, b);
    FreshOne(g, v.owner, b, (i, bn));
    var w := Given(g, v, i, bn, b);
    forall c: nat ensures LoggedOk(g, v, w, i, bn, c) {}
  }

  /** bmap's indirect block, freshly allocated. */
  lemma IndirectGrows(g: Geo, v: View, i: nat, bn: nat, b: nat)
    requires ViewOk(g, v, i) && i < |v.tab| && v.tab[i].typ != 0 && NDIRECT <= bn < MAXFILE
    requires v.tab[i].addrs[INDIRECT] == 0 && g.nmeta <= b < g.size && b !in v.owner
    ensures var w := Given(g, v, i, INDIRECT, b);
            && ViewOk(g, w, i) && Grown(g, v, w, i, bn) && GrownLog(g, v, w, i, bn)
            && At(v.store, v.tab[i], Pos(bn)) == At(w.store, w.tab[i], Pos(bn)) == 0
  {
    GrowDirect(g, v.store, v.tab, v.owner, i, INDIRECT, b);
    AllocedBlocks(g, v.store, v.tab, v.owner, 0, 0, b);
    FreshOne(g, v.owner, b, (i, INDIRECT));
    var w := Given(g, v, i, INDIRECT, b);
    forall c: nat ensures LoggedOk(g, v, w, i, bn, c) {}
  }

  /** bmap's indirect entry. */
  lemma EntryGrows(g: Geo, v: View, i: nat, bn: nat, b: nat)
    requires ViewOk(g, v, i) && i < |v.tab| && v.tab[i].typ != 0 && NDIRECT <= bn < MAXFILE
    requires v.tab[i].addrs[INDIRECT] != 0 && At(v.store, v.tab[i], Pos(bn)) == 0
    requires g.nmeta <= b < g.size && b !in v.owner
    ensures var w := GivenEntry(g, v, i, bn - NDIRECT, b);
            && ViewOk(g, w, i) && Grown(g, v, w, i, bn) && GrownLog(g, v, w, i, bn) && At(w.store, w.tab[i], Pos(bn)) == b
  {
    GrowEntry(g, v.store, v.tab, v.owner, i, bn - NDIRECT, b);
    AllocedBlocks(g, v.store, v.tab, v.owner, 0, 0, b);
    FreshOne(g, v.owner, b, (i, Pos(bn)));
    InDataArea(g, v.store, v.tab, v.owner, 0, 0, i, INDIRECT);
    var w := GivenEntry(g, v, i, bn - NDIRECT, b);
    forall c: nat ensures LoggedOk(g, v, w, i, bn, c) {}
  }

  /** The two allocations of one bmap call, in sequence. */
  lemma GrownTwice(g: Geo, v: View, w: View, x: View, i: nat, bn: nat)
    requires ViewOk(g, v, i) && ViewOk(g, w, i) && ViewOk(g, x, i) && i < |v.tab| && NDIRECT <= bn < MAXFILE
    requires Grown(g, v, w, i, bn) && GrownLog(g, v, w, i, bn) && Grown(g, w, x, i, bn) && GrownLog(g, w, x, i, bn)
    requires v.tab[i].addrs[INDIRECT] == 0 == At(w.store, w.tab[i], Pos(bn))
    ensures Grown(g, v, x, i, bn) && GrownLog(g, v, x, i, bn)
  {
    var a, b := w.owner.Keys - v.owner.Keys, x.owner.Keys - w.owner.Keys;
    assert x.owner.Keys - v.owner.Keys == a + b;
    assert BitmapBlocks(g, a + b) == BitmapBlocks(g, a) + BitmapBlocks(g, b);
    var ind := x.tab[i].addrs[INDIRECT];
    if ind != 0 {
      InDataArea(g, x.store, x.tab, x.owner, 0, 0, i, INDIRECT);
      assert OwnedOk(g, v.store, v.tab, v.owner, 0, 0, ind);
    }
    forall c: nat ensures LoggedOk(g, v, x, i, bn, c) {
      assert LoggedOk(g, v, w, i, bn, c) && LoggedOk(g, w, x, i, bn, c);
    }
  }
}
