/** Freeing the blocks of an inode: the half-way states of itrunc, and what each step keeps. */
module FsTrunc {
  import opened Blocks
  import opened FsLayout
  import opened FsSpec
  import opened FsGrow
  import opened FsWrite

  /** With no entries exempt, it does not matter whose they are. */
  lemma NoneExempt(g: Geo, store: Disk, tab: seq<Inode>, owner: Owner, t: nat, u: nat)
    requires OwnerInv(g, store, tab, owner, t, 0)
    ensures OwnerInv(g, store, tab, owner, u, 0)
  {
    forall b: nat ensures OwnedOk(g, store, tab, owner, u, 0, b) {
      assert OwnedOk(g, store, tab, owner, t, 0, b);
    }
    forall i, p | 0 <= i < |tab| && 0 <= p < NPOS ensures PosOk(g, store, tab, owner, u, 0, i, p) {
      assert PosOk(g, store, tab, owner, t, 0, i, p);
    }
  }

  /** Since itrunc of inode i began in v: only blocks of i were freed, and data blocks keep their bytes. */
  ghost predicate Freed(g: Geo, v: View, w: View, i: nat)
    requires Shape(g, v.store, v.tab) && i < |v.tab|
  {
    && |w.store| == |v.store| && |w.tab| == |v.tab| && |w.tab[i].addrs| == 13
    && w.tab == v.tab[i := v.tab[i].(addrs := w.tab[i].addrs)]
    && (forall c :: g.nmeta <= c < g.size ==> w.store[c] == v.store[c])
    && (forall c :: 0 <= c < g.bmapstart ==> w.store[c] == v.store[c])
    && (forall b :: b in w.owner ==> b in v.owner && w.owner[b] == v.owner[b])
    && (forall b :: b in v.owner && v.owner[b].0 != i ==> b in w.owner)
  }

  /** Freeing logs the bitmap blocks of the blocks freed, and no others. */
  ghost predicate FreedLog(g: Geo, v: View, w: View) {
    w.logged == v.logged + BitmapBlocks(g, v.owner.Keys - w.owner.Keys)
  }

  lemma FreedNone(g: Geo, v: View)
    ensures FreedLog(g, v, v)
  {
    assert v.owner.Keys - v.owner.Keys == {} && BitmapBlocks(g, {}) == {};
  }

  lemma FreedMore(g: Geo, v: View, w: View, tab: seq<Inode>, b: nat)
    requires FreedLog(g, v, w) && b in v.owner && b in w.owner && BitmapBlock(g, b) < |w.store|
    ensures FreedLog(g, v, Dropped(g, w, tab, b))
  {
    var x := Dropped(g, w, tab, b);
    assert v.owner.Keys - x.owner.Keys == (v.owner.Keys - w.owner.Keys) + {b};
    assert BitmapBlocks(g, v.owner.Keys - x.owner.Keys) == BitmapBlocks(g, v.owner.Keys - w.owner.Keys) + {BitmapBlock(g, b)};
  }

  /** The state of itrunc: k entries of the indirect block are free, and still listed there. */
  ghost predicate Truncating(g: Geo, v: View, w: View, i: nat, k: nat) {
    && ViewOk(g, v, -1) && i < |v.tab| && Freed(g, v, w, i)
    && OwnerInv(g, w.store, w.tab, w.owner, i, k) && BitInv(g, w.store, w.owner) && FreedLog(g, v, w)
  }

  /** bfree of block b, given up by its owner. */
  ghost function Dropped(g: Geo, w: View, tab: seq<Inode>, b: nat): View
    requires BitmapBlock(g, b) < |w.store|
  {
    View(SetBit(g, w.store, b, false), tab, w.owner - {b}, w.logged + {BitmapBlock(g, b)})
  }

  /** Freeing a block changes the bitmap only, so every address stays. */
  lemma BitCleared(g: Geo, store: Disk, tab: seq<Inode>, owner: Owner, owner': Owner, t: nat, k: nat, b: nat)
    requires BitInv(g, store, owner) && b in owner && g.nmeta <= b < g.size && owner' == owner - {b}
    requires OwnerInv(g, store, tab, owner', t, k)
    ensures OwnerInv(g, SetBit(g, store, b, false), tab, owner', t, k)
    ensures BitInv(g, SetBit(g, store, b, false), owner')
    ensures Bit(g, store, b)
  {
    BitTaken(g, store, owner, owner', b, false);
    assert Bit(g, store, b) <==> b < g.nmeta || b in owner;
    var store' := SetBit(g, store, b, false);
    forall c | c in owner' && owner'[c].1 == INDIRECT && c < g.size ensures store'[c] == store[c] {
      assert OwnedOk(g, store, tab, owner', t, k, c);
    }
    OwnedFrame(g, store, store', tab, owner', t, k);
  }

  lemma FreeDirect(g: Geo, v: View, w: View, i: nat, p: nat)
    requires Truncating(g, v, w, i, 0) && p < NDIRECT && w.tab[i].addrs[p] != 0
    ensures var b := w.tab[i].addrs[p];
            b < g.size && Bit(g, w.store, b) && Truncating(g, v, Dropped(g, w, SetAddr(w.tab, i, p, 0), b), i, 0)
  {
    var b := w.tab[i].addrs[p];
    InDataArea(g, w.store, w.tab, w.owner, i, 0, i, p);
    NoneExempt(g, w.store, w.tab, w.owner, i, 0);
    DropDirect(g, w.store, w.tab, w.owner, i, p);
    var tab' := SetAddr(w.tab, i, p, 0);
    BitCleared(g, w.store, tab', w.owner, w.owner - {b}, 0, 0, b);
    var x := Dropped(g, w, tab', b);
    FreedMore(g, v, w, tab', b);
    NoneExempt(g, x.store, x.tab, x.owner, 0, i);
  }

  lemma FreeEntry(g: Geo, v: View, w: View, i: nat, k: nat)
    requires Truncating(g, v, w, i, k) && k < NINDIRECT
    ensures var b := At(w.store, w.tab[i], 13 + k);
            if b == 0 then Truncating(g, v, w, i, k + 1)
            else b < g.size && Bit(g, w.store, b) && Truncating(g, v, Dropped(g, w, w.tab, b), i, k + 1)
  {
    var b := At(w.store, w.tab[i], 13 + k);
    DropEntry(g, w.store, w.tab, w.owner, i, k);
    if b == 0 {
      assert OwnedOk(g, w.store, w.tab, w.owner, i, k, 0);
      assert w.owner - {0} == w.owner;
    } else {
      InDataArea(g, w.store, w.tab, w.owner, i, k, i, 13 + k);
      BitCleared(g, w.store, w.tab, w.owner, w.owner - {b}, i, k + 1, b);
      FreedMore(g, v, w, w.tab, b);
    }
  }

  lemma FreeIndirect(g: Geo, v: View, w: View, i: nat)
    requires Truncating(g, v, w, i, NINDIRECT) && w.tab[i].addrs[INDIRECT] != 0
    ensures var b := w.tab[i].addrs[INDIRECT];
            b < g.size && Bit(g, w.store, b) && Truncating(g, v, Dropped(g, w, SetAddr(w.tab, i, INDIRECT, 0), b), i, 0)
  {
    var b := w.tab[i].addrs[INDIRECT];
    InDataArea(g, w.store, w.tab, w.owner, i, NINDIRECT, i, INDIRECT);
    DropIndirect(g, w.store, w.tab, w.owner, i);
    var tab' := SetAddr(w.tab, i, INDIRECT, 0);
    BitCleared(g, w.store, tab', w.owner, w.owner - {b}, 0, 0, b);
    var x := Dropped(g, w, tab', b);
    FreedMore(g, v, w, tab', b);
    NoneExempt(g, x.store, x.tab, x.owner, 0, i);
  }

  /** What itrunc promises: inode i is empty, its blocks and no others are free, and no other file changes. */
  ghost predicate Emptied(g: Geo, v: View, x: View, i: nat) {
    && FilesOk(g, v.store, v.tab) && FilesOk(g, x.store, x.tab) && i < |v.tab| == |x.tab|
    && x.tab[i] == v.tab[i].(size := 0, addrs := NO_ADDRS)
    && (forall b :: b in x.owner <==> b in v.owner && v.owner[b].0 != i) && (forall b :: b in x.owner ==> x.owner[b] == v.owner[b])
    && (forall j :: 0 <= j < |v.tab| && j != i ==> SameFile(v.store, v.tab[j], x.store, x.tab[j]))
  }

  /** Once all addresses are gone, and the size is set, the file system is consistent again. */
  lemma Truncated(g: Geo, v: View, w: View, i: nat)
    requires Truncating(g, v, w, i, 0) && w.tab[i].addrs == NO_ADDRS
    ensures var x := w.(tab := w.tab[i := w.tab[i].(size := 0)]); ViewOk(g, x, i) && Emptied(g, v, x, i)
  {
    var x := w.(tab := w.tab[i := w.tab[i].(size := 0)]);
    NoneExempt(g, w.store, w.tab, w.owner, i, 0);
    forall b: nat ensures OwnedOk(g, x.store, x.tab, x.owner, 0, 0, b) {
      assert OwnedOk(g, w.store, w.tab, w.owner, 0, 0, b);
    }
    forall j, q | 0 <= j < |x.tab| && 0 <= q < NPOS ensures PosOk(g, x.store, x.tab, x.owner, 0, 0, j, q) {
      assert PosOk(g, w.store, w.tab, w.owner, 0, 0, j, q);
    }
    forall j | 0 <= j < |v.tab| && j != i ensures FileOk(x.store, x.tab[j]) {
      Untouched(g, v, w, i, j);
    }
    assert FileOk(x.store, x.tab[i]);
    SyncFrame(g, v.store, x.store, v.tab, x.tab, i);
    forall j | 0 <= j < |v.tab| && j != i ensures FileOk(v.store, v.tab[j]) && SameFile(v.store, v.tab[j], x.store, x.tab[j]) {
      Untouched(g, v, w, i, j);
    }
    forall b | b in x.owner ensures v.owner[b].0 != i {
      assert OwnedOk(g, x.store, x.tab, x.owner, 0, 0, b);
    }
  }

  lemma Untouched(g: Geo, v: View, w: View, i: nat, j: nat)
    requires Truncating(g, v, w, i, 0) && j < |v.tab| && j != i
    ensures FileOk(v.store, v.tab[j]) && FileOk(w.store, w.tab[j])
    ensures SameFile(v.store, v.tab[j], w.store, w.tab[j])
  {
    assert FileOk(v.store, v.tab[j]);
    forall b | b in v.owner && b < g.size && v.owner[b].0 == j ensures w.store[b] == v.store[b] {
      assert OwnedOk(g, v.store, v.tab, v.owner, 0, 0, b);
    }
    ContentFrame(g, v.store, w.store, v.tab, v.owner, j);
  }

  /** Writing the inode out changes no file. */
  lemma EmptiedSaved(g: Geo, v: View, x: View, y: View, i: nat)
    requires Emptied(g, v, x, i) && ViewOk(g, x, i) && |y.store| == |x.store| && y.tab == x.tab && y.owner == x.owner
    requires forall b :: g.nmeta <= b < g.size ==> y.store[b] == x.store[b]
    ensures Emptied(g, v, y, i)
  {
    forall j | 0 <= j < |x.tab|
      ensures FileOk(x.store, x.tab[j]) && FileOk(y.store, y.tab[j]) && SameFile(x.store, x.tab[j], y.store, y.tab[j])
    {
      SavedSame(g, x, y, i, j);
    }
    forall j | 0 <= j < |v.tab| && j != i
      ensures FileOk(v.store, v.tab[j]) && SameFile(v.store, v.tab[j], y.store, y.tab[j])
    {
      assert FileOk(v.store, v.tab[j]) && SameFile(v.store, v.tab[j], x.store, x.tab[j]);
    }
  }
}
