/** mkfs/mkfs.c: the builder of the first image. It hands out blocks in order and marks them in the bitmap only
    at the end, so the state to reason about is the image as it would be if the bitmap were written now. */
module Mkfs {
  import opened Blocks
  import opened FsLayout
  import opened FsSpec
  import opened FsGrow
  import opened FsWrite
  import opened FsInode
  import opened FsBudget
  import NameSpec

  /** The image with blocks [0, n) marked in its bitmap. */
  ghost function Marked(g: Geo, store: Disk, n: nat): (r: Disk)
    requires GeoOk(g) && |store| == g.size && n <= g.size
    ensures |r| == |store|
  {
    if n == 0 then store else SetBit(g, Marked(g, store, n - 1), n - 1, true)
  }

  /** Marking touches the bitmap blocks only. */
  lemma {:induction false} MarkedElsewhere(g: Geo, store: Disk, n: nat, c: nat)
    requires GeoOk(g) && |store| == g.size && n <= g.size && c < g.size && !InBitmap(g, c)
    ensures Marked(g, store, n)[c] == store[c]
  {
    if n > 0 {
      MarkedElsewhere(g, store, n - 1, c);
    }
  }

  /** Marking and writing a block outside the bitmap commute. */
  lemma {:induction false} MarkedPut(g: Geo, store: Disk, n: nat, c: nat, data: Block)
    requires GeoOk(g) && |store| == g.size && n <= g.size && c < g.size && !InBitmap(g, c)
    ensures Marked(g, store[c := data], n) == Marked(g, store, n)[c := data]
  {
    if n > 0 {
      MarkedPut(g, store, n - 1, c, data);
      var m := Marked(g, store, n - 1);
      assert SetBit(g, m[c := data], n - 1, true) == SetBit(g, m, n - 1, true)[c := data];
    }
  }

  lemma {:induction false} MarkedBits(g: Geo, store: Disk, n: nat, c: nat)
    requires GeoOk(g) && |store| == g.size && n <= g.size && c < g.size
    ensures Bit(g, Marked(g, store, n), c) <==> c < n || Bit(g, store, c)
  {
    if n > 0 {
      MarkedBits(g, store, n - 1, c);
      BitStored(g, Marked(g, store, n - 1), n - 1, true, c);
    }
  }

  lemma {:induction false} ZeroBits(k: nat)
    ensures !TestBit(0, k)
  {
    if k > 0 { ZeroBits(k - 1); }
  }

  lemma ZeroInode(s: nat)
    requires s < IPB
    ensures DecodeInode(ZeroBlock(), s) == Inode(0, 0, 0, 0, 0, NO_ADDRS)
  {
    forall k | 0 <= k < 16 ensures SlotWord(ZeroBlock(), s, k) == 0 {
      ZeroWords(16 * s + k);
    }
    var y := DecodeInode(ZeroBlock(), s);
    forall k | 0 <= k < 13 ensures y.addrs[k] == NO_ADDRS[k] {
      assert SlotWord(ZeroBlock(), s, 3 + k) == 0;
    }
    assert y.addrs == NO_ADDRS;
  }

  /** The image that mkfs starts from: every sector is zero. */
  ghost function Blank(g: Geo): Disk {
    seq(g.size, _ => ZeroBlock())
  }

  ghost function NoInodes(g: Geo): seq<Inode> {
    seq(g.ninodes, _ => Inode(0, 0, 0, 0, 0, NO_ADDRS))
  }

  /** Blocks [nmeta, fb) are in use; the rest, and the bitmap, are still zero. */
  ghost predicate InOrder(g: Geo, store: Disk, owner: Owner, fb: nat) {
    && GeoOk(g) && |store| == g.size && g.nmeta <= fb <= g.size
    && (forall b :: b in owner <==> g.nmeta <= b < fb)
    && (forall b :: fb <= b < g.size ==> store[b] == ZeroBlock())
    && store[g.bmapstart] == ZeroBlock()
  }

  lemma BlankOwners(g: Geo, store: Disk)
    requires GeoOk(g) && |store| == g.size
    ensures OwnerInv(g, store, NoInodes(g), map[], 0, 0)
  {
    var tab := NoInodes(g);
    forall i, p | 0 <= i < |tab| && 0 <= p < NPOS ensures PosOk(g, store, tab, map[], 0, 0, i, p) {
      assert At(store, tab[i], p) == 0;
    }
  }

  lemma BlankBits(g: Geo)
    requires GeoOk(g)
    ensures BitInv(g, Marked(g, Blank(g), g.nmeta), map[])
  {
    var store := Marked(g, Blank(g), g.nmeta);
    forall c | 0 <= c < g.size ensures Bit(g, store, c) <==> c < g.nmeta {
      MarkedBits(g, Blank(g), g.nmeta, c);
      ZeroBits(c % 8);
    }
  }

  /** The blank image, once marked, is a consistent file system with no inodes. */
  lemma BlankOk(g: Geo)
    requires GeoOk(g)
    ensures ViewOk(g, View(Marked(g, Blank(g), g.nmeta), NoInodes(g), map[], {}), -1)
  {
    var store, tab := Marked(g, Blank(g), g.nmeta), NoInodes(g);
    BlankBits(g);
    BlankOwners(g, store);
    forall i | 0 <= i < g.ninodes ensures tab[i] == DInode(g, store, i) {
      MarkedElsewhere(g, Blank(g), g.nmeta, InodeBlock(g, i));
      ZeroInode(i % IPB);
    }
    forall i | 0 <= i < |tab| ensures FileOk(store, tab[i]) {}
  }

  /** Taking the next block in order is what balloc does to the marked image. */
  lemma NextAlloced(g: Geo, store: Disk, owner: Owner, fb: nat)
    requires InOrder(g, store, owner, fb) && fb < g.size
    ensures Alloced(g, Marked(g, store, fb), fb) == Marked(g, store, fb + 1)
  {
    MarkedElsewhere(g, store, fb + 1, fb);
    var m := Marked(g, store, fb + 1);
    assert m[fb := ZeroBlock()] == m;
  }

  /** An image under construction: its real sectors, and the view of it with the bitmap written. */
  ghost function Seen(g: Geo, store: Disk, fb: nat, tab: seq<Inode>, owner: Owner, logged: set<nat>): View
    requires InOrder(g, store, owner, fb)
  {
    View(Marked(g, store, fb), tab, owner, logged)
  }

  /** wsect of a data block. */
  lemma SeenPut(g: Geo, store: Disk, fb: nat, tab: seq<Inode>, owner: Owner, logged: set<nat>, c: nat, at: nat, bytes: seq<Byte>)
    requires InOrder(g, store, owner, fb) && g.nmeta <= c < fb && at + |bytes| <= BSIZE
    ensures var store' := store[c := Overwrite(store[c], at, bytes)];
            && InOrder(g, store', owner, fb)
            && Put(Seen(g, store, fb, tab, owner, logged), c, at, bytes) == Seen(g, store', fb, tab, owner, logged + {c})
  {
    MarkedPut(g, store, fb, c, Overwrite(store[c], at, bytes));
    MarkedElsewhere(g, store, fb, c);
  }

  /** The next block in order becomes direct block p, or the indirect block, of inode i. */
  lemma SeenTake(g: Geo, store: Disk, fb: nat, tab: seq<Inode>, owner: Owner, logged: set<nat>, i: nat, p: nat, bn: nat)
    requires InOrder(g, store, owner, fb) && fb < g.size && ViewOk(g, Seen(g, store, fb, tab, owner, logged), i)
    requires i < |tab| && tab[i].typ != 0 && p <= INDIRECT && tab[i].addrs[p] == 0
    requires bn < MAXFILE && (if p < INDIRECT then p == bn else bn >= NDIRECT)
    ensures InOrder(g, store, owner[fb := (i, p)], fb + 1)
    ensures var v := Seen(g, store, fb, tab, owner, logged);
            var w := Seen(g, store, fb + 1, SetAddr(tab, i, p, fb), owner[fb := (i, p)], logged + {BitmapBlock(g, fb), fb});
            && ViewOk(g, w, i) && Grown(g, v, w, i, bn) && GrownLog(g, v, w, i, bn)
            && At(w.store, w.tab[i], Pos(bn)) == if p < INDIRECT then fb else 0
  {
    var v := Seen(g, store, fb, tab, owner, logged);
    NextAlloced(g, store, owner, fb);
    if p < INDIRECT {
      GivenGrows(g, v, i, p, fb);
    } else {
      IndirectGrows(g, v, i, bn, fb);
    }
  }

  /** Taking a block and rewriting another, in use. */
  lemma NextInOrder(g: Geo, store: Disk, owner: Owner, fb: nat, c: nat, data: Block, at: (nat, nat))
    requires InOrder(g, store, owner, fb) && fb < g.size && c in owner
    ensures InOrder(g, store[c := data], owner[fb := at], fb + 1)
  {
  }

  lemma NextEntryStore(g: Geo, store: Disk, fb: nat, owner: Owner, ind: nat, e: nat, data: Block)
    requires InOrder(g, store, owner, fb) && fb < g.size && ind in owner && e < NINDIRECT && data == PutWord(store[ind], e, fb)
    ensures var mid := Alloced(g, Marked(g, store, fb), fb);
            mid[ind := PutWord(mid[ind], e, fb)] == Marked(g, store[ind := data], fb + 1)
  {
    NextMid(g, store, fb, owner, ind);
    MarkedPut(g, store, fb + 1, ind, data);
  }

  lemma NextMid(g: Geo, store: Disk, fb: nat, owner: Owner, ind: nat)
    requires InOrder(g, store, owner, fb) && fb < g.size && ind in owner
    ensures var mid := Alloced(g, Marked(g, store, fb), fb); mid == Marked(g, store, fb + 1) && mid[ind] == store[ind]
  {
    NextAlloced(g, store, owner, fb);
    MarkedElsewhere(g, store, fb + 1, ind);
  }

  lemma NextEntry(g: Geo, store: Disk, fb: nat, tab: seq<Inode>, owner: Owner, logged: set<nat>, i: nat, bn: nat, data: Block)
    requires InOrder(g, store, owner, fb) && fb < g.size && i < |tab| && |tab[i].addrs| == 13 && NDIRECT <= bn < MAXFILE
    requires tab[i].addrs[INDIRECT] in owner && data == PutWord(store[tab[i].addrs[INDIRECT]], bn - NDIRECT, fb)
    requires InOrder(g, store[tab[i].addrs[INDIRECT] := data], owner[fb := (i, Pos(bn))], fb + 1)
    ensures var ind := tab[i].addrs[INDIRECT];
            GivenEntry(g, Seen(g, store, fb, tab, owner, logged), i, bn - NDIRECT, fb) ==
            Seen(g, store[ind := data], fb + 1, tab, owner[fb := (i, Pos(bn))], logged + {BitmapBlock(g, fb), fb} + {ind})
  {
    NextEntryStore(g, store, fb, owner, tab[i].addrs[INDIRECT], bn - NDIRECT, data);
  }

  /** The next block in order becomes an entry of inode i's indirect block. */
  lemma SeenEntry(g: Geo, store: Disk, fb: nat, tab: seq<Inode>, owner: Owner, logged: set<nat>, i: nat, bn: nat, data: Block)
    requires InOrder(g, store, owner, fb) && fb < g.size && ViewOk(g, Seen(g, store, fb, tab, owner, logged), i)
    requires i < |tab| && tab[i].typ != 0 && NDIRECT <= bn < MAXFILE && tab[i].addrs[INDIRECT] != 0
    requires At(Seen(g, store, fb, tab, owner, logged).store, tab[i], Pos(bn)) == 0
    requires data == PutWord(store[tab[i].addrs[INDIRECT]], bn - NDIRECT, fb)
    ensures InOrder(g, store[tab[i].addrs[INDIRECT] := data], owner[fb := (i, Pos(bn))], fb + 1)
    ensures var v, ind := Seen(g, store, fb, tab, owner, logged), tab[i].addrs[INDIRECT];
            var w := Seen(g, store[ind := data], fb + 1, tab, owner[fb := (i, Pos(bn))], logged + {BitmapBlock(g, fb), fb} + {ind});
            ViewOk(g, w, i) && Grown(g, v, w, i, bn) && GrownLog(g, v, w, i, bn) && At(w.store, w.tab[i], Pos(bn)) == fb
  {
    var v, ind := Seen(g, store, fb, tab, owner, logged), tab[i].addrs[INDIRECT];
    InDataArea(g, v.store, v.tab, v.owner, 0, 0, i, INDIRECT);
    NextInOrder(g, store, owner, fb, ind, data, (i, Pos(bn)));
    NextEntry(g, store, fb, tab, owner, logged, i, bn, data);
    EntryGrows(g, v, i, bn, fb);
  }

  /** Where the builder finds file block bn once it is mapped: the address in the inode or in the indirect block. */
  lemma MappedAt(g: Geo, store: Disk, fb: nat, tab: seq<Inode>, owner: Owner, logged: set<nat>, i: nat, bn: nat)
    requires InOrder(g, store, owner, fb) && i < |tab| && ViewOk(g, Seen(g, store, fb, tab, owner, logged), i) && bn < MAXFILE
    requires At(Marked(g, store, fb), tab[i], Pos(bn)) != 0
    ensures bn >= NDIRECT ==> tab[i].addrs[NDIRECT] < |store|
    ensures g.nmeta <= At(Marked(g, store, fb), tab[i], Pos(bn)) < fb
    ensures At(Marked(g, store, fb), tab[i], Pos(bn)) ==
            if bn < NDIRECT then tab[i].addrs[bn] else GetWord(store[tab[i].addrs[NDIRECT]], bn - NDIRECT)
  {
    var u := Seen(g, store, fb, tab, owner, logged);
    InDataArea(g, u.store, u.tab, u.owner, 0, 0, i, Pos(bn));
    if bn >= NDIRECT {
      InDataArea(g, u.store, u.tab, u.owner, 0, 0, i, INDIRECT);
      MarkedElsewhere(g, store, fb, tab[i].addrs[NDIRECT]);
    }
  }

  /** A file with no blocks past its end. */
  ghost predicate Tight(store: Disk, x: Inode)
    requires |x.addrs| == 13 && x.addrs[INDIRECT] < |store|
  {
    forall bn {:trigger Pos(bn)} :: 0 <= bn < MAXFILE && bn * BSIZE >= x.size ==> At(store, x, Pos(bn)) == 0
  }

  ghost predicate AllTight(v: View) {
    forall j :: 0 <= j < |v.tab| ==> |v.tab[j].addrs| == 13 && v.tab[j].addrs[INDIRECT] < |v.store| && Tight(v.store, v.tab[j])
  }

  /** Appending leaves no blocks past the end. */
  lemma AppendTight(g: Geo, v: View, w: View, i: nat, src: seq<Byte>, j: nat)
    requires i < |v.tab| && Written(g, v, w, i, v.tab[i].size, src, |src|) && AllTight(v) && j < |v.tab|
    ensures Tight(w.store, Resized(w, i, v.tab[i].size + |src|).tab[j])
  {
    var y := Resized(w, i, v.tab[i].size + |src|).tab[j];
    forall bn | 0 <= bn < MAXFILE && bn * BSIZE >= y.size ensures At(w.store, y, Pos(bn)) == 0 {
      assert At(v.store, v.tab[j], Pos(bn)) == 0;
      if j == i {
        assert !Touches(v.tab[i].size, |src|, bn);
      } else {
        OtherPlace(g, v, w, i, j, Pos(bn));
      }
    }
  }

  /** Storing an inode moves no block. */
  lemma SavedTight(g: Geo, x: View, y: View, t: int)
    requires ViewOk(g, x, t) && AllTight(x) && y.tab == x.tab && |y.store| == |x.store|
    requires forall b :: g.nmeta <= b < g.size ==> y.store[b] == x.store[b]
    ensures AllTight(y)
  {
    forall j | 0 <= j < |x.tab| && x.tab[j].addrs[INDIRECT] != 0
      ensures y.store[x.tab[j].addrs[INDIRECT]] == x.store[x.tab[j].addrs[INDIRECT]]
    {
      InDataArea(g, x.store, x.tab, x.owner, 0, 0, j, INDIRECT);
    }
    forall j | 0 <= j < |x.tab| ensures Tight(y.store, y.tab[j]) {
      forall bn | 0 <= bn < MAXFILE && bn * BSIZE >= y.tab[j].size ensures At(y.store, y.tab[j], Pos(bn)) == 0 {
        assert At(x.store, x.tab[j], Pos(bn)) == 0;
      }
    }
  }

  /** winode, seen with the bitmap written. */
  lemma SeenInode(g: Geo, store: Disk, fb: nat, tab: seq<Inode>, owner: Owner, logged: set<nat>, i: nat)
    requires InOrder(g, store, owner, fb) && i < |tab| && ViewOk(g, Seen(g, store, fb, tab, owner, logged), i)
    ensures var store' := PutInode(g, store, i, tab[i]);
            && InOrder(g, store', owner, fb) && ViewOk(g, Seen(g, store', fb, tab, owner, logged), -1)
            && forall b :: g.nmeta <= b < g.size ==> Marked(g, store', fb)[b] == Marked(g, store, fb)[b]
  {
    var c := InodeBlock(g, i);
    MarkedElsewhere(g, store, fb, c);
    MarkedPut(g, store, fb, c, EncodeInode(store[c], i % IPB, tab[i], 16));
    InodePutKeeps(g, Marked(g, store, fb), tab, owner, i);
  }

  /** The end of an append, seen with the bitmap written. */
  lemma AppendEnds(g: Geo, v: View, w: View, i: nat, src: seq<Byte>)
    requires i < |v.tab| && Written(g, v, w, i, v.tab[i].size, src, |src|) && AllTight(v)
    ensures var x := Resized(w, i, v.tab[i].size + |src|);
            ViewOk(g, x, i) && AllTight(x) && WriteDone(g, v, x, i, v.tab[i].size, src)
  {
    WriteEnds(g, v, w, i, v.tab[i].size, src, |src|);
    assert src[..|src|] == src;
    var x := Resized(w, i, v.tab[i].size + |src|);
    forall j | 0 <= j < |v.tab| ensures Tight(x.store, x.tab[j]) {
      AppendTight(g, v, w, i, src, j);
    }
  }

  /** The size mkfs gives the root directory in the end. */
  function Rounded(size: nat): nat {
    (size / BSIZE + 1) * BSIZE
  }

  /** Rounding the root directory's size up leaves it without a hole exactly when its entries did not fill
      their last block. */
  lemma RoundingIff(store: Disk, x: Inode)
    requires |x.addrs| == 13 && x.addrs[INDIRECT] < |store| && x.typ != 0 && FileOk(store, x) && Tight(store, x)
    ensures FileOk(store, x.(size := Rounded(x.size))) <==> x.size % BSIZE != 0
  {
    var y, last := x.(size := Rounded(x.size)), x.size / BSIZE;
    assert forall p :: 0 <= p < NPOS ==> At(store, y, p) == At(store, x, p);
    if x.size % BSIZE != 0 {
      forall bn | 0 <= bn < MAXFILE && bn * BSIZE < y.size ensures At(store, y, Pos(bn)) != 0 {
        assert bn <= last;
        assert At(store, x, Pos(bn)) != 0;
      }
    } else if last < MAXFILE {
      assert At(store, x, Pos(last)) == 0;
      assert last * BSIZE < y.size;
    }
  }

  /** The last two steps of main seen together: consistent exactly when rounding left no hole. */
  lemma FinishIff(g: Geo, v: View, i: nat)
    requires ViewOk(g, v, -1) && AllTight(v) && i < |v.tab| && v.tab[i].typ != 0
    ensures InodeRange(v.tab[i].(size := Rounded(v.tab[i].size)))
    ensures ViewOk(g, Finished(g, v, i), -1) <==> v.tab[i].size % BSIZE != 0
  {
    Starts(g, v, i);
    var y := v.tab[i].(size := Rounded(v.tab[i].size));
    var x, z := v.(tab := v.tab[i := y]), Finished(g, v, i);
    assert FileOk(v.store, v.tab[i]);
    RoundingIff(v.store, v.tab[i]);
    RootPlaces(g, v, x, i);
    assert forall b :: g.nmeta <= b < g.size ==> z.store[b] == x.store[b];
    if v.tab[i].size % BSIZE != 0 {
      forall j | 0 <= j < |x.tab| ensures FileOk(x.store, x.tab[j]) {
        assert FileOk(v.store, v.tab[j]);
      }
      assert ViewOk(g, x, i);
      InodePutKeeps(g, x.store, x.tab, x.owner, i);
    } else {
      SamePlaces(g, x, z, i);
      if FileOk(z.store, z.tab[i]) {
        HolesStay(z.store, x.store, y);
      }
    }
  }

  /** The image once the root directory's size is rounded up. */
  ghost function Finished(g: Geo, v: View, i: nat): View
    requires i < |v.tab| && InodeRange(v.tab[i].(size := Rounded(v.tab[i].size))) && InodeBlock(g, i) < |v.store|
  {
    var y := v.tab[i].(size := Rounded(v.tab[i].size));
    View(PutInode(g, v.store, i, y), v.tab[i := y], v.owner, v.logged)
  }

  lemma RootPlaces(g: Geo, v: View, x: View, i: nat)
    requires OwnerInv(g, v.store, v.tab, v.owner, 0, 0) && i < |v.tab| && Shape(g, x.store, x.tab)
    requires x.store == v.store && x.owner == v.owner && |x.tab| == |v.tab|
    requires forall j :: 0 <= j < |v.tab| ==> x.tab[j].addrs == v.tab[j].addrs
    ensures OwnerInv(g, x.store, x.tab, x.owner, 0, 0)
  {
    forall b: nat ensures OwnedOk(g, x.store, x.tab, x.owner, 0, 0, b) {
      assert OwnedOk(g, v.store, v.tab, v.owner, 0, 0, b);
    }
    forall j, q | 0 <= j < |x.tab| && 0 <= q < NPOS ensures PosOk(g, x.store, x.tab, x.owner, 0, 0, j, q) {
      assert PosOk(g, v.store, v.tab, v.owner, 0, 0, j, q);
    }
  }

  lemma SamePlaces(g: Geo, x: View, z: View, i: nat)
    requires OwnerInv(g, x.store, x.tab, x.owner, 0, 0) && i < |x.tab| && z.tab == x.tab && |z.store| == |x.store|
    requires forall b :: g.nmeta <= b < g.size ==> z.store[b] == x.store[b]
    ensures forall p :: 0 <= p < NPOS ==> At(z.store, z.tab[i], p) == At(x.store, x.tab[i], p)
  {
    if x.tab[i].addrs[INDIRECT] != 0 {
      InDataArea(g, x.store, x.tab, x.owner, 0, 0, i, INDIRECT);
    }
  }

  lemma HolesStay(store: Disk, store': Disk, y: Inode)
    requires |y.addrs| == 13 && y.addrs[INDIRECT] < |store| == |store'| && FileOk(store, y)
    requires forall p :: 0 <= p < NPOS ==> At(store, y, p) == At(store', y, p)
    ensures FileOk(store', y)
  {
    forall bn | 0 <= bn < MAXFILE && bn * BSIZE < y.size ensures At(store', y, Pos(bn)) != 0 {
      assert At(store, y, Pos(bn)) != 0;
    }
  }

  // ---------------------------------------------------------------- a root directory that fills its block

  /** A new size is fine if it leaves no hole. */
  lemma ResizeKeeps(g: Geo, v: View, i: nat, y: Inode)
    requires ViewOk(g, v, i) && i < |v.tab| && y == v.tab[i].(size := y.size) && InodeRange(y) && FileOk(v.store, y)
    ensures ViewOk(g, v.(tab := v.tab[i := y]), i)
  {
    var x := v.(tab := v.tab[i := y]);
    forall b: nat ensures OwnedOk(g, x.store, x.tab, x.owner, 0, 0, b) {
      assert OwnedOk(g, v.store, v.tab, v.owner, 0, 0, b);
    }
    forall j, q | 0 <= j < |x.tab| && 0 <= q < NPOS ensures PosOk(g, x.store, x.tab, x.owner, 0, 0, j, q) {
      assert PosOk(g, v.store, v.tab, v.owner, 0, 0, j, q);
    }
    forall j | 0 <= j < |x.tab| ensures FileOk(x.store, x.tab[j]) {
      assert FileOk(v.store, v.tab[j]);
    }
  }

  /** The blank image with a root directory of one block. */
  lemma OneBlockRoot(g: Geo) returns (v: View)
    requires GeoOk(g) && g.nmeta < g.size
    ensures ViewOk(g, v, NameSpec.ROOTINO) && |v.tab| == g.ninodes && |v.store| == g.size
    ensures v.tab == NoInodes(g)[NameSpec.ROOTINO := Inode(NameSpec.T_DIR, 0, 0, 1, 0, NO_ADDRS[0 := g.nmeta])]
  {
    var blank, r := View(Marked(g, Blank(g), g.nmeta), NoInodes(g), map[], {}), NameSpec.ROOTINO;
    BlankOk(g);
    Starts(g, blank, r);
    var dir := blank.tab[r].(typ := NameSpec.T_DIR, nlink := 1);
    Recorded(g, blank, r, dir);
    var one := blank.(tab := blank.tab[r := dir]);
    GivenGrows(g, one, r, 0, g.nmeta);
    v := Given(g, one, r, 0, g.nmeta);
    assert v.tab[r] == dir.(addrs := NO_ADDRS[0 := g.nmeta]);
    assert v.tab == NoInodes(g)[r := v.tab[r]];
  }

  /** A root directory whose 64 entries fill its block: rounding its size up gives it a block it does not have. */
  lemma FullRootBreaks(g: Geo) returns (v: View)
    requires GeoOk(g) && g.nmeta < g.size
    ensures ViewOk(g, v, -1) && AllTight(v) && NameSpec.ROOTINO < |v.tab| && v.tab[NameSpec.ROOTINO].typ == NameSpec.T_DIR
    ensures v.tab[NameSpec.ROOTINO].size == 64 * 16 && InodeRange(v.tab[NameSpec.ROOTINO].(size := Rounded(64 * 16)))
    ensures InodeBlock(g, NameSpec.ROOTINO) < |v.store| && !ViewOk(g, Finished(g, v, NameSpec.ROOTINO), -1)
  {
    var r := NameSpec.ROOTINO;
    var w := OneBlockRoot(g);
    var y := w.tab[r].(size := 64 * 16);
    assert forall bn :: 0 <= bn < MAXFILE && bn * BSIZE < y.size ==> bn == 0;
    ResizeKeeps(g, w, r, y);
    var u := w.(tab := w.tab[r := y]);
    InodePutKeeps(g, u.store, u.tab, u.owner, r);
    v := u.(store := PutInode(g, u.store, r, y));
    forall j | 0 <= j < |v.tab| ensures Tight(v.store, v.tab[j]) {
      if j == r {
        assert forall bn {:trigger Pos(bn)} :: 0 < bn < MAXFILE ==> At(v.store, y, Pos(bn)) == 0;
      }
    }
    FinishIff(g, v, r);
  }

  // ---------------------------------------------------------------- main

  /** A host file: its name, and its bytes as the reads returned them. */
  datatype HostFile = HostFile(name: seq<Byte>, chunks: seq<seq<Byte>>)

  function Concat(chunks: seq<seq<Byte>>): seq<Byte> {
    if chunks == [] then [] else Concat(chunks[..|chunks| - 1]) + chunks[|chunks| - 1]
  }

  /** One more chunk, which is part of the whole. */
  lemma ConcatMore(c: seq<Byte>, chunks: seq<seq<Byte>>, n: nat)
    requires n < |chunks|
    ensures c + Concat(chunks[..n]) + chunks[n] == c + Concat(chunks[..n + 1])
    ensures |Concat(chunks[..n + 1])| <= |Concat(chunks)|
  {
    assert chunks[..n + 1][..n] == chunks[..n];
    ConcatPart(chunks, n + 1);
  }

  lemma {:induction false} ConcatPart(chunks: seq<seq<Byte>>, n: nat)
    requires n <= |chunks|
    ensures |Concat(chunks[..n])| <= |Concat(chunks)|
  {
    if n == |chunks| {
      assert chunks[..n] == chunks;
    } else {
      ConcatPart(chunks[..|chunks| - 1], n);
      assert chunks[..|chunks| - 1][..n] == chunks[..n];
    }
  }

  /** struct dirent. */
  function Dirent(inum: nat, name: seq<Byte>): (r: seq<Byte>)
    requires inum < SHORT_LIMIT && |name| <= NameSpec.DIRSIZ
    ensures |r| == 16
  {
    [inum % 0x100, inum / 0x100] + name + seq(NameSpec.DIRSIZ - |name|, _ => 0)
  }

  predicate NamesFit(files: seq<HostFile>) {
    forall k :: 0 <= k < |files| ==> |files[k].name| <= NameSpec.DIRSIZ
  }

  /** The root directory: ".", "..", and an entry for each file, whose inodes are numbered from 2. */
  function Entries(files: seq<HostFile>): (r: seq<Byte>)
    requires NamesFit(files) && |files| + 2 < SHORT_LIMIT
    ensures |r| == 16 * (|files| + 2)
  {
    if files == [] then Dirent(NameSpec.ROOTINO, [46]) + Dirent(NameSpec.ROOTINO, [46, 46])
    else Entries(files[..|files| - 1]) + Dirent(|files| + 1, files[|files| - 1].name)
  }

  /** Inode i is in use and reads as c. */
  ghost predicate Reads(v: View, i: nat, c: seq<Byte>) {
    && i < |v.tab| && v.tab[i].typ != 0
    && |v.tab[i].addrs| == 13 && v.tab[i].addrs[INDIRECT] < |v.store| && v.tab[i].size <= MAXFILE * BSIZE
    && Content(v.store, v.tab[i]) == c
  }

  lemma ReadsSame(g: Geo, v: View, x: View, s: set<nat>, j: nat, c: seq<Byte>)
    requires OnlyChanges(g, v, x, s) && Reads(v, j, c) && j !in s
    ensures Reads(x, j, c)
  {
    assert FileOk(x.store, x.tab[j]);
    assert SameFile(v.store, v.tab[j], x.store, x.tab[j]);
  }

  lemma ReadsAppended(g: Geo, v: View, x: View, i: nat, c: seq<Byte>, src: seq<Byte>)
    requires Reads(v, i, c) && WriteDone(g, v, x, i, |c|, src)
    ensures Reads(x, i, c + src) && OnlyChanges(g, v, x, {i})
  {
    assert FileOk(x.store, x.tab[i]);
    assert Splice(c, |c|, src) == c + src;
  }

  ghost predicate FileHeld(v: View, files: seq<HostFile>, k: nat)
    requires k < |files|
  {
    Reads(v, k + 2, Concat(files[k].chunks))
  }

  /** Files 0 .. |files| of the list are in the image, and so are their directory entries. */
  ghost predicate Holds(v: View, files: seq<HostFile>) {
    && NamesFit(files) && |files| + 2 < SHORT_LIMIT && Reads(v, NameSpec.ROOTINO, Entries(files))
    && forall k :: 0 <= k < |files| ==> FileHeld(v, files, k)
  }

  /** A file that none of three steps changes. */
  lemma ReadsThrough(g: Geo, v: View, w: View, x: View, y: View, n: nat, j: nat, c: seq<Byte>)
    requires OnlyChanges(g, v, w, {n}) && OnlyChanges(g, w, x, {NameSpec.ROOTINO}) && OnlyChanges(g, x, y, {n})
    requires Reads(v, j, c) && j != n && j != NameSpec.ROOTINO
    ensures Reads(y, j, c)
  {
    ReadsSame(g, v, w, {n}, j, c);
    ReadsSame(g, w, x, {NameSpec.ROOTINO}, j, c);
    ReadsSame(g, x, y, {n}, j, c);
  }

  /** Another file, after its inode, its entry and its bytes. */
  lemma {:induction false} HoldsAdded(g: Geo, v: View, w: View, x: View, y: View, files: seq<HostFile>, f: HostFile)
    requires Holds(v, files) && |f.name| <= NameSpec.DIRSIZ && |files| + 3 < SHORT_LIMIT
    requires OnlyChanges(g, v, w, {|files| + 2}) && OnlyChanges(g, w, x, {NameSpec.ROOTINO}) && OnlyChanges(g, x, y, {|files| + 2})
    requires Reads(y, NameSpec.ROOTINO, Entries(files) + Dirent(|files| + 2, f.name)) && Reads(y, |files| + 2, Concat(f.chunks))
    ensures Holds(y, files + [f])
  {
    var all := files + [f];
    assert all[..|files|] == files;
    assert Entries(all) == Entries(files) + Dirent(|files| + 2, f.name);
    forall k | 0 <= k < |all| ensures FileHeld(y, all, k) {
      if k < |files| {
        assert FileHeld(v, files, k);
        ReadsThrough(g, v, w, x, y, |files| + 2, k + 2, Concat(files[k].chunks));
      }
    }
  }

  lemma FinishOther(g: Geo, v: View, j: nat, c: seq<Byte>)
    requires ViewOk(g, v, -1) && NameSpec.ROOTINO < |v.tab| && Reads(v, j, c) && j != NameSpec.ROOTINO
    requires InodeRange(v.tab[NameSpec.ROOTINO].(size := Rounded(v.tab[NameSpec.ROOTINO].size)))
    ensures Reads(Finished(g, v, NameSpec.ROOTINO), j, c)
  {
    var z := Finished(g, v, NameSpec.ROOTINO);
    SavedSame(g, v, z.(tab := v.tab), 0, j);
  }

  lemma FinishRoot(g: Geo, v: View, c: seq<Byte>)
    requires ViewOk(g, v, -1) && Reads(v, NameSpec.ROOTINO, c)
    requires InodeRange(v.tab[NameSpec.ROOTINO].(size := Rounded(v.tab[NameSpec.ROOTINO].size)))
    requires Rounded(v.tab[NameSpec.ROOTINO].size) <= MAXFILE * BSIZE
    ensures var z := Finished(g, v, NameSpec.ROOTINO); c <= Content(z.store, z.tab[NameSpec.ROOTINO])
  {
    var z := Finished(g, v, NameSpec.ROOTINO);
    SavedSame(g, v, z.(tab := v.tab), 0, NameSpec.ROOTINO);
    var e, d := Content(z.store, v.tab[NameSpec.ROOTINO]), Content(z.store, z.tab[NameSpec.ROOTINO]);
    assert e == c;
    forall k | 0 <= k < |e| ensures e[k] == d[k] {
      assert e[k] == ByteAt(z.store, v.tab[NameSpec.ROOTINO], k) && d[k] == ByteAt(z.store, z.tab[NameSpec.ROOTINO], k);
    }
    assert e == d[..|e|];
  }

  /** The files survive the last step; the root directory keeps its entries. */
  lemma {:induction false} FinishHolds(g: Geo, v: View, files: seq<HostFile>)
    requires ViewOk(g, v, -1) && Holds(v, files) && v.tab[NameSpec.ROOTINO].size % BSIZE != 0
    ensures InodeRange(v.tab[NameSpec.ROOTINO].(size := Rounded(v.tab[NameSpec.ROOTINO].size)))
    ensures var z := Finished(g, v, NameSpec.ROOTINO);
            && (forall k :: 0 <= k < |files| ==> FileHeld(z, files, k))
            && z.tab[NameSpec.ROOTINO].size <= MAXFILE * BSIZE
            && Entries(files) <= Content(z.store, z.tab[NameSpec.ROOTINO])
  {
    Starts(g, v, NameSpec.ROOTINO);
    FinishRoot(g, v, Entries(files));
    forall k | 0 <= k < |files| ensures FileHeld(Finished(g, v, NameSpec.ROOTINO), files, k) {
      assert FileHeld(v, files, k);
      FinishOther(g, v, k + 2, Concat(files[k].chunks));
    }
  }

  /** A finished image of the files: consistent exactly when the entries do not fill whole blocks, and then the
      files and their entries are there. */
  ghost predicate Complete(g: Geo, z: View, files: seq<HostFile>) {
    && (ViewOk(g, z, -1) <==> (|files| + 2) % 64 != 0)
    && ((|files| + 2) % 64 != 0 ==>
          && (forall k :: 0 <= k < |files| ==> FileHeld(z, files, k))
          && NamesFit(files) && |files| + 2 < SHORT_LIMIT && NameSpec.ROOTINO < |z.tab|
          && |z.tab[NameSpec.ROOTINO].addrs| == 13 && z.tab[NameSpec.ROOTINO].addrs[INDIRECT] < |z.store|
          && z.tab[NameSpec.ROOTINO].size <= MAXFILE * BSIZE
          && Entries(files) <= Content(z.store, z.tab[NameSpec.ROOTINO]))
  }

  lemma {:induction false} FinishComplete(g: Geo, v: View, files: seq<HostFile>)
    requires ViewOk(g, v, -1) && AllTight(v) && Holds(v, files)
    ensures InodeRange(v.tab[NameSpec.ROOTINO].(size := Rounded(v.tab[NameSpec.ROOTINO].size)))
    ensures Complete(g, Finished(g, v, NameSpec.ROOTINO), files)
  {
    FinishIff(g, v, NameSpec.ROOTINO);
    EntriesFill(|files| + 2);
    assert v.tab[NameSpec.ROOTINO].size == |Entries(files)|;
    if (|files| + 2) % 64 != 0 {
      FinishHolds(g, v, files);
    }
  }

  lemma EntriesFill(n: nat)
    ensures 16 * n % BSIZE == 0 <==> n % 64 == 0
  {
  }

  /** One more bit of a bitmap that lies in one block. */
  lemma MarkNext(g: Geo, store: Disk, buf: Block, n: nat)
    requires GeoOk(g) && |store| == g.size && n < g.size && n < BPB
    requires store[g.bmapstart := buf] == Marked(g, store, n)
    ensures store[g.bmapstart := buf[n / 8 := StoreByte(buf[n / 8], n % 8, true)]] == Marked(g, store, n + 1)
  {
    assert BitmapBlock(g, n) == g.bmapstart;
  }

  /** Writing the root inode, then the bitmap. */
  lemma FinishedIs(g: Geo, store: Disk, fb: nat, tab: seq<Inode>, owner: Owner, logged: set<nat>, y: Inode)
    requires InOrder(g, store, owner, fb) && NameSpec.ROOTINO < |tab| && g.ninodes == |tab| && InodeRange(y)
    requires y == tab[NameSpec.ROOTINO].(size := Rounded(tab[NameSpec.ROOTINO].size))
    ensures var store' := PutInode(g, store, NameSpec.ROOTINO, y);
            && InOrder(g, store', owner, fb)
            && Marked(g, store', fb) == Finished(g, Seen(g, store, fb, tab, owner, logged), NameSpec.ROOTINO).store
  {
    var c := InodeBlock(g, NameSpec.ROOTINO);
    assert c < g.bmapstart;
    MarkedElsewhere(g, store, fb, c);
    MarkedPut(g, store, fb, c, EncodeInode(store[c], NameSpec.ROOTINO % IPB, y, 16));
  }

  // ---------------------------------------------------------------- how many blocks it takes

  /** The blocks of a file of n bytes: one for each block of bytes, and the indirect block if they are more than NDIRECT. */
  function BlocksFor(n: nat): nat {
    Up(n) + if Up(n) > NDIRECT then 1 else 0
  }

  lemma BlocksGrow(m: nat, n: nat)
    requires m <= n
    ensures BlocksFor(m) <= BlocksFor(n)
  {
  }

  /** With fb the next block, does the disk have what it takes to grow a file from m to n bytes? */
  predicate Enough(g: Geo, fb: nat, m: nat, n: nat) {
    fb + BlocksFor(n) <= g.size + BlocksFor(m)
  }

  /** And is a file of n bytes not too long? */
  predicate Room(g: Geo, fb: nat, m: nat, n: nat) {
    n <= MAXFILE * BSIZE && Enough(g, fb, m, n)
  }

  /** Growing a file from m to n bytes took the next block from fb to fb'. */
  predicate Took(fb: nat, fb': nat, m: nat, n: nat) {
    fb' + BlocksFor(m) == fb + BlocksFor(n)
  }

  lemma TookRoom(g: Geo, fb: nat, fb': nat, m: nat, n: nat)
    requires Took(fb, fb', m, n) && fb' <= g.size && n <= MAXFILE * BSIZE
    ensures Room(g, fb, m, n)
  {
  }

  lemma TookMore(g: Geo, fb: nat, fb': nat, fb'': nat, a: nat, b: nat, c: nat, d: nat)
    requires Took(fb, fb', a, b) && c <= d
    ensures Took(fb', fb'', b, c) ==> Took(fb, fb'', a, c)
    ensures !Room(g, fb', b, c) ==> !Room(g, fb, a, d)
  {
    BlocksGrow(c, d);
  }

  /** A turn from b to c bytes, which takes need blocks, of an append from a to d bytes that started with fb the next block. */
  lemma Priced(g: Geo, fb: nat, fb': nat, fb'': nat, need: nat, a: nat, b: nat, c: nat, d: nat, ok: bool)
    requires Took(fb, fb', a, b) && c <= d && need + BlocksFor(b) == BlocksFor(c)
    requires (ok <==> fb' + need <= g.size) && (ok ==> fb'' == fb' + need)
    ensures if ok then Took(fb, fb'', a, c) else !Enough(g, fb, a, d)
  {
    BlocksGrow(c, d);
  }

  /** No file has an indirect block that it does not need. */
  ghost predicate Snug(tab: seq<Inode>) {
    forall j :: 0 <= j < |tab| ==> |tab[j].addrs| == 13 && (tab[j].size <= NDIRECT * BSIZE ==> tab[j].addrs[INDIRECT] == 0)
  }

  /** How many blocks it takes to give inode i its file block bn. */
  ghost function Price(v: View, i: nat, bn: nat): nat
    requires i < |v.tab| && |v.tab[i].addrs| == 13 && v.tab[i].addrs[INDIRECT] < |v.store| && bn < MAXFILE
  {
    if At(v.store, v.tab[i], Pos(bn)) != 0 then 0 else if bn < NDIRECT || v.tab[i].addrs[INDIRECT] != 0 then 1 else 2
  }

  /** The indirect block comes with the first file block that needs it. */
  ghost predicate IndirectGained(x: Inode, y: Inode, bn: nat) {
    |x.addrs| == |y.addrs| == 13 && if bn < NDIRECT then y.addrs[INDIRECT] == x.addrs[INDIRECT] else y.addrs[INDIRECT] != 0
  }

  /** Inode i has its indirect block exactly if its first n bytes need it. */
  ghost predicate IndirectIs(tab: seq<Inode>, i: nat, n: nat) {
    i < |tab| && |tab[i].addrs| == 13 && (tab[i].addrs[INDIRECT] != 0 <==> Up(n) > NDIRECT)
  }

  lemma IndirectStarts(g: Geo, v: View, i: nat)
    requires ViewOk(g, v, i) && i < |v.tab| && Snug(v.tab)
    ensures IndirectIs(v.tab, i, v.tab[i].size)
  {
    assert FileOk(v.store, v.tab[i]);
    if v.tab[i].size > NDIRECT * BSIZE {
      assert At(v.store, v.tab[i], Pos(NDIRECT)) != 0;
    }
  }

  /** The m bytes from n on, in one block: it is new exactly if they start it, and the first past NDIRECT brings the indirect block. */
  lemma TurnBlocksFor(n: nat, m: nat)
    requires m > 0 && n % BSIZE + m <= BSIZE
    ensures BlocksFor(n + m) - BlocksFor(n) == if n % BSIZE != 0 then 0 else if n / BSIZE == NDIRECT then 2 else 1
    ensures n % BSIZE == 0 ==> Up(n) == n / BSIZE
  {
  }

  /** The file block of the next byte is there exactly if the byte does not start it. */
  lemma NextIsNew(g: Geo, v: View, w: View, i: nat, src: seq<Byte>, tot: nat, m: nat)
    requires i < |v.tab| && Written(g, v, w, i, v.tab[i].size, src, tot) && Tight(v.store, v.tab[i])
    requires Turn(v.tab[i].size, tot, m, |src|) && (v.tab[i].size + tot) / BSIZE < MAXFILE
    ensures At(w.store, w.tab[i], Pos((v.tab[i].size + tot) / BSIZE)) == 0 <==> (v.tab[i].size + tot) % BSIZE == 0
  {
    var off := v.tab[i].size;
    var bn := (off + tot) / BSIZE;
    TurnBlocks(off, tot, m, |src|, bn);
    assert FileOk(v.store, v.tab[i]);
    assert !Touches(off, tot, bn);
    assert At(w.store, w.tab[i], Pos(bn)) == At(v.store, v.tab[i], Pos(bn));
    assert At(v.store, v.tab[i], Pos(bn)) != 0 <==> bn * BSIZE < off;
  }

  /** What a turn of iappend's loop takes. */
  lemma PriceOf(g: Geo, v: View, w: View, i: nat, off: nat, src: seq<Byte>, tot: nat, end: nat) returns (need: nat)
    requires i < |v.tab| && v.tab[i].size == off && Written(g, v, w, i, off, src, tot) && Tight(v.store, v.tab[i]) && tot < end
    requires Turn(off, tot, end - tot, |src|) && IndirectIs(w.tab, i, off + tot) && (off + tot) / BSIZE < MAXFILE
    ensures need == Price(w, i, (off + tot) / BSIZE) && need + BlocksFor(off + tot) == BlocksFor(off + end)
  {
    need := Price(w, i, (off + tot) / BSIZE);
    NextIsNew(g, v, w, i, src, tot, end - tot);
    TurnBlocksFor(off + tot, end - tot);
  }

  /** Bytes n to end, in one block: the indirect block is needed for them exactly from file block NDIRECT on. */
  lemma IndirectNext(n: nat, end: nat)
    requires n < end && n % BSIZE + (end - n) <= BSIZE
    ensures n / BSIZE >= NDIRECT <==> Up(end) > NDIRECT
    ensures n / BSIZE < NDIRECT ==> Up(n) <= NDIRECT
  {
  }

  function Size(f: HostFile): nat {
    |Concat(f.chunks)|
  }

  /** The blocks of the files, and those of the root directory with them. */
  function NeedFiles(files: seq<HostFile>): nat {
    if files == [] then 0 else NeedFiles(files[..|files| - 1]) + BlocksFor(Size(files[|files| - 1]))
  }

  function Need(files: seq<HostFile>): nat {
    BlocksFor(16 * (|files| + 2)) + NeedFiles(files)
  }

  /** Names, files and the root directory are not too long, and the disk has the blocks for them. */
  ghost predicate Fits(g: Geo, files: seq<HostFile>) {
    && NamesFit(files) && 16 * (|files| + 2) <= MAXFILE * BSIZE
    && (forall k :: 0 <= k < |files| ==> Size(files[k]) <= MAXFILE * BSIZE)
    && g.nmeta + Need(files) <= g.size
  }

  /** What fits, fits in part. */
  lemma FitsPart(g: Geo, files: seq<HostFile>, n: nat)
    requires n <= |files| && Fits(g, files)
    ensures Fits(g, files[..n])
  {
    NeedPart(files, n);
    BlocksGrow(16 * (n + 2), 16 * (|files| + 2));
  }

  lemma NextPart(g: Geo, files: seq<HostFile>, n: nat)
    requires n < |files|
    ensures files[..n + 1] == files[..n] + [files[n]] && (Fits(g, files) ==> Fits(g, files[..n + 1]))
  {
    if Fits(g, files) {
      FitsPart(g, files, n + 1);
    }
  }

  lemma {:induction false} NeedPart(files: seq<HostFile>, n: nat)
    requires n <= |files|
    ensures NeedFiles(files[..n]) <= NeedFiles(files)
  {
    if n == |files| {
      assert files[..n] == files;
    } else {
      NeedPart(files[..|files| - 1], n);
      assert files[..|files| - 1][..n] == files[..n];
    }
  }

  /** One more file takes its own blocks, and what its entry takes. */
  lemma FitsOne(g: Geo, files: seq<HostFile>, f: HostFile)
    requires Fits(g, files)
    ensures var a, b := 16 * (|files| + 2), 16 * (|files| + 3);
            && Need(files + [f]) + BlocksFor(a) == Need(files) + BlocksFor(b) + BlocksFor(Size(f))
            && (Fits(g, files + [f]) <==>
                  && |f.name| <= NameSpec.DIRSIZ && b <= MAXFILE * BSIZE && Size(f) <= MAXFILE * BSIZE
                  && g.nmeta + Need(files + [f]) <= g.size)
  {
    var all := files + [f];
    assert all[..|files|] == files && all[|files|] == f;
    assert forall k :: 0 <= k < |files| ==> all[k] == files[k];
  }

  /** Two appends, one to the root directory and one to a new file, go through exactly if one more file fits. */
  lemma AddFits(g: Geo, files: seq<HostFile>, f: HostFile, fb: nat, fb': nat, fb'': nat, entered: bool, ok: bool)
    requires Fits(g, files) && |f.name| <= NameSpec.DIRSIZ && fb == g.nmeta + Need(files)
    requires entered <==> Room(g, fb, 16 * (|files| + 2), 16 * (|files| + 3))
    requires entered ==> Took(fb, fb', 16 * (|files| + 2), 16 * (|files| + 3))
    requires ok <==> entered && Room(g, fb', 0, Size(f))
    requires ok ==> Took(fb', fb'', 0, Size(f))
    ensures ok <==> Fits(g, files + [f])
    ensures ok ==> fb'' == g.nmeta + Need(files + [f])
  {
    FitsOne(g, files, f);
    assert BlocksFor(0) == 0;
  }

  class Image {
    const g: Geo
    var store: Disk
    var freeblock: nat
    var freeinode: nat
    ghost var tab: seq<Inode>
    ghost var owner: Owner
    ghost var logged: set<nat>

    /** The image as it would be with the bitmap written now. */
    ghost function Now(): View
      requires InOrder(g, store, owner, freeblock)
      reads this
    {
      Seen(g, store, freeblock, tab, owner, logged)
    }

    /** The image while inode t is being changed. */
    ghost predicate Building(t: int)
      reads this
    {
      && InOrder(g, store, owner, freeblock) && ViewOk(g, Now(), t) && 1 <= freeinode
      && forall j :: freeinode <= j < |tab| ==> tab[j].typ == 0
    }

    /** A block in order becomes direct block p, or the indirect block, of inode i. */
    method TakeBlock(i: nat, din: Inode, p: nat, ghost bn: nat) returns (din': Inode)
      requires Building(i) && i < |tab| && tab[i] == din && din.typ != 0 && p <= INDIRECT && din.addrs[p] == 0
      requires freeblock < g.size && bn < MAXFILE && (if p < INDIRECT then p == bn else bn >= NDIRECT)
      modifies this
      ensures Building(i) && |tab| == old(|tab|) && tab[i] == din' && din' == din.(addrs := din.addrs[p := old(freeblock)])
      ensures Grown(g, old(Now()), Now(), i, bn) && GrownLog(g, old(Now()), Now(), i, bn)
      ensures p == INDIRECT ==> At(Now().store, tab[i], Pos(bn)) == 0
      ensures freeinode == old(freeinode) && freeblock == old(freeblock) + 1
    {
      SeenTake(g, store, freeblock, tab, owner, logged, i, p, bn);
      ghost var w := Seen(g, store, freeblock + 1, SetAddr(tab, i, p, freeblock), owner[freeblock := (i, p)],
                          logged + {BitmapBlock(g, freeblock), freeblock});
      din' := din.(addrs := din.addrs[p := freeblock]);
      tab, owner := SetAddr(tab, i, p, freeblock), owner[freeblock := (i, p)];
      logged := logged + {BitmapBlock(g, freeblock), freeblock};
      freeblock := freeblock + 1;
      assert Now() == w;
    }

    /** A block in order becomes the entry for file block bn in inode i's indirect block. */
    method TakeEntryBlock(i: nat, din: Inode, bn: nat)
      requires Building(i) && i < |tab| && tab[i] == din && din.typ != 0 && NDIRECT <= bn < MAXFILE
      requires din.addrs[INDIRECT] != 0 && At(Now().store, din, Pos(bn)) == 0 && freeblock < g.size
      modifies this
      ensures Building(i) && tab == old(tab) && freeinode == old(freeinode) && freeblock == old(freeblock) + 1
      ensures Grown(g, old(Now()), Now(), i, bn) && GrownLog(g, old(Now()), Now(), i, bn)
      ensures At(Now().store, tab[i], Pos(bn)) != 0
    {
      var ind := din.addrs[INDIRECT];
      SeenEntry(g, store, freeblock, tab, owner, logged, i, bn, PutWord(store[ind], bn - NDIRECT, freeblock));
      ghost var w := Seen(g, store[ind := PutWord(store[ind], bn - NDIRECT, freeblock)], freeblock + 1, tab,
                          owner[freeblock := (i, Pos(bn))], logged + {BitmapBlock(g, freeblock), freeblock} + {ind});
      store := store[ind := PutWord(store[ind], bn - NDIRECT, freeblock)];
      owner := owner[freeblock := (i, Pos(bn))];
      logged := logged + {BitmapBlock(g, freeblock), freeblock} + {ind};
      freeblock := freeblock + 1;
      assert Now() == w;
    }

    /** iappend's block map: file block bn of din, taken in order if it is new. Fails when the image is full. */
    method MapBlock(i: nat, din: Inode, bn: nat) returns (ok: bool, din': Inode)
      requires Building(i) && i < |tab| && tab[i] == din && din.typ != 0 && bn < MAXFILE
      modifies this
      ensures ok ==> Building(i) && |tab| == old(|tab|) && tab[i] == din' && din'.typ != 0 && freeinode == old(freeinode)
      ensures ok ==> Grown(g, old(Now()), Now(), i, bn) && GrownLog(g, old(Now()), Now(), i, bn)
      ensures ok ==> At(Now().store, tab[i], Pos(bn)) != 0
      ensures ok <==> old(freeblock) + Price(old(Now()), i, bn) <= g.size
      ensures ok ==> freeblock == old(freeblock) + Price(old(Now()), i, bn) && IndirectGained(din, din', bn)
    {
      ok, din' := true, din;
      if bn < NDIRECT {
        if din.addrs[bn] == 0 {
          if freeblock == g.size {
            return false, din;
          }
          din' := TakeBlock(i, din, bn, bn);
        }
      } else {
        ok, din' := MapIndirect(i, din, bn);
      }
    }

    method MapIndirect(i: nat, din: Inode, bn: nat) returns (ok: bool, din': Inode)
      requires Building(i) && i < |tab| && tab[i] == din && din.typ != 0 && NDIRECT <= bn < MAXFILE
      modifies this
      ensures ok ==> Building(i) && |tab| == old(|tab|) && tab[i] == din' && din'.typ != 0 && freeinode == old(freeinode)
      ensures ok ==> Grown(g, old(Now()), Now(), i, bn) && GrownLog(g, old(Now()), Now(), i, bn)
      ensures ok ==> At(Now().store, tab[i], Pos(bn)) != 0
      ensures ok <==> old(freeblock) + Price(old(Now()), i, bn) <= g.size
      ensures ok ==> freeblock == old(freeblock) + Price(old(Now()), i, bn) && IndirectGained(din, din', bn)
    {
      din' := din;
      if din.addrs[NDIRECT] == 0 {
        if freeblock == g.size {
          return false, din;
        }
        din' := TakeBlock(i, din, NDIRECT, bn);
      }
      ok := MapEntry(i, din', bn, old(Now()));
    }

    /** The lookup in an indirect block that exists, after what was done to v. */
    method MapEntry(i: nat, din: Inode, bn: nat, ghost v: View) returns (ok: bool)
      requires Building(i) && i < |tab| == |v.tab| && tab[i] == din && din.typ != 0 && NDIRECT <= bn < MAXFILE
      requires din.addrs[INDIRECT] != 0 && ViewOk(g, v, i)
      requires v == Now() || (&& v.tab[i].addrs[INDIRECT] == 0 == At(Now().store, tab[i], Pos(bn))
                              && Grown(g, v, Now(), i, bn) && GrownLog(g, v, Now(), i, bn))
      modifies this
      ensures ok ==> Building(i) && tab == old(tab) && freeinode == old(freeinode)
      ensures ok ==> Grown(g, v, Now(), i, bn) && GrownLog(g, v, Now(), i, bn)
      ensures ok ==> At(Now().store, tab[i], Pos(bn)) != 0
      ensures ok <==> old(freeblock) + Price(old(Now()), i, bn) <= g.size
      ensures ok ==> freeblock == old(freeblock) + Price(old(Now()), i, bn)
    {
      ghost var mid := Now();
      var ind := din.addrs[INDIRECT];
      InDataArea(g, mid.store, mid.tab, mid.owner, 0, 0, i, INDIRECT);
      MarkedElsewhere(g, store, freeblock, ind);
      if GetWord(store[ind], bn - NDIRECT) == 0 {
        if freeblock == g.size {
          return false;
        }
        TakeEntryBlock(i, din, bn);
        if v != mid {
          GrownTwice(g, v, mid, Now(), i, bn);
        }
      }
      ok := true;
    }

    /** The image between the steps of main. */
    ghost predicate Built()
      reads this
    {
      Building(-1) && AllTight(Now()) && Snug(tab)
    }

    /** One turn of iappend's loop, which started with fb the next block. */
    method AppendBlock(i: nat, din: Inode, off: nat, src: seq<Byte>, tot: nat, ghost v: View, ghost fb: nat)
      returns (ok: bool, tot': nat, din': Inode)
      requires Appended(i, din, off, src, tot, v, fb) && tot < |src| && off + |src| <= MAXFILE * BSIZE
      modifies this
      ensures tot < tot' <= |src|
      ensures if ok then Appended(i, din', off, src, tot', v, fb) && freeinode == old(freeinode) else !Enough(g, fb, off, off + |src|)
    {
      ghost var fb', need := freeblock, 0;
      ok, tot', din', need := AppendNext(i, din, off, src, tot, v);
      Priced(g, fb, fb', freeblock, need, off, off + tot, off + tot', off + |src|, ok);
    }

    /** The next bytes, as many as their block takes, and how many blocks that needs. */
    method AppendNext(i: nat, din: Inode, off: nat, src: seq<Byte>, tot: nat, ghost v: View)
      returns (ok: bool, tot': nat, din': Inode, ghost need: nat)
      requires Appending(i, din, off, src, tot, v) && tot < |src| && off + |src| <= MAXFILE * BSIZE
      modifies this
      ensures tot < tot' <= |src| && need + BlocksFor(off + tot) == BlocksFor(off + tot')
      ensures ok ==> Appending(i, din', off, src, tot', v) && freeinode == old(freeinode)
      ensures (ok <==> old(freeblock) + need <= g.size) && (ok ==> freeblock == old(freeblock) + need)
    {
      tot' := NextEnd(off, tot, |src|);
      need := PriceOf(g, v, Now(), i, off, src, tot, tot');
      ok, din' := AppendChunk(i, din, off, src, tot, tot', v, need);
    }

    /** How far the block of the next byte takes the rest. */
    method NextEnd(off: nat, tot: nat, n: nat) returns (end: nat)
      requires tot < n && (tot == 0 || (off + tot) % BSIZE == 0) && off + n <= MAXFILE * BSIZE
      ensures tot < end <= n && Turn(off, tot, end - tot, n) && (off + tot) / BSIZE < MAXFILE && (end < n ==> (off + end) % BSIZE == 0)
    {
      end := tot + Chunk(off, tot, n);
      ChunkTurn(off, tot, n);
    }

    /** The next bytes, up to end, in a block that takes need blocks. */
    method AppendChunk(i: nat, din: Inode, off: nat, src: seq<Byte>, tot: nat, end: nat, ghost v: View, ghost need: nat)
      returns (ok: bool, din': Inode)
      requires Appending(i, din, off, src, tot, v) && tot < end && Turn(off, tot, end - tot, |src|) && (off + tot) / BSIZE < MAXFILE
      requires (end < |src| ==> (off + end) % BSIZE == 0) && need == Price(Now(), i, (off + tot) / BSIZE)
      modifies this
      ensures ok ==> Appending(i, din', off, src, end, v) && freeinode == old(freeinode)
      ensures (ok <==> old(freeblock) + need <= g.size) && (ok ==> freeblock == old(freeblock) + need)
    {
      IndirectNext(off + tot, off + end);
      ok, din' := StoreBlock(i, din, off, src, tot, end, v);
    }

    /** The block for the next bytes, up to end, and the bytes in it. */
    method StoreBlock(i: nat, din: Inode, off: nat, src: seq<Byte>, tot: nat, end: nat, ghost v: View) returns (ok: bool, din': Inode)
      requires Building(i) && i < |tab| && tab[i] == din && Written(g, v, Now(), i, off, src, tot)
      requires tot < end && Turn(off, tot, end - tot, |src|) && (off + tot) / BSIZE < MAXFILE
      modifies this
      ensures ok ==> Building(i) && i < |tab| && tab[i] == din' && freeinode == old(freeinode)
      ensures ok ==> Written(g, v, Now(), i, off, src, end)
      ensures ok <==> old(freeblock) + Price(old(Now()), i, (off + tot) / BSIZE) <= g.size
      ensures ok ==> freeblock == old(freeblock) + Price(old(Now()), i, (off + tot) / BSIZE) && IndirectGained(din, din', (off + tot) / BSIZE)
    {
      var x;
      ok, din', x := MapNext(i, din, off, src, tot, end, v);
      if ok {
        Wsect(x, (off + tot) % BSIZE, src[tot..end]);
      }
    }

    /** The block x for the next m bytes of src. */
    method MapNext(i: nat, din: Inode, off: nat, src: seq<Byte>, tot: nat, ghost end: nat, ghost v: View)
      returns (ok: bool, din': Inode, x: nat)
      requires Building(i) && i < |tab| && tab[i] == din && Written(g, v, Now(), i, off, src, tot)
      requires tot < end && Turn(off, tot, end - tot, |src|) && (off + tot) / BSIZE < MAXFILE
      modifies this
      ensures ok ==> Building(i) && i < |tab| && tab[i] == din' && freeinode == old(freeinode) && g.nmeta <= x < freeblock
      ensures ok ==> Written(g, v, Put(Now(), x, (off + tot) % BSIZE, src[tot..end]), i, off, src, end)
      ensures ok <==> old(freeblock) + Price(old(Now()), i, (off + tot) / BSIZE) <= g.size
      ensures ok ==> freeblock == old(freeblock) + Price(old(Now()), i, (off + tot) / BSIZE) && IndirectGained(din, din', (off + tot) / BSIZE)
    {
      ghost var w := Now();
      var bn := (off + tot) / BSIZE;
      ok, din' := MapBlock(i, din, bn);
      x := 0;
      if ok {
        MappedAt(g, store, freeblock, tab, owner, logged, i, bn);
        x := if bn < NDIRECT then din'.addrs[bn] else GetWord(store[din'.addrs[NDIRECT]], bn - NDIRECT);
        WrittenTo(g, v, w, Now(), i, off, src, tot, end);
      }
    }

    /** rsect, bcopy and wsect of part of a data block. */
    method Wsect(x: nat, at: nat, bytes: seq<Byte>)
      requires InOrder(g, store, owner, freeblock) && g.nmeta <= x < freeblock && at + |bytes| <= BSIZE
      modifies this`store, this`logged
      ensures InOrder(g, store, owner, freeblock) && Now() == Put(old(Now()), x, at, bytes)
    {
      SeenPut(g, store, freeblock, tab, owner, logged, x, at, bytes);
      store := store[x := Overwrite(store[x], at, bytes)];
      logged := logged + {x};
    }

    /** winode: inode i, as the builder has it, goes to the image. */
    method Winode(i: nat, din: Inode)
      requires Building(i) && i < |tab| && tab[i] == din && AllTight(Now()) && Snug(tab)
      modifies this`store
      ensures Built() && forall b :: g.nmeta <= b < g.size ==> Now().store[b] == old(Now()).store[b]
    {
      SeenInode(g, store, freeblock, tab, owner, logged, i);
      ghost var x, y := Now(), Seen(g, PutInode(g, store, i, din), freeblock, tab, owner, logged);
      SavedTight(g, x, y, i);
      store := PutInode(g, store, i, din);
      assert Now() == y;
    }

    /** Where iappend's loop stands after tot bytes. */
    ghost predicate Appending(i: nat, din: Inode, off: nat, src: seq<Byte>, tot: nat, v: View)
      reads this
    {
      && Building(i) && i < |tab| && tab[i] == din && Written(g, v, Now(), i, off, src, tot)
      && (tot < |src| ==> tot == 0 || (off + tot) % BSIZE == 0)
      && v.tab[i].size == off && Tight(v.store, v.tab[i]) && IndirectIs(tab, i, off + tot)
    }

    /** iappend's loop. */
    method AppendBlocks(i: nat, din: Inode, src: seq<Byte>) returns (ok: bool, din': Inode)
      requires Building(i) && i < |tab| && tab[i] == din && din.typ != 0 && din.size + |src| <= MAXFILE * BSIZE
      requires AllTight(Now()) && Snug(tab)
      modifies this
      ensures ok ==> Appending(i, din', din.size, src, |src|, old(Now())) && freeinode == old(freeinode)
      ensures ok <==> Enough(g, old(freeblock), din.size, din.size + |src|)
      ensures ok ==> Took(old(freeblock), freeblock, din.size, din.size + |src|)
    {
      AppendStarts(i, din, src);
      ok, din' := AppendRest(i, din, din.size, src, Now());
    }

    lemma AppendStarts(i: nat, din: Inode, src: seq<Byte>)
      requires Building(i) && i < |tab| && tab[i] == din && din.typ != 0 && din.size + |src| <= MAXFILE * BSIZE
      requires AllTight(Now()) && Snug(tab)
      ensures Appending(i, din, din.size, src, 0, Now())
    {
      WrittenNone(g, Now(), i, din.size, src);
      IndirectStarts(g, Now(), i);
    }

    /** And it has taken the blocks from fb on that the bytes take. */
    ghost predicate Appended(i: nat, din: Inode, off: nat, src: seq<Byte>, tot: nat, v: View, fb: nat)
      reads this
    {
      Appending(i, din, off, src, tot, v) && Took(fb, freeblock, off, off + tot)
    }

    method AppendRest(i: nat, din: Inode, off: nat, src: seq<Byte>, ghost v: View) returns (ok: bool, din': Inode)
      requires Appending(i, din, off, src, 0, v) && off + |src| <= MAXFILE * BSIZE
      modifies this
      ensures ok ==> Appending(i, din', off, src, |src|, v) && freeinode == old(freeinode)
      ensures ok <==> Enough(g, old(freeblock), off, off + |src|)
      ensures ok ==> Took(old(freeblock), freeblock, off, off + |src|)
    {
      ok, din' := true, din;
      ghost var fb := freeblock;
      var tot := 0;
      while tot < |src|
        invariant ok && tot <= |src| && Appended(i, din', off, src, tot, v, fb) && freeinode == old(freeinode)
      {
        ok, tot, din' := AppendBlock(i, din', off, src, tot, v, fb);
        if !ok {
          return;
        }
      }
    }

    /** iappend: src goes to the end of inode i. It gives up exactly on a file that would be too long, and on an image without the
        blocks that it takes. */
    method Iappend(i: nat, src: seq<Byte>) returns (ok: bool)
      requires Built() && i < |tab| && tab[i].typ != 0
      modifies this
      ensures ok ==> Built() && WriteDone(g, old(Now()), Now(), i, old(tab[i].size), src) && freeinode == old(freeinode)
      ensures ok <==> Room(g, old(freeblock), old(tab[i].size), old(tab[i].size) + |src|)
      ensures ok ==> Took(old(freeblock), freeblock, old(tab[i].size), old(tab[i].size) + |src|)
    {
      ghost var v := Now();
      Starts(g, v, i);
      assert InodeBlock(g, i) < g.bmapstart;
      MarkedElsewhere(g, store, freeblock, InodeBlock(g, i));
      var din := DInode(g, store, i);
      assert tab[i] == DInode(g, v.store, i) == din;
      if din.size + |src| > MAXFILE * BSIZE {
        return false;
      }
      ok, din := AppendBlocks(i, din, src);
      if ok {
        SaveAppended(i, din, src, v);
      }
    }

    method SaveAppended(i: nat, din: Inode, src: seq<Byte>, ghost v: View)
      requires i < |v.tab| && Appending(i, din, v.tab[i].size, src, |src|, v) && AllTight(v) && Snug(v.tab)
      modifies this
      ensures Built() && WriteDone(g, v, Now(), i, v.tab[i].size, src) && freeinode == old(freeinode) && freeblock == old(freeblock)
    {
      AppendEnds(g, v, Now(), i, src);
      ghost var x := Resized(Now(), i, v.tab[i].size + |src|);
      tab := tab[i := tab[i].(size := din.size + |src|)];
      assert Now() == x;
      Winode(i, din.(size := din.size + |src|));
      WriteSaved(g, v, x, Now(), i, v.tab[i].size, src);
    }

    /** main's first loop: every sector is zero, and nothing is allocated. */
    constructor (g: Geo)
      requires GeoOk(g)
      ensures this.g == g && Built() && freeinode == 1 && |tab| == g.ninodes && freeblock == g.nmeta
    {
      this.g := g;
      freeblock, freeinode := g.nmeta, 1;
      store := seq(g.size, _ => ZeroBlock());
      tab, owner, logged := NoInodes(g), map[], {};
      new;
      BlankOk(g);
      assert store == Blank(g);
      ghost var v := View(Marked(g, Blank(g), g.nmeta), NoInodes(g), map[], {});
      assert Now() == v;
      forall j | 0 <= j < |v.tab| ensures Tight(v.store, v.tab[j]) {}
    }

    /** ialloc: inodes in order, with one link. */
    method Ialloc(typ: nat) returns (r: nat)
      requires Built() && freeinode < g.ninodes && 0 < typ < SHORT_LIMIT
      modifies this
      ensures Built() && r == old(freeinode) && freeinode == r + 1
      ensures OnlyChanges(g, old(Now()), Now(), {r}) && Reads(Now(), r, [])
      ensures |tab| == old(|tab|) && freeblock == old(freeblock)
    {
      ghost var v := Now();
      r := freeinode;
      freeinode := freeinode + 1;
      var din := Inode(typ, 0, 0, 1, 0, NO_ADDRS);
      Starts(g, v, r);
      assert FileOk(v.store, v.tab[r]);
      Recorded(g, v, r, din);
      tab := tab[r := din];
      ghost var x := Now();
      Winode(r, din);
      RecordSaved(g, v, x, Now(), r);
    }

    /** One more chunk of a file whose bytes so far are d. */
    method AppendOne(i: nat, chunk: seq<Byte>, ghost d: seq<Byte>, ghost v: View) returns (ok: bool)
      requires Built() && Reads(Now(), i, d) && |tab| == |v.tab| && OnlyChanges(g, v, Now(), {i})
      modifies this
      ensures ok ==> Built() && freeinode == old(freeinode) && |tab| == |v.tab|
      ensures ok ==> Reads(Now(), i, d + chunk) && OnlyChanges(g, v, Now(), {i})
      ensures ok <==> Room(g, old(freeblock), |d|, |d| + |chunk|)
      ensures ok ==> Took(old(freeblock), freeblock, |d|, |d| + |chunk|)
    {
      ghost var w := Now();
      ok := Iappend(i, chunk);
      if ok {
        ReadsAppended(g, w, Now(), i, d, chunk);
        ChangesAdd(g, v, w, Now(), {i}, {i});
        assert {i} + {i} == {i};
      }
    }

    /** Appending a run of chunks to inode i, which reads as c. */
    method AppendAll(i: nat, chunks: seq<seq<Byte>>, ghost c: seq<Byte>) returns (ok: bool)
      requires Built() && Reads(Now(), i, c)
      modifies this
      ensures ok ==> Built() && freeinode == old(freeinode) && |tab| == old(|tab|)
      ensures ok ==> Reads(Now(), i, c + Concat(chunks)) && OnlyChanges(g, old(Now()), Now(), {i})
      ensures ok <==> Room(g, old(freeblock), |c|, |c| + |Concat(chunks)|)
      ensures ok ==> Took(old(freeblock), freeblock, |c|, |c| + |Concat(chunks)|)
    {
      ghost var v, fb := Now(), freeblock;
      var n := 0;
      ok := true;
      assert chunks[..0] == [] && c + [] == c;
      while n < |chunks|
        invariant ok && n <= |chunks| && AppendedAll(i, chunks, n, c, v, fb) && freeinode == old(freeinode)
      {
        ok := AppendTurn(i, chunks, n, c, v, fb);
        if !ok {
          return;
        }
        n := n + 1;
      }
      AppendedWhole(i, chunks, c, v, fb);
    }

    lemma AppendedWhole(i: nat, chunks: seq<seq<Byte>>, c: seq<Byte>, v: View, fb: nat)
      requires AppendedAll(i, chunks, |chunks|, c, v, fb)
      ensures Reads(Now(), i, c + Concat(chunks)) && Room(g, fb, |c|, |c| + |Concat(chunks)|)
      ensures Took(fb, freeblock, |c|, |c| + |Concat(chunks)|)
    {
      assert chunks[..|chunks|] == chunks;
      TookRoom(g, fb, freeblock, |c|, |c| + |Concat(chunks)|);
    }

    /** The first n chunks are there. */
    ghost predicate AppendedAll(i: nat, chunks: seq<seq<Byte>>, n: nat, c: seq<Byte>, v: View, fb: nat)
      reads this
    {
      && n <= |chunks| && Built() && |tab| == |v.tab| && Reads(Now(), i, c + Concat(chunks[..n])) && OnlyChanges(g, v, Now(), {i})
      && Took(fb, freeblock, |c|, |c| + |Concat(chunks[..n])|) && |c| + |Concat(chunks[..n])| <= MAXFILE * BSIZE
    }

    method AppendTurn(i: nat, chunks: seq<seq<Byte>>, n: nat, ghost c: seq<Byte>, ghost v: View, ghost fb: nat) returns (ok: bool)
      requires AppendedAll(i, chunks, n, c, v, fb) && n < |chunks|
      modifies this
      ensures if ok then AppendedAll(i, chunks, n + 1, c, v, fb) && freeinode == old(freeinode)
              else !Room(g, fb, |c|, |c| + |Concat(chunks)|)
    {
      ghost var d, fb' := c + Concat(chunks[..n]), freeblock;
      ConcatMore(c, chunks, n);
      ok := AppendOne(i, chunks[n], d, v);
      TookMore(g, fb, fb', freeblock, |c|, |d|, |d| + |chunks[n]|, |c| + |Concat(chunks)|);
    }

    /** An inode for a new file, and its directory entry. */
    method AddEntry(name: seq<Byte>, ghost files: seq<HostFile>) returns (ok: bool, inum: nat, ghost w: View)
      requires Built() && Holds(Now(), files) && freeinode == |files| + 2 < g.ninodes && g.ninodes < SHORT_LIMIT
      requires |name| <= NameSpec.DIRSIZ
      modifies this
      ensures inum == |files| + 2 && OnlyChanges(g, old(Now()), w, {inum})
      ensures ok ==> Built() && freeinode == |files| + 3 && |tab| == old(|tab|) && OnlyChanges(g, w, Now(), {NameSpec.ROOTINO})
      ensures ok ==> Reads(Now(), NameSpec.ROOTINO, Entries(files) + Dirent(inum, name)) && Reads(Now(), inum, [])
      ensures ok <==> Room(g, old(freeblock), 16 * (|files| + 2), 16 * (|files| + 3))
      ensures ok ==> Took(old(freeblock), freeblock, 16 * (|files| + 2), 16 * (|files| + 3))
    {
      ghost var v := Now();
      inum := Ialloc(NameSpec.T_FILE);
      w := Now();
      ReadsSame(g, v, w, {inum}, NameSpec.ROOTINO, Entries(files));
      ok := EnterName(Dirent(inum, name), Entries(files), inum, 16 * (|files| + 2), 16 * (|files| + 3));
    }

    /** An entry at the end of the root directory, which reads as c. */
    method EnterName(e: seq<Byte>, ghost c: seq<Byte>, ghost inum: nat, ghost m: nat, ghost n: nat) returns (ok: bool)
      requires |c| == m && m + |e| == n && Built() && Reads(Now(), NameSpec.ROOTINO, c) && Reads(Now(), inum, []) && inum != NameSpec.ROOTINO
      modifies this
      ensures ok ==> Built() && freeinode == old(freeinode) && |tab| == old(|tab|) && OnlyChanges(g, old(Now()), Now(), {NameSpec.ROOTINO})
      ensures ok ==> Reads(Now(), NameSpec.ROOTINO, c + e) && Reads(Now(), inum, [])
      ensures ok <==> Room(g, old(freeblock), m, n)
      ensures ok ==> Took(old(freeblock), freeblock, m, n)
    {
      ghost var w := Now();
      ok := Iappend(NameSpec.ROOTINO, e);
      if ok {
        ReadsAppended(g, w, Now(), NameSpec.ROOTINO, c, e);
        ReadsSame(g, w, Now(), {NameSpec.ROOTINO}, inum, []);
      }
    }

    /** One turn of main's loop: an inode, its directory entry, and its bytes. */
    method AddFile(f: HostFile, ghost files: seq<HostFile>) returns (ok: bool)
      requires Built() && Holds(Now(), files) && freeinode == |files| + 2 < g.ninodes && g.ninodes < SHORT_LIMIT
      requires Fits(g, files) && freeblock == g.nmeta + Need(files)
      modifies this
      ensures ok ==> Built() && Holds(Now(), files + [f]) && freeinode == |files| + 3 && |tab| == old(|tab|)
      ensures ok <==> Fits(g, files + [f])
      ensures ok ==> freeblock == g.nmeta + Need(files + [f])
    {
      if |f.name| > NameSpec.DIRSIZ {
        FitsOne(g, files, f);
        return false;
      }
      ghost var v, w, fb := Now(), Now(), freeblock;
      var inum;
      ok, inum, w := AddEntry(f.name, files);
      ghost var entered, fb' := ok, freeblock;
      if ok {
        ok := AddBytes(inum, f, files, v, w);
      }
      AddFits(g, files, f, fb, fb', freeblock, entered, ok);
    }

    /** The bytes of a new file. */
    method AddBytes(inum: nat, f: HostFile, ghost files: seq<HostFile>, ghost v: View, ghost w: View) returns (ok: bool)
      requires Built() && Holds(v, files) && inum == |files| + 2 && |files| + 3 < SHORT_LIMIT && |f.name| <= NameSpec.DIRSIZ
      requires OnlyChanges(g, v, w, {inum}) && OnlyChanges(g, w, Now(), {NameSpec.ROOTINO})
      requires Reads(Now(), NameSpec.ROOTINO, Entries(files) + Dirent(inum, f.name)) && Reads(Now(), inum, [])
      modifies this
      ensures ok ==> Built() && Holds(Now(), files + [f]) && freeinode == old(freeinode) && |tab| == old(|tab|)
      ensures ok <==> Room(g, old(freeblock), 0, Size(f))
      ensures ok ==> Took(old(freeblock), freeblock, 0, Size(f))
    {
      ghost var x := Now();
      ok := AppendAll(inum, f.chunks, []);
      if ok {
        ReadsSame(g, x, Now(), {inum}, NameSpec.ROOTINO, Entries(files) + Dirent(inum, f.name));
        assert [] + Concat(f.chunks) == Concat(f.chunks);
        HoldsAdded(g, v, w, x, Now(), files, f);
      }
    }

    /** balloc: the first used blocks are marked; one bitmap block must do. */
    method Balloc(used: nat) returns (ok: bool)
      requires GeoOk(g) && |store| == g.size && used <= g.size && store[g.bmapstart] == ZeroBlock()
      modifies this`store
      ensures ok <==> used < BPB
      ensures ok ==> store == Marked(g, old(store), used)
    {
      if used >= BPB {
        return false;
      }
      var buf := ZeroBlock();
      assert store[g.bmapstart := buf] == store;
      var i := 0;
      while i < used
        invariant 0 <= i <= used && store == old(store) && store[g.bmapstart := buf] == Marked(g, store, i)
      {
        MarkNext(g, store, buf, i);
        buf := buf[i / 8 := StoreByte(buf[i / 8], i % 8, true)];
        i := i + 1;
      }
      store := store[g.bmapstart := buf];
      ok := true;
    }

    /** main after its last file: the root directory's size, then the bitmap. */
    method Finish() returns (ok: bool)
      requires Built() && NameSpec.ROOTINO < |tab| && InodeRange(tab[NameSpec.ROOTINO].(size := Rounded(tab[NameSpec.ROOTINO].size)))
      modifies this
      ensures ok ==> View(store, tab, owner, logged) == Finished(g, old(Now()), NameSpec.ROOTINO)
      ensures ok <==> old(freeblock) < BPB
    {
      ghost var v := Now();
      MarkedElsewhere(g, store, freeblock, InodeBlock(g, NameSpec.ROOTINO));
      assert v.tab[NameSpec.ROOTINO] == DInode(g, v.store, NameSpec.ROOTINO);
      var din := DInode(g, store, NameSpec.ROOTINO);
      var off := din.size;
      din := din.(size := Rounded(off));
      FinishedIs(g, store, freeblock, tab, owner, logged, din);
      store := PutInode(g, store, NameSpec.ROOTINO, din);
      tab := tab[NameSpec.ROOTINO := din];
      ok := Balloc(freeblock);
    }

    /** The root directory, with its entries for itself and its parent. */
    method MakeRoot() returns (ok: bool)
      requires Built() && freeinode == 1 && |tab| == g.ninodes < SHORT_LIMIT && freeblock == g.nmeta
      modifies this
      ensures ok ==> Built() && Holds(Now(), []) && freeinode == 2 && |tab| == old(|tab|)
      ensures ok <==> Fits(g, [])
      ensures ok ==> freeblock == g.nmeta + Need([])
    {
      var root := Ialloc(NameSpec.T_DIR);
      ghost var v := Now();
      ok := Iappend(root, Dirent(NameSpec.ROOTINO, [46]));
      if !ok {
        return;
      }
      ghost var w := Now();
      ReadsAppended(g, v, w, NameSpec.ROOTINO, [], Dirent(NameSpec.ROOTINO, [46]));
      assert [] + Dirent(NameSpec.ROOTINO, [46]) == Dirent(NameSpec.ROOTINO, [46]);
      ok := Iappend(root, Dirent(NameSpec.ROOTINO, [46, 46]));
      if ok {
        ReadsAppended(g, w, Now(), NameSpec.ROOTINO, Dirent(NameSpec.ROOTINO, [46]), Dirent(NameSpec.ROOTINO, [46, 46]));
      }
    }

    /** main: the image of a list of host files. Unless mkfs gives up, the files and their entries are there, and
        the result is a consistent file system exactly when the root directory does not end on a block boundary. */
    method Build(files: seq<HostFile>) returns (ok: bool)
      requires Built() && freeinode == 1 && |tab| == g.ninodes < SHORT_LIMIT && |files| + 2 <= g.ninodes && freeblock == g.nmeta
      modifies this
      ensures ok <==> Fits(g, files) && g.nmeta + Need(files) < BPB
      ensures ok ==> Complete(g, View(store, tab, owner, logged), files) && |tab| == g.ninodes
      ensures ok ==> forall b :: b in owner <==> g.nmeta <= b < g.nmeta + Need(files)
      ensures ok ==> forall j :: |files| + 2 <= j < |tab| ==> tab[j].typ == 0
    {
      if Fits(g, files) {
        FitsPart(g, files, 0);
      }
      assert files[..0] == [];
      ok := MakeRoot();
      if ok {
        ok := AddFiles(files);
      }
      if ok {
        FinishComplete(g, Now(), files);
        ok := Finish();
      }
    }

    /** The first n files are there. */
    ghost predicate Loaded(files: seq<HostFile>, n: nat)
      reads this
    {
      && n <= |files| && Built() && Holds(Now(), files[..n]) && freeinode == n + 2 && |tab| == g.ninodes
      && Fits(g, files[..n]) && freeblock == g.nmeta + Need(files[..n])
    }

    /** main's loop. */
    method AddFiles(files: seq<HostFile>) returns (ok: bool)
      requires Loaded(files, 0) && |files| + 2 <= g.ninodes < SHORT_LIMIT
      modifies this
      ensures ok <==> Fits(g, files)
      ensures ok ==> Built() && Holds(Now(), files) && |tab| == g.ninodes && freeblock == g.nmeta + Need(files) && freeinode == |files| + 2
    {
      ok := true;
      var n := 0;
      while n < |files|
        invariant ok && n <= |files| && Loaded(files, n)
      {
        ok := AddNext(files, n);
        if !ok {
          return;
        }
        n := n + 1;
      }
      assert files[..n] == files;
    }

    method AddNext(files: seq<HostFile>, n: nat) returns (ok: bool)
      requires Loaded(files, n) && n < |files| && |files| + 2 <= g.ninodes < SHORT_LIMIT
      modifies this
      ensures if ok then Loaded(files, n + 1) else !Fits(g, files)
    {
      NextPart(g, files, n);
      ok := AddFile(files[n], files[..n]);
    }
  }
}
