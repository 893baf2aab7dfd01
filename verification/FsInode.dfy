/** Changes to an inode's record that move none of its blocks: allocation, freeing, link counts. */
module FsInode {
  import opened Blocks
  import opened FsLayout
  import opened FsSpec
  import opened FsGrow
  import opened FsWrite

  /** Inode i becomes y, which has the same bytes in the same blocks. */
  ghost predicate Recordable(v: View, i: nat, y: Inode) {
    && i < |v.tab| && InodeRange(y) && y.addrs == v.tab[i].addrs && y.size == v.tab[i].size
    && (y.typ == 0 ==> y.size == 0 && y.addrs == NO_ADDRS)
  }

  lemma Recorded(g: Geo, v: View, i: nat, y: Inode)
    requires ViewOk(g, v, i) && Recordable(v, i, y)
    ensures ViewOk(g, v.(tab := v.tab[i := y]), i)
  {
    var x := v.(tab := v.tab[i := y]);
    forall b: nat ensures OwnedOk(g, x.store, x.tab, x.owner, 0, 0, b) {
      assert OwnedOk(g, v.store, v.tab, v.owner, 0, 0, b);
    }
    forall j, q | 0 <= j < |x.tab| && 0 <= q < NPOS ensures PosOk(g, x.store, x.tab, x.owner, 0, 0, j, q) {
      assert PosOk(g, v.store, v.tab, v.owner, 0, 0, j, q);
    }
    forall j | 0 <= j < |x.tab| ensures FileOk(x.store, x.tab[j]) {
      assert FileOk(v.store, v.tab[j]);
    }
  }

  /** Every inode but those in s keeps its record and its bytes. */
  ghost predicate OnlyChanges(g: Geo, v: View, x: View, s: set<nat>) {
    && FilesOk(g, v.store, v.tab) && FilesOk(g, x.store, x.tab) && |v.tab| == |x.tab|
    && forall j :: 0 <= j < |v.tab| && j !in s ==> SameFile(v.store, v.tab[j], x.store, x.tab[j])
  }

  lemma ChangesAdd(g: Geo, v: View, w: View, x: View, s: set<nat>, t: set<nat>)
    requires OnlyChanges(g, v, w, s) && OnlyChanges(g, w, x, t)
    ensures OnlyChanges(g, v, x, s + t)
  {
    forall j | 0 <= j < |v.tab| && j !in s + t
      ensures FileOk(v.store, v.tab[j]) && FileOk(x.store, x.tab[j]) && SameFile(v.store, v.tab[j], x.store, x.tab[j])
    {
      assert FileOk(v.store, v.tab[j]) && FileOk(w.store, w.tab[j]) && FileOk(x.store, x.tab[j]);
      assert SameFile(v.store, v.tab[j], w.store, w.tab[j]) && SameFile(w.store, w.tab[j], x.store, x.tab[j]);
    }
  }

  /** Inodes in use that no directory entry names. */
  ghost function Orphans(tab: seq<Inode>): set<nat> {
    set j: nat | 1 <= j < |tab| && tab[j].typ != 0 && tab[j].nlink == 0
  }

  /** Inode i reads as before. */
  ghost predicate SameContent(g: Geo, v: View, x: View, i: nat) {
    && FilesOk(g, v.store, v.tab) && FilesOk(g, x.store, x.tab) && i < |v.tab| == |x.tab|
    && Content(x.store, x.tab[i]) == Content(v.store, v.tab[i])
  }

  /** The bytes of a file depend on its size and addresses only. */
  lemma ContentOf(store: Disk, a: Inode, b: Inode)
    requires |a.addrs| == 13 && a.addrs[INDIRECT] < |store| && a.size <= MAXFILE * BSIZE
    requires b.addrs == a.addrs && b.size == a.size
    ensures Content(store, b) == Content(store, a)
  {
    forall k | 0 <= k < a.size ensures ByteAt(store, b, k) == ByteAt(store, a, k) {
      assert At(store, b, Pos(k / BSIZE)) == At(store, a, Pos(k / BSIZE));
    }
  }

  lemma RecordSaved(g: Geo, v: View, x: View, y: View, i: nat)
    requires ViewOk(g, v, i) && ViewOk(g, x, i) && ViewOk(g, y, -1) && i < |v.tab| == |x.tab| && x.store == v.store
    requires (forall j :: 0 <= j < |v.tab| && j != i ==> x.tab[j] == v.tab[j])
    requires |y.store| == |x.store| && y.tab == x.tab && forall b :: g.nmeta <= b < g.size ==> y.store[b] == x.store[b]
    requires x.tab[i].addrs == v.tab[i].addrs && x.tab[i].size == v.tab[i].size
    ensures OnlyChanges(g, v, y, {i}) && SameContent(g, v, y, i)
  {
    SavedSame(g, x, y, i, i);
    assert FileOk(v.store, v.tab[i]);
    ContentOf(v.store, v.tab[i], x.tab[i]);
    forall j | 0 <= j < |v.tab| && j != i
      ensures FileOk(v.store, v.tab[j]) && FileOk(y.store, y.tab[j]) && SameFile(v.store, v.tab[j], y.store, y.tab[j])
    {
      SavedSame(g, x, y, i, j);
      assert FileOk(v.store, v.tab[j]);
    }
  }
}
