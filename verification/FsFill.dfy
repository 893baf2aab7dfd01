/** Runs that lay out a disk on purpose: short files, one after the other, until a given block is the lowest free one. */
module FsFill {
  import opened Common
  import opened Blocks
  import opened FsLayout
  import opened FsSpec
  import opened FsGrow
  import opened FsWrite
  import opened FsBudget
  import opened FsTaken
  import opened FsInode
  import opened Fs
  import FsOps
  import Mkfs
  import NameSpec

  /** One block of bytes. */
  function Bytes(): (r: seq<Byte>)
    ensures |r| == BSIZE
  {
    seq(BSIZE, _ => 0)
  }

  /** The data blocks in use are those below m, and the inodes in use those below n. */
  ghost predicate Packed(g: Geo, v: View, m: nat, n: nat) {
    && ViewOk(g, v, -1) && g.nmeta <= m <= g.size && 1 <= n <= |v.tab|
    && (forall b :: b in v.owner <==> g.nmeta <= b < m)
    && (forall j :: 1 <= j < n ==> v.tab[j].typ != 0) && (forall j :: n <= j < |v.tab| ==> v.tab[j].typ == 0)
  }

  /** Inode x has its first k direct blocks, and no others. */
  ghost predicate Short(x: Inode, k: nat) {
    |x.addrs| == 13 && x.typ != 0 && x.size == k * BSIZE && k <= NDIRECT && forall p :: k <= p <= INDIRECT ==> x.addrs[p] == 0
  }

  /** From v to x only inodes from n on changed, and only they took blocks. */
  ghost predicate Later(g: Geo, v: View, x: View, n: nat) {
    && FilesOk(g, v.store, v.tab) && FilesOk(g, x.store, x.tab) && |v.tab| == |x.tab|
    && (forall j :: 0 <= j < n && j < |v.tab| ==> x.tab[j] == v.tab[j])
    && (forall b :: b in v.owner ==> b in x.owner && x.owner[b] == v.owner[b])
    && (forall b :: b in x.owner && b !in v.owner ==> x.owner[b].0 >= n)
  }

  /** Where the one new block of inode i stands, when its file block k is new. */
  lemma Placed(g: Geo, v: View, w: View, i: nat, k: nat, m: nat, q: nat)
    requires ViewOk(g, v, -1) && ViewOk(g, w, -1) && i < |v.tab| == |w.tab| && k < NDIRECT && v.tab[i].addrs[k] == 0 != w.tab[i].addrs[k]
    requires Takes(v.owner, w.owner, i) && w.owner.Keys == v.owner.Keys + {m} && q < NPOS && q != k
    ensures m in w.owner && w.owner[m] == (i, k) && At(w.store, w.tab[i], q) == At(v.store, v.tab[i], q)
  {
    var b := w.tab[i].addrs[k];
    assert PosOk(g, w.store, w.tab, w.owner, 0, 0, i, k) && OwnedOk(g, v.store, v.tab, v.owner, 0, 0, b);
    assert b == m;
    var c, d := At(w.store, w.tab[i], q), At(v.store, v.tab[i], q);
    assert PosOk(g, w.store, w.tab, w.owner, 0, 0, i, q) && PosOk(g, v.store, v.tab, v.owner, 0, 0, i, q);
    assert OwnedOk(g, v.store, v.tab, v.owner, 0, 0, c) && OwnedOk(g, w.store, w.tab, w.owner, 0, 0, d);
  }

  /** Writing the next direct block takes one block. */
  lemma NeedsOne(v: View, i: nat, k: nat)
    requires i < |v.tab| && Short(v.tab[i], k) && k < NDIRECT && v.tab[i].addrs[INDIRECT] < |v.store|
    ensures Hi(k * BSIZE, BSIZE) == k + 1 && Needs(v, i, k * BSIZE, BSIZE) == 1
  {
    assert k * BSIZE / BSIZE == k && Hi(k * BSIZE, BSIZE) == k + 1;
    assert At(v.store, v.tab[i], Pos(k)) == 0;
    assert Lacking(v.store, v.tab[i], k, k) == 0;
    assert Lacking(v.store, v.tab[i], k, k + 1) == 1;
  }

  lemma OneElement(s: set<nat>) returns (x: nat)
    requires |s| == 1
    ensures s == {x}
  {
    x :| x in s;
    assert |s - {x}| == 0;
  }

  /** The one block taken is m. */
  lemma TookNext(g: Geo, a: Owner, b: Owner, m: nat)
    requires Lowest(g, a, b) && |b.Keys - a.Keys| == 1 && (forall x :: x in a <==> g.nmeta <= x < m) && forall x :: x in b ==> g.nmeta <= x
    requires g.nmeta <= m
    ensures b.Keys == a.Keys + {m}
  {
    var x := OneElement(b.Keys - a.Keys);
    assert x in b.Keys - a.Keys && LowestAt(g, a, b, x);
    assert x > m ==> m in b.Keys - a.Keys;
    assert b.Keys == a.Keys + {x};
  }

  /** The next block of a file with fewer than twelve. */
  method AppendBlock(fs: FileSystem, i: nat, k: nat, ghost m: nat, ghost n: nat)
    requires Packed(fs.g, fs.Now(), m, n) && m < fs.g.size && 1 <= i < n && k < NDIRECT && Short(fs.tab[i], k)
    modifies fs
    ensures Packed(fs.g, fs.Now(), m + 1, n) && AppendedTo(old(fs.Now()), fs.Now(), i, k, m)
  {
    ghost var v := fs.Now().(logged := {});
    Starts(fs.g, fs.Now(), i);
    var r := fs.ChunkOp(i, k * BSIZE, Bytes());
    WentThrough(fs.g, v, fs.Now(), i, k, m, r);
    Appended(fs.g, v, fs.Now(), i, k, m, n);
  }

  /** Inode i has gained file block k, at block m, and no other inode has changed. */
  ghost predicate AppendedTo(v: View, w: View, i: nat, k: nat, m: nat) {
    && i < |v.tab| == |w.tab| && Short(w.tab[i], k + 1) && (forall j :: 0 <= j < |w.tab| && j != i ==> w.tab[j] == v.tab[j])
    && w.owner.Keys == v.owner.Keys + {m} && w.owner[m] == (i, k) && Takes(v.owner, w.owner, i)
  }

  /** Block m was free, so the write went through. */
  lemma WentThrough(g: Geo, v: View, w: View, i: nat, k: nat, m: nat, r: int)
    requires ViewOk(g, v, -1) && g.nmeta <= m && (forall b :: b in v.owner <==> g.nmeta <= b < m) && ViewOk(g, w, -1) && i < |v.tab| && Short(v.tab[i], k) && k < NDIRECT && m < g.size && 0 <= r <= BSIZE
    requires WriteReport(g, v, w.owner, w.logged, i, k * BSIZE, Bytes(), r)
    ensures r == BSIZE && w.owner.Keys == v.owner.Keys + {m}
  {
    NeedsOne(v, i, k);
    Owns(g, w, -1);
    Smaller({m}, FreeBlocks(g, v.owner));
    TookNext(g, v.owner, w.owner, m);
  }

  lemma Appended(g: Geo, v: View, w: View, i: nat, k: nat, m: nat, n: nat)
    requires Packed(g, v, m, n) && ViewOk(g, w, -1) && 1 <= i < n && Short(v.tab[i], k) && k < NDIRECT && m < g.size
    requires WriteDone(g, v, w, i, k * BSIZE, Bytes()) && Takes(v.owner, w.owner, i) && w.owner.Keys == v.owner.Keys + {m}
    ensures Packed(g, w, m + 1, n) && AppendedTo(v, w, i, k, m)
  {
    AppendedShort(g, v, w, i, k, m);
    forall j | 0 <= j < |w.tab| && j != i ensures w.tab[j] == v.tab[j] {
      assert SameFile(v.store, v.tab[j], w.store, w.tab[j]);
    }
    forall b ensures b in w.owner <==> g.nmeta <= b < m + 1 {
      assert b in w.owner <==> b in v.owner.Keys + {m};
    }
  }

  lemma AppendedShort(g: Geo, v: View, w: View, i: nat, k: nat, m: nat)
    requires ViewOk(g, v, -1) && ViewOk(g, w, -1) && i < |v.tab| && Short(v.tab[i], k) && k < NDIRECT
    requires WriteDone(g, v, w, i, k * BSIZE, Bytes()) && Takes(v.owner, w.owner, i) && w.owner.Keys == v.owner.Keys + {m}
    ensures Short(w.tab[i], k + 1) && w.owner[m] == (i, k)
  {
    assert FileOk(w.store, w.tab[i]);
    assert At(w.store, w.tab[i], Pos(k)) != 0;
    forall p | k + 1 <= p <= INDIRECT ensures w.tab[i].addrs[p] == 0 {
      Placed(g, v, w, i, k, m, p);
    }
    Placed(g, v, w, i, k, m, INDIRECT);
  }

  /** Inode i owns block b and no other. */
  ghost predicate Sole(owner: Owner, i: nat, b: nat) {
    b in owner && forall c :: c in owner ==> (owner[c].0 == i <==> c == b)
  }

  /** A new file of one block, with one link: it gets the next inode and the next block. */
  method AddFile(fs: FileSystem, ghost m: nat, n: nat)
    requires Packed(fs.g, fs.Now(), m, n) && m < fs.g.size && n < |fs.tab|
    modifies fs
    ensures Packed(fs.g, fs.Now(), m + 1, n + 1) && Later(fs.g, old(fs.Now()), fs.Now(), n)
    ensures Short(fs.tab[n], 1) && Sole(fs.owner, n, m)
  {
    ghost var v := fs.Now();
    NewFile(fs, m, n);
    ghost var w := fs.Now();
    AppendBlock(fs, n, 0, m, n + 1);
    AddedFile(fs.g, v, w, fs.Now(), m, n);
  }

  lemma AddedFile(g: Geo, v: View, w: View, x: View, m: nat, n: nat)
    requires Packed(g, v, m, n) && Packed(g, w, m, n + 1) && Packed(g, x, m + 1, n + 1)
    requires w.owner == v.owner && n < |v.tab| == |w.tab| && (forall j :: 0 <= j < |w.tab| && j != n ==> w.tab[j] == v.tab[j])
    requires AppendedTo(w, x, n, 0, m)
    ensures Later(g, v, x, n) && Short(x.tab[n], 1) && Sole(x.owner, n, m)
  {
    FsOps.OwnsNothing(g, v, n);
  }

  /** A new empty file. */
  method NewFile(fs: FileSystem, ghost m: nat, n: nat)
    requires Packed(fs.g, fs.Now(), m, n) && n < |fs.tab|
    modifies fs
    ensures Packed(fs.g, fs.Now(), m, n + 1) && Short(fs.tab[n], 0) && fs.owner == old(fs.owner) && |fs.tab| == |old(fs.tab)|
    ensures forall j :: 0 <= j < |fs.tab| && j != n ==> fs.tab[j] == old(fs.tab)[j]
  {
    assert fs.tab[n].typ == 0;
    var i := fs.Ialloc(NameSpec.T_FILE);
    assert i == n;
    FsOps.SetNlink(fs, i, 1);
  }

  lemma LaterThen(g: Geo, v: View, w: View, x: View, n: nat, k: nat)
    requires Later(g, v, w, n) && Later(g, w, x, k) && n <= k
    ensures Later(g, v, x, n)
  {
  }

  /** A new file with its first count direct blocks. */
  method FileOf(fs: FileSystem, ghost m: nat, n: nat, count: nat)
    requires Packed(fs.g, fs.Now(), m, n) && count <= NDIRECT && m + count <= fs.g.size && n < |fs.tab|
    modifies fs
    ensures Packed(fs.g, fs.Now(), m + count, n + 1) && Later(fs.g, old(fs.Now()), fs.Now(), n) && Short(fs.tab[n], count)
    ensures |fs.tab| == |old(fs.tab)|
  {
    NewFile(fs, m, n);
    var k := 0;
    while k < count
      invariant k <= count && Packed(fs.g, fs.Now(), m + k, n + 1) && Later(fs.g, old(fs.Now()), fs.Now(), n) && Short(fs.tab[n], k)
      invariant |fs.tab| == |old(fs.tab)|
    {
      ghost var w := fs.Now();
      AppendBlock(fs, n, k, m + k, n + 1);
      AppendedLater(fs.g, w, fs.Now(), n, k, m + k);
      LaterThen(fs.g, old(fs.Now()), w, fs.Now(), n, n);
      k := k + 1;
    }
  }

  lemma AppendedLater(g: Geo, v: View, w: View, i: nat, k: nat, m: nat)
    requires FilesOk(g, v.store, v.tab) && FilesOk(g, w.store, w.tab) && AppendedTo(v, w, i, k, m)
    ensures Later(g, v, w, i)
  {
  }

  /** How many files of twelve blocks it takes to fill n blocks. */
  function Files(n: nat): nat {
    (n + NDIRECT - 1) / NDIRECT
  }

  lemma FilesNext(n: nat)
    requires n > 0
    ensures Files(n) == 1 + Files(if n > NDIRECT then n - NDIRECT else 0)
  {
  }

  /** Files of twelve blocks or fewer, until block target is the next; n' is then the next inode. */
  method FillTo(fs: FileSystem, m: nat, n: nat, target: nat) returns (n': nat)
    requires Packed(fs.g, fs.Now(), m, n) && m <= target <= fs.g.size && n + Files(target - m) <= |fs.tab|
    modifies fs
    ensures n' == n + Files(target - m) && Packed(fs.g, fs.Now(), target, n') && Later(fs.g, old(fs.Now()), fs.Now(), n)
    ensures |fs.tab| == |old(fs.tab)|
  {
    var k := m;
    n' := n;
    LaterNone(fs.g, fs.Now(), n);
    while k < target
      invariant m <= k <= target && n' + Files(target - k) == n + Files(target - m) && n <= n'
      invariant Packed(fs.g, fs.Now(), k, n') && Later(fs.g, old(fs.Now()), fs.Now(), n) && |fs.tab| == |old(fs.tab)|
    {
      ghost var w := fs.Now();
      FilesNext(target - k);
      var count := if target - k > NDIRECT then NDIRECT else target - k;
      FileOf(fs, k, n', count);
      LaterThen(fs.g, old(fs.Now()), w, fs.Now(), n, n');
      k, n' := k + count, n' + 1;
    }
  }

  lemma LaterNone(g: Geo, v: View, n: nat)
    requires FilesOk(g, v.store, v.tab)
    ensures Later(g, v, v, n)
  {
  }

  lemma SoleLater(g: Geo, v: View, x: View, n: nat, i: nat, b: nat)
    requires Later(g, v, x, n) && i < n && Sole(v.owner, i, b)
    ensures Sole(x.owner, i, b)
  {
  }

  /** A file of one block is removed: its link goes, then its inode and its block. */
  method FreeFile(fs: FileSystem, i: nat, ghost b: nat)
    requires fs.Valid() && i < |fs.tab| && fs.tab[i].typ != 0 && Sole(fs.owner, i, b)
    modifies fs
    ensures fs.Valid() && |fs.tab| == |old(fs.tab)| && (forall j :: 0 <= j < |fs.tab| && j != i ==> fs.tab[j] == old(fs.tab)[j])
    ensures fs.owner == old(fs.owner) - {b}
  {
    FsOps.SetNlink(fs, i, 0);
    fs.Ifree(i);
  }

  /** The file system of an image that holds no files: one block and one inode, for the root directory. */
  method Boot(g: Geo) returns (fs: FileSystem)
    requires GeoOk(g) && g.nmeta + 1 < BPB && g.nmeta < g.size && 2 <= g.ninodes < SHORT_LIMIT
    ensures fresh(fs) && fs.g == g && Packed(g, fs.Now(), g.nmeta + 1, 2)
  {
    var image := new Mkfs.Image(g);
    assert Mkfs.Need([]) == 1;
    var ok := image.Build([]);
    ghost var v := View(image.store, image.tab, image.owner, image.logged);
    RootInUse(g, v);
    fs := new FileSystem(g, image.store, image.tab, image.owner);
  }

  lemma RootInUse(g: Geo, v: View)
    requires Mkfs.Complete(g, v, [])
    ensures NameSpec.ROOTINO < |v.tab| && v.tab[NameSpec.ROOTINO].typ != 0
  {
    assert FileOk(v.store, v.tab[NameSpec.ROOTINO]);
    assert |Mkfs.Entries([])| == 32;
  }

  /** Files up to block hole, then one of its own for that block. */
  method ReachBlock(fs: FileSystem, m: nat, n: nat, hole: nat) returns (i: nat)
    requires Packed(fs.g, fs.Now(), m, n) && m <= hole < fs.g.size && n + Files(hole - m) < |fs.tab|
    modifies fs
    ensures i == n + Files(hole - m) && Packed(fs.g, fs.Now(), hole + 1, i + 1) && Later(fs.g, old(fs.Now()), fs.Now(), n)
    ensures Sole(fs.owner, i, hole) && |fs.tab| == |old(fs.tab)|
  {
    i := FillTo(fs, m, n, hole);
    ghost var w := fs.Now();
    AddFile(fs, hole, i);
    LaterThen(fs.g, old(fs.Now()), w, fs.Now(), n, i);
  }
}
