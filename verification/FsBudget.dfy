/** How many blocks one writei passes to log_write, and why filewrite's chunks fit MAXOPBLOCKS. */
module FsBudget {
  import opened Common
  import opened Blocks
  import opened FsLayout
  import opened FsSpec
  import opened FsGrow
  import opened FsWrite
  import LogFormat

  /** The most bytes that filewrite passes to one writei: three blocks' worth. */
  const MAXWRITE: nat := (LogFormat.MAXOPBLOCKS - 1 - 1 - 2) / 2 * BSIZE

  /** The first file block that starts at or after off. */
  function Up(off: nat): nat {
    (off + BSIZE - 1) / BSIZE
  }

  /** The data blocks of inode x in [lo, hi). */
  ghost function DataBlocks(store: Disk, x: Inode, lo: nat, hi: nat): set<nat>
    requires |x.addrs| == 13 && x.addrs[INDIRECT] < |store| && hi <= MAXFILE
  {
    if lo >= hi then {} else DataBlocks(store, x, lo, hi - 1) + {At(store, x, Pos(hi - 1))}
  }

  lemma {:induction false} InDataBlocks(store: Disk, x: Inode, lo: nat, hi: nat, b: nat)
    requires |x.addrs| == 13 && x.addrs[INDIRECT] < |store| && hi <= MAXFILE
    ensures b in DataBlocks(store, x, lo, hi) <==> exists bn {:trigger Pos(bn)} :: lo <= bn < hi && At(store, x, Pos(bn)) == b
  {
    if lo < hi {
      InDataBlocks(store, x, lo, hi - 1, b);
      var last := hi - 1;
      assert At(store, x, Pos(last)) == At(store, x, Pos(hi - 1));
    }
  }

  lemma LastIsNew(g: Geo, w: View, i: nat, lo: nat, last: nat)
    requires OwnerInv(g, w.store, w.tab, w.owner, 0, 0) && i < |w.tab| && last < MAXFILE
    requires At(w.store, w.tab[i], Pos(last)) != 0
    ensures At(w.store, w.tab[i], Pos(last)) !in DataBlocks(w.store, w.tab[i], lo, last)
  {
    var b := At(w.store, w.tab[i], Pos(last));
    InDataBlocks(w.store, w.tab[i], lo, last, b);
    if b in DataBlocks(w.store, w.tab[i], lo, last) {
      var bn :| lo <= bn < last && At(w.store, w.tab[i], Pos(bn)) == b;
      NoSharing(g, w.store, w.tab, w.owner, i, Pos(bn), i, Pos(last));
    }
  }

  lemma {:induction false} CountDataBlocks(g: Geo, w: View, i: nat, lo: nat, hi: nat)
    requires OwnerInv(g, w.store, w.tab, w.owner, 0, 0) && i < |w.tab| && hi <= MAXFILE
    requires forall bn {:trigger Pos(bn)} :: lo <= bn < hi ==> At(w.store, w.tab[i], Pos(bn)) != 0
    ensures |DataBlocks(w.store, w.tab[i], lo, hi)| == if lo < hi then hi - lo else 0
  {
    if lo < hi {
      CountDataBlocks(g, w, i, lo, hi - 1);
      LastIsNew(g, w, i, lo, hi - 1);
    }
  }

  lemma Reached(store: Disk, x: Inode, bn: nat)
    requires |x.addrs| == 13 && x.addrs[INDIRECT] < |store| && FileOk(store, x) && bn < MAXFILE
    ensures bn * BSIZE < x.size ==> At(store, x, Pos(bn)) != 0
  {
  }

  /** Which blocks a writei allocates: at most the indirect block, and one for each file block it enters that
      the file did not reach. */
  lemma AddedAre(g: Geo, v: View, w: View, i: nat, off: nat, src: seq<Byte>, tot: nat, b: nat)
    requires Written(g, v, w, i, off, src, tot) && off <= v.tab[i].size && b in w.owner && b !in v.owner
    ensures w.owner[b].0 == i && w.owner[b].1 < NPOS && At(w.store, w.tab[i], w.owner[b].1) == b
    ensures w.owner[b].1 == INDIRECT || exists bn :: Up(off) <= bn < Hi(off, tot) && w.owner[b].1 == Pos(bn)
  {
    var (j, p) := w.owner[b];
    assert OwnedOk(g, w.store, w.tab, w.owner, 0, 0, b);
    assert PosOk(g, v.store, v.tab, v.owner, 0, 0, j, p) && FileOk(v.store, v.tab[i]);
    if j != i {
      OtherPlace(g, v, w, i, j, p);
    } else if p != INDIRECT {
      var bn := if p < INDIRECT then p else p - 1;
      Reached(v.store, v.tab[i], bn);
      assert p == Pos(bn) && Touches(off, tot, bn);
    }
  }

  lemma OtherPlace(g: Geo, v: View, w: View, i: nat, j: nat, p: nat)
    requires ViewOk(g, v, i) && ViewOk(g, w, i) && i < |v.tab| && KeepsOthers(g, v, w, i) && j < |v.tab| && j != i && p < NPOS
    ensures At(w.store, w.tab[j], p) == At(v.store, v.tab[j], p)
  {
    if v.tab[j].addrs[INDIRECT] != 0 {
      InDataArea(g, v.store, v.tab, v.owner, 0, 0, j, INDIRECT);
    }
  }

  /** No more allocations than new file blocks and one indirect block. */
  lemma AddedCount(g: Geo, v: View, w: View, i: nat, off: nat, src: seq<Byte>, tot: nat)
    requires Written(g, v, w, i, off, src, tot) && off <= v.tab[i].size
    ensures |w.owner.Keys - v.owner.Keys| <= 1 + if Up(off) < Hi(off, tot) then Hi(off, tot) - Up(off) else 0
  {
    var added, ind := w.owner.Keys - v.owner.Keys, w.tab[i].addrs[INDIRECT];
    var d := DataBlocks(w.store, w.tab[i], Up(off), Hi(off, tot));
    forall b | b in added ensures b in d + {ind} {
      AddedAre(g, v, w, i, off, src, tot, b);
      InDataBlocks(w.store, w.tab[i], Up(off), Hi(off, tot), b);
    }
    Smaller(added, d + {ind});
    forall bn | Up(off) <= bn < Hi(off, tot) ensures At(w.store, w.tab[i], Pos(bn)) != 0 {
      assert Touches(off, tot, bn);
    }
    CountDataBlocks(g, w, i, Up(off), Hi(off, tot));
  }

  lemma {:induction false} BitmapCount(g: Geo, s: set<nat>)
    ensures |BitmapBlocks(g, s)| <= |s|
  {
    if s == {} {
      assert BitmapBlocks(g, s) == {};
    } else {
      var x :| x in s;
      BitmapCount(g, s - {x});
      assert BitmapBlocks(g, s) == BitmapBlocks(g, s - {x}) + {BitmapBlock(g, x)};
    }
  }

  /** What a writei that starts with an empty log has logged before the inode: exactly these three kinds. */
  lemma LogParts(g: Geo, v: View, w: View, i: nat, off: nat, src: seq<Byte>, tot: nat)
    requires Written(g, v, w, i, off, src, tot) && off <= v.tab[i].size && v.logged == {}
    ensures w.logged == DataBlocks(w.store, w.tab[i], off / BSIZE, Hi(off, tot))
                        + BitmapBlocks(g, w.owner.Keys - v.owner.Keys) + ({w.tab[i].addrs[INDIRECT]} * w.logged)
  {
    var d, ind := DataBlocks(w.store, w.tab[i], off / BSIZE, Hi(off, tot)), w.tab[i].addrs[INDIRECT];
    var bm := BitmapBlocks(g, w.owner.Keys - v.owner.Keys);
    forall b | b in w.logged ensures b in d + bm + ({ind} * w.logged) {
      LoggedIs(g, v, w, i, off, src, tot, b);
    }
    forall b | b in d + bm + ({ind} * w.logged) ensures b in w.logged {
      assert LogOk(g, v, w, i, off, tot, b);
      InDataBlocks(w.store, w.tab[i], off / BSIZE, Hi(off, tot), b);
      if b in d {
        var bn :| off / BSIZE <= bn < Hi(off, tot) && At(w.store, w.tab[i], Pos(bn)) == b;
        assert Touches(off, tot, bn);
        InDataArea(g, w.store, w.tab, w.owner, 0, 0, i, Pos(bn));
      }
    }
  }

  lemma LoggedIs(g: Geo, v: View, w: View, i: nat, off: nat, src: seq<Byte>, tot: nat, b: nat)
    requires Written(g, v, w, i, off, src, tot) && off <= v.tab[i].size && v.logged == {} && b in w.logged
    ensures || b in DataBlocks(w.store, w.tab[i], off / BSIZE, Hi(off, tot))
            || b in BitmapBlocks(g, w.owner.Keys - v.owner.Keys)
            || b == w.tab[i].addrs[INDIRECT]
  {
    assert LogOk(g, v, w, i, off, tot, b);
    assert OwnedOk(g, w.store, w.tab, w.owner, 0, 0, b);
    InDataBlocks(w.store, w.tab[i], off / BSIZE, Hi(off, tot), b);
    if b in w.owner && b !in v.owner {
      AddedAre(g, v, w, i, off, src, tot, b);
    } else if b in w.owner && w.owner[b].0 == i && TouchesPos(off, tot, w.owner[b].1) {
      var p := w.owner[b].1;
      var bn := if p < INDIRECT then p else p - 1;
      assert At(w.store, w.tab[i], Pos(bn)) == b;
    }
  }

  /** Exactly how many blocks a writei logs: one per file block it writes, one per bitmap block it changes,
      the indirect block if that changes or is new, and the inode's block. */
  ghost function LogCost(g: Geo, v: View, w: View, i: nat, off: nat, tot: nat): nat
    requires i < |w.tab| && |w.tab[i].addrs| == 13
  {
    Hi(off, tot) - off / BSIZE + |BitmapBlocks(g, w.owner.Keys - v.owner.Keys)|
    + (if w.tab[i].addrs[INDIRECT] in w.logged then 1 else 0) + 1
  }

  lemma LogCostExact(g: Geo, v: View, w: View, i: nat, off: nat, src: seq<Byte>, tot: nat)
    requires Written(g, v, w, i, off, src, tot) && off <= v.tab[i].size && v.logged == {}
    ensures |w.logged + {InodeBlock(g, i)}| == LogCost(g, v, w, i, off, tot)
  {
    var ind := w.tab[i].addrs[INDIRECT];
    var d, bm := DataBlocks(w.store, w.tab[i], off / BSIZE, Hi(off, tot)), BitmapBlocks(g, w.owner.Keys - v.owner.Keys);
    LogParts(g, v, w, i, off, src, tot);
    DataCost(g, v, w, i, off, src, tot);
    Places(g, v, w, i, off, src, tot);
    FourParts(d, bm, {ind} * w.logged, InodeBlock(g, i));
    assert {ind} * w.logged == if ind in w.logged then {ind} else {};
  }

  /** One data block for each file block written. */
  lemma DataCost(g: Geo, v: View, w: View, i: nat, off: nat, src: seq<Byte>, tot: nat)
    requires Written(g, v, w, i, off, src, tot)
    ensures off / BSIZE <= Hi(off, tot) && |DataBlocks(w.store, w.tab[i], off / BSIZE, Hi(off, tot))| == Hi(off, tot) - off / BSIZE
  {
    forall bn | off / BSIZE <= bn < Hi(off, tot) ensures At(w.store, w.tab[i], Pos(bn)) != 0 {
      assert Touches(off, tot, bn);
    }
    CountDataBlocks(g, w, i, off / BSIZE, Hi(off, tot));
  }

  lemma FourParts(a: set<nat>, b: set<nat>, c: set<nat>, x: nat)
    requires a !! b && a + b !! c && x !in a + b + c
    ensures |a + b + c + {x}| == |a| + |b| + |c| + 1
  {
    assert |a + b| == |a| + |b|;
    assert |a + b + c| == |a + b| + |c|;
  }

  /** Data blocks, bitmap blocks, the indirect block and inode blocks do not overlap. */
  lemma Places(g: Geo, v: View, w: View, i: nat, off: nat, src: seq<Byte>, tot: nat)
    requires Written(g, v, w, i, off, src, tot) && off <= v.tab[i].size && v.logged == {}
    ensures var d, bm := DataBlocks(w.store, w.tab[i], off / BSIZE, Hi(off, tot)), BitmapBlocks(g, w.owner.Keys - v.owner.Keys);
            && d !! bm
            && (w.tab[i].addrs[INDIRECT] in w.logged ==> w.tab[i].addrs[INDIRECT] !in d + bm)
            && InodeBlock(g, i) !in w.logged
  {
    var ind := w.tab[i].addrs[INDIRECT];
    var d, bm := DataBlocks(w.store, w.tab[i], off / BSIZE, Hi(off, tot)), BitmapBlocks(g, w.owner.Keys - v.owner.Keys);
    forall b | b in d ensures g.nmeta <= b && b != ind {
      InDataBlocks(w.store, w.tab[i], off / BSIZE, Hi(off, tot), b);
      var bn :| off / BSIZE <= bn < Hi(off, tot) && At(w.store, w.tab[i], Pos(bn)) == b;
      assert Touches(off, tot, bn);
      InDataArea(g, w.store, w.tab, w.owner, 0, 0, i, Pos(bn));
      if b == ind { NoSharing(g, w.store, w.tab, w.owner, i, Pos(bn), i, INDIRECT); }
    }
    forall b | b in bm ensures g.bmapstart <= b < g.nmeta {
      var c :| c in w.owner.Keys - v.owner.Keys && b == BitmapBlock(g, c);
      assert OwnedOk(g, w.store, w.tab, w.owner, 0, 0, c);
    }
    forall b | b in w.logged ensures b >= g.bmapstart && (b == ind ==> b >= g.nmeta) {
      LoggedIs(g, v, w, i, off, src, tot, b);
      assert LogOk(g, v, w, i, off, tot, b) && OwnedOk(g, w.store, w.tab, w.owner, 0, 0, 0);
      if b == ind != 0 {
        InDataArea(g, w.store, w.tab, w.owner, 0, 0, i, INDIRECT);
      }
    }
    assert InodeBlock(g, i) < g.bmapstart;
  }

  /** A chunk of filewrite fits the reservation of one operation. */
  lemma ChunkFits(g: Geo, v: View, w: View, i: nat, off: nat, src: seq<Byte>, tot: nat)
    requires Written(g, v, w, i, off, src, tot) && off <= v.tab[i].size && |src| <= MAXWRITE
    ensures LogCost(g, v, w, i, off, tot) <= LogFormat.MAXOPBLOCKS
    ensures g.size <= BPB ==> LogCost(g, v, w, i, off, tot) <= 7
  {
    AddedCount(g, v, w, i, off, src, tot);
    var added := w.owner.Keys - v.owner.Keys;
    BitmapCount(g, added);
    assert Hi(off, tot) - off / BSIZE <= 3 + (if off % BSIZE == 0 then 0 else 1);
    assert tot > 0 ==> Up(off) == off / BSIZE + (if off % BSIZE == 0 then 0 else 1);
    if g.size <= BPB {
      forall b | b in BitmapBlocks(g, added) ensures b in {g.bmapstart} {
        var c :| c in added && b == BitmapBlock(g, c);
        assert OwnedOk(g, w.store, w.tab, w.owner, 0, 0, c);
      }
      Smaller(BitmapBlocks(g, added), {g.bmapstart});
    }
  }

  /** The size of a directory entry. */
  const DIRENT: nat := 16

  /** The most blocks that writing one directory entry logs: an old entry is overwritten where it is, a new one
      may need a data block, and beyond the direct blocks the indirect block as well. */
  function EntryCost(off: nat, size: nat): nat {
    if off + DIRENT <= size then 2 else if off < NDIRECT * BSIZE then 3 else 5
  }

  /** What writing an entry logs when n is writei's result: nothing if it is refused, and the entry's block and the
      inode's block if an old entry is overwritten. */
  ghost predicate EntryLogged(g: Geo, v: View, i: nat, off: nat, n: int, logged: set<nat>) {
    && i < |v.tab| && |v.tab[i].addrs| == 13 && v.tab[i].addrs[INDIRECT] < |v.store|
    && |logged| <= EntryCost(off, v.tab[i].size) && (n == -1 ==> logged == {})
    && (n == DIRENT && off + DIRENT <= v.tab[i].size ==>
          off / BSIZE < MAXFILE && logged == {At(v.store, v.tab[i], Pos(off / BSIZE)), InodeBlock(g, i)})
  }

  /** An entry lies in one file block. */
  lemma EntryBlock(off: nat, tot: nat)
    requires off % DIRENT == 0 && tot <= DIRENT
    ensures Hi(off, tot) - off / BSIZE == if tot == 0 then 0 else 1
    ensures Hi(off, tot) - Up(off) <= 1
    ensures off < NDIRECT * BSIZE ==> off + DIRENT <= NDIRECT * BSIZE
  {
  }

  /** A write that stays within the direct blocks takes no indirect block. */
  lemma DirectAdded(g: Geo, v: View, w: View, i: nat, off: nat, src: seq<Byte>, tot: nat)
    requires Written(g, v, w, i, off, src, tot) && off <= v.tab[i].size && v.logged == {} && off + |src| <= NDIRECT * BSIZE
    ensures w.tab[i].addrs[INDIRECT] !in w.logged
    ensures |w.owner.Keys - v.owner.Keys| <= if Up(off) < Hi(off, tot) then Hi(off, tot) - Up(off) else 0
  {
    var added := w.owner.Keys - v.owner.Keys;
    var d := DataBlocks(w.store, w.tab[i], Up(off), Hi(off, tot));
    Places(g, v, w, i, off, src, tot);
    NotZero(g, v, w, i, off, src, tot);
    forall b | b in added ensures b in d {
      AddedAre(g, v, w, i, off, src, tot, b);
      InDataBlocks(w.store, w.tab[i], Up(off), Hi(off, tot), b);
      assert LogOk(g, v, w, i, off, tot, b) && OwnedOk(g, w.store, w.tab, w.owner, 0, 0, b);
    }
    Smaller(added, d);
    forall bn | Up(off) <= bn < Hi(off, tot) ensures At(w.store, w.tab[i], Pos(bn)) != 0 {
      assert Touches(off, tot, bn);
    }
    CountDataBlocks(g, w, i, Up(off), Hi(off, tot));
  }

  /** Block 0 is never logged. */
  lemma NotZero(g: Geo, v: View, w: View, i: nat, off: nat, src: seq<Byte>, tot: nat)
    requires Written(g, v, w, i, off, src, tot) && v.logged == {}
    ensures 0 !in w.logged
  {
    assert LogOk(g, v, w, i, off, tot, 0) && OwnedOk(g, w.store, w.tab, w.owner, 0, 0, 0);
  }

  /** Inode i may have gained blocks, and nothing else changed hands. */
  ghost predicate Takes(a: Owner, b: Owner, i: nat) {
    && (forall c :: c in a ==> c in b && b[c] == a[c])
    && (forall c :: c in b && c !in a ==> b[c].0 == i)
  }

  lemma WrittenTakes(g: Geo, v: View, w: View, i: nat, off: nat, src: seq<Byte>, tot: nat)
    requires Written(g, v, w, i, off, src, tot) && off <= v.tab[i].size
    ensures Takes(v.owner, w.owner, i) && BitmapBlocks(g, w.owner.Keys - v.owner.Keys) <= w.logged
  {
    forall b | b in w.owner && b !in v.owner ensures w.owner[b].0 == i {
      AddedAre(g, v, w, i, off, src, tot, b);
    }
    forall b | b in BitmapBlocks(g, w.owner.Keys - v.owner.Keys) ensures b in w.logged {
      assert LogOk(g, v, w, i, off, tot, b);
    }
  }

  lemma OldEntryLog(g: Geo, v: View, w: View, i: nat, off: nat, src: seq<Byte>)
    requires Written(g, v, w, i, off, src, DIRENT) && v.logged == {} && |src| == DIRENT && off % DIRENT == 0
    requires off + DIRENT <= v.tab[i].size
    ensures off / BSIZE < MAXFILE && w.logged == {At(v.store, v.tab[i], Pos(off / BSIZE))}
  {
    var bn := off / BSIZE;
    EntryBlock(off, DIRENT);
    OldBlock(g, v, w, i, off, DIRENT, bn);
    LogParts(g, v, w, i, off, src, DIRENT);
    NotZero(g, v, w, i, off, src, DIRENT);
    assert w.owner.Keys - v.owner.Keys == {} && BitmapBlocks(g, {}) == {};
    assert DataBlocks(w.store, w.tab[i], bn, bn) == {};
  }

  /** Writing a directory entry logs no more than EntryCost, and overwriting one exactly that. */
  lemma EntryFits(g: Geo, v: View, w: View, i: nat, off: nat, src: seq<Byte>, tot: nat)
    requires Written(g, v, w, i, off, src, tot) && off <= v.tab[i].size && v.logged == {}
    requires |src| == DIRENT && off % DIRENT == 0
    ensures EntryLogged(g, v, i, off, tot, w.logged + {InodeBlock(g, i)})
  {
    EntryBlock(off, tot);
    if tot == DIRENT && off + DIRENT <= v.tab[i].size { OldEntryLog(g, v, w, i, off, src); }
    LogCostExact(g, v, w, i, off, src, tot);
    NotZero(g, v, w, i, off, src, tot);
    BitmapCount(g, w.owner.Keys - v.owner.Keys);
    if off + DIRENT <= v.tab[i].size {
      assert w.owner.Keys - v.owner.Keys == {};
    } else if off < NDIRECT * BSIZE {
      DirectAdded(g, v, w, i, off, src, tot);
    } else {
      AddedCount(g, v, w, i, off, src, tot);
    }
  }

  /** What a whole writei logs, the inode's block included. */
  lemma WriteLogs(g: Geo, v: View, w: View, i: nat, off: nat, src: seq<Byte>, tot: nat)
    requires Written(g, v, w, i, off, src, tot) && off <= v.tab[i].size
    ensures Takes(v.owner, w.owner, i) && BitmapBlocks(g, w.owner.Keys - v.owner.Keys) <= w.logged
    ensures v.logged == {} && |src| <= MAXWRITE ==> |w.logged + {InodeBlock(g, i)}| <= LogFormat.MAXOPBLOCKS
    ensures v.logged == {} && |src| == DIRENT && off % DIRENT == 0 ==>
              EntryLogged(g, v, i, off, tot, w.logged + {InodeBlock(g, i)})
  {
    WrittenTakes(g, v, w, i, off, src, tot);
    if v.logged == {} {
      LogCostExact(g, v, w, i, off, src, tot);
      if |src| <= MAXWRITE { ChunkFits(g, v, w, i, off, src, tot); }
      if |src| == DIRENT && off % DIRENT == 0 { EntryFits(g, v, w, i, off, src, tot); }
    }
  }

  /** What the log looks like when a chunk has used all of its reservation. */
  lemma AllLogged(g: Geo, v: View, w: View, i: nat, off: nat, src: seq<Byte>, tot: nat)
    requires Written(g, v, w, i, off, src, tot) && off <= v.tab[i].size && |src| <= MAXWRITE && v.logged == {}
    ensures |w.logged + {InodeBlock(g, i)}| == LogFormat.MAXOPBLOCKS <==>
            && Hi(off, tot) - off / BSIZE == 4 && w.tab[i].addrs[INDIRECT] in w.logged
            && |BitmapBlocks(g, w.owner.Keys - v.owner.Keys)| == 4
  {
    LogCostExact(g, v, w, i, off, src, tot);
    AddedCount(g, v, w, i, off, src, tot);
    BitmapCount(g, w.owner.Keys - v.owner.Keys);
    assert Hi(off, tot) - off / BSIZE <= 3 + (if off % BSIZE == 0 then 0 else 1);
    assert tot > 0 ==> Up(off) == off / BSIZE + (if off % BSIZE == 0 then 0 else 1);
  }
}
