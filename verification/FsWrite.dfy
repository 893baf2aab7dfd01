/** What one writei does to the file system, as a relation that each turn of its loop extends. */
module FsWrite {
  import opened Blocks
  import opened FsLayout
  import opened FsSpec
  import opened FsGrow

  /** File blocks lo(off) .. Hi(off, tot) have been written once tot bytes are done. */
  function Hi(off: nat, tot: nat): nat {
    if tot == 0 then off / BSIZE else (off + tot - 1) / BSIZE + 1
  }

  /** Is bn one of the file blocks that tot bytes at off touch? */
  predicate Touches(off: nat, tot: nat, bn: nat) {
    off / BSIZE <= bn < Hi(off, tot)
  }

  /** Only inode i changes: its other fields, all other inodes and their blocks stay. */
  ghost predicate KeepsOthers(g: Geo, v: View, w: View, i: nat)
    requires Shape(g, v.store, v.tab) && Shape(g, w.store, w.tab) && i < |v.tab|
  {
    && |w.tab| == |v.tab| && w.tab == v.tab[i := v.tab[i].(addrs := w.tab[i].addrs)]
    && (forall b :: b in v.owner ==> b in w.owner && w.owner[b] == v.owner[b])
    && (forall b :: b in v.owner && b < g.size && v.owner[b].0 != i ==> w.store[b] == v.store[b])
  }

  /** Inode i keeps its blocks and gains some, of the file blocks touched exactly. */
  ghost predicate GainsBlocks(g: Geo, v: View, w: View, i: nat, off: nat, tot: nat)
    requires Shape(g, v.store, v.tab) && Shape(g, w.store, w.tab) && i < |v.tab| == |w.tab|
  {
    && (forall q :: 0 <= q < NPOS && At(v.store, v.tab[i], q) != 0 ==> At(w.store, w.tab[i], q) == At(v.store, v.tab[i], q))
    && (forall bn {:trigger Touches(off, tot, bn)} :: 0 <= bn < MAXFILE && !Touches(off, tot, bn) ==>
          At(w.store, w.tab[i], Pos(bn)) == At(v.store, v.tab[i], Pos(bn)))
    && (forall bn {:trigger Touches(off, tot, bn)} :: 0 <= bn < MAXFILE && Touches(off, tot, bn) ==>
          At(w.store, w.tab[i], Pos(bn)) != 0)
  }

  ghost predicate Gains(g: Geo, v: View, w: View, i: nat, off: nat, tot: nat)
    requires Shape(g, v.store, v.tab) && Shape(g, w.store, w.tab) && i < |v.tab|
  {
    KeepsOthers(g, v, w, i) && GainsBlocks(g, v, w, i, off, tot)
  }

  /** The bytes written so far, and the old bytes everywhere else below the old size. */
  ghost predicate BytesAre(g: Geo, v: View, w: View, i: nat, off: nat, src: seq<Byte>, tot: nat)
    requires Shape(g, v.store, v.tab) && Shape(g, w.store, w.tab) && i < |v.tab| == |w.tab| && tot <= |src|
  {
    && (forall k :: off <= k < off + tot && k < MAXFILE * BSIZE ==> ByteAt(w.store, w.tab[i], k) == src[k - off])
    && (forall k :: 0 <= k < MAXFILE * BSIZE && k < v.tab[i].size && !(off <= k < off + tot) ==>
          ByteAt(w.store, w.tab[i], k) == ByteAt(v.store, v.tab[i], k))
  }

  /** Is p the position of a file block that tot bytes at off touch? */
  predicate TouchesPos(off: nat, tot: nat, p: nat) {
    if p < INDIRECT then Touches(off, tot, p) else p > INDIRECT && Touches(off, tot, p - 1)
  }

  /** What writei must have passed to log_write: data blocks it wrote, blocks it allocated, and the bitmap
      blocks of those. */
  ghost predicate MustLog(g: Geo, v: View, w: View, i: nat, off: nat, tot: nat, b: nat) {
    || b in v.logged
    || (b in w.owner && b !in v.owner)
    || (b in w.owner && w.owner[b].0 == i && TouchesPos(off, tot, w.owner[b].1))
    || b in BitmapBlocks(g, w.owner.Keys - v.owner.Keys)
  }

  /** Beyond that it passes at most the indirect block of inode i. */
  ghost predicate LogOk(g: Geo, v: View, w: View, i: nat, off: nat, tot: nat, b: nat) {
    && (MustLog(g, v, w, i, off, tot, b) ==> b in w.logged)
    && (b in w.logged ==> MustLog(g, v, w, i, off, tot, b) || (b in w.owner && w.owner[b] == (i, INDIRECT)))
  }

  ghost predicate LogIs(g: Geo, v: View, w: View, i: nat, off: nat, tot: nat) {
    forall b: nat {:trigger LogOk(g, v, w, i, off, tot, b)} :: LogOk(g, v, w, i, off, tot, b)
  }

  /** The indirect block is logged only by a write that takes blocks and goes beyond the direct ones. */
  ghost predicate IndirectLog(v: View, w: View, i: nat, end: nat)
    requires i < |w.tab| && |w.tab[i].addrs| == 13
  {
    var ind := w.tab[i].addrs[INDIRECT];
    ind in w.logged && ind != 0 ==> ind in v.logged || (end > NDIRECT * BSIZE && w.owner.Keys != v.owner.Keys)
  }

  lemma GainsInit(g: Geo, v: View, i: nat, off: nat, src: seq<Byte>)
    requires ViewOk(g, v, i) && i < |v.tab| && off <= MAXFILE * BSIZE
    ensures Gains(g, v, v, i, off, 0) && BytesAre(g, v, v, i, off, src, 0) && LogIs(g, v, v, i, off, 0)
  {
    assert v.owner.Keys - v.owner.Keys == {};
    assert BitmapBlocks(g, {}) == {};
    forall b: nat ensures LogOk(g, v, v, i, off, 0, b) {}
  }

  /** One turn of writei's loop: bmap of file block bn, then part of that block is overwritten. */
  ghost predicate Turn(off: nat, tot: nat, m: nat, n: nat) {
    && tot + m <= n && m > 0 && (tot == 0 || (off + tot) % BSIZE == 0)
    && (off + tot) % BSIZE + m <= BSIZE
  }

  /** How much of n bytes one turn moves: up to the end of the block. */
  function Chunk(off: nat, tot: nat, n: nat): nat
    requires tot <= n
  {
    var at := (off + tot) % BSIZE;
    if n - tot < BSIZE - at then n - tot else BSIZE - at
  }

  lemma ChunkTurn(off: nat, tot: nat, n: nat)
    requires tot < n && (tot == 0 || (off + tot) % BSIZE == 0) && off + n <= MAXFILE * BSIZE
    ensures var m := Chunk(off, tot, n);
            && Turn(off, tot, m, n) && (off + tot) / BSIZE < MAXFILE
            && (tot + m < n ==> (off + tot + m) % BSIZE == 0)
  {
  }

  lemma TurnBlocks(off: nat, tot: nat, m: nat, n: nat, bn: nat)
    requires Turn(off, tot, m, n)
    ensures var cur := (off + tot) / BSIZE;
            Hi(off, tot) == cur && Hi(off, tot + m) == cur + 1
            && (Touches(off, tot + m, bn) <==> Touches(off, tot, bn) || bn == cur)
  {
  }

  /** Block a partly overwritten, and logged. */
  ghost function Put(w: View, a: nat, at: nat, bytes: seq<Byte>): View
    requires a < |w.store| && at + |bytes| <= BSIZE
  {
    View(w.store[a := Overwrite(w.store[a], at, bytes)], w.tab, w.owner, w.logged + {a})
  }

  /** The state after the overwrite. */
  ghost function Overwritten(w: View, i: nat, bn: nat, at: nat, bytes: seq<Byte>): View
    requires i < |w.tab| && |w.tab[i].addrs| == 13 && w.tab[i].addrs[INDIRECT] < |w.store| && bn < MAXFILE
    requires at + |bytes| <= BSIZE && At(w.store, w.tab[i], Pos(bn)) < |w.store|
  {
    Put(w, At(w.store, w.tab[i], Pos(bn)), at, bytes)
  }

  lemma OverwrittenOk(g: Geo, w: View, i: nat, bn: nat, at: nat, bytes: seq<Byte>)
    requires ViewOk(g, w, i) && i < |w.tab| && bn < MAXFILE && at + |bytes| <= BSIZE
    requires At(w.store, w.tab[i], Pos(bn)) != 0
    ensures At(w.store, w.tab[i], Pos(bn)) < |w.store|
    ensures ViewOk(g, Overwritten(w, i, bn, at, bytes), i)
  {
    var a := At(w.store, w.tab[i], Pos(bn));
    InDataArea(g, w.store, w.tab, w.owner, 0, 0, i, Pos(bn));
    var data := Overwrite(w.store[a], at, bytes);
    DataWritten(g, w.store, w.tab, w.owner, i, bn, data);
    var x := Overwritten(w, i, bn, at, bytes);
    SyncFrame(g, w.store, x.store, w.tab, x.tab, i);
    FilesGrow(g, w.store, x.store, w.tab, x.tab);
  }

  /** A state reached by bmap of file block cur and an overwrite of part of that block. */
  ghost predicate TurnOk(g: Geo, w: View, u: View, i: nat, cur: nat) {
    && ViewOk(g, w, i) && ViewOk(g, u, i) && i < |w.tab| && cur < MAXFILE
    && Grown(g, w, u, i, cur) && At(u.store, u.tab[i], Pos(cur)) != 0
  }

  lemma KeepsOthersTurn(g: Geo, v: View, w: View, u: View, i: nat, cur: nat, at: nat, bytes: seq<Byte>)
    requires ViewOk(g, v, i) && i < |v.tab| && TurnOk(g, w, u, i, cur) && at + |bytes| <= BSIZE
    requires KeepsOthers(g, v, w, i)
    ensures At(u.store, u.tab[i], Pos(cur)) < |u.store|
    ensures var x := Overwritten(u, i, cur, at, bytes); ViewOk(g, x, i) && KeepsOthers(g, v, x, i)
  {
    OverwrittenOk(g, u, i, cur, at, bytes);
    var x := Overwritten(u, i, cur, at, bytes);
    InDataArea(g, u.store, u.tab, u.owner, 0, 0, i, Pos(cur));
    forall b | b in v.owner && b < g.size && v.owner[b].0 != i ensures x.store[b] == v.store[b] {
      assert u.store[b] == w.store[b];
    }
  }

  lemma GainsBlocksTurn(g: Geo, v: View, w: View, u: View, i: nat, off: nat, tot: nat, bytes: seq<Byte>)
    requires ViewOk(g, v, i) && i < |v.tab| == |w.tab| && TurnOk(g, w, u, i, (off + tot) / BSIZE)
    requires Turn(off, tot, |bytes|, |bytes| + tot) && GainsBlocks(g, v, w, i, off, tot)
    requires At(u.store, u.tab[i], Pos((off + tot) / BSIZE)) < |u.store|
    requires ViewOk(g, Overwritten(u, i, (off + tot) / BSIZE, (off + tot) % BSIZE, bytes), i)
    ensures GainsBlocks(g, v, Overwritten(u, i, (off + tot) / BSIZE, (off + tot) % BSIZE, bytes), i, off, tot + |bytes|)
  {
    var cur, at := (off + tot) / BSIZE, (off + tot) % BSIZE;
    var a := At(u.store, u.tab[i], Pos(cur));
    DataWritten(g, u.store, u.tab, u.owner, i, cur, Overwrite(u.store[a], at, bytes));
    var x := Overwritten(u, i, cur, at, bytes);
    assert forall q :: 0 <= q < NPOS ==> At(x.store, x.tab[i], q) == At(u.store, u.tab[i], q);
    var tot' := tot + |bytes|;
    forall bn | 0 <= bn < MAXFILE
      ensures Touches(off, tot', bn) ==> At(x.store, x.tab[i], Pos(bn)) != 0
      ensures !Touches(off, tot', bn) ==> At(x.store, x.tab[i], Pos(bn)) == At(v.store, v.tab[i], Pos(bn))
    {
      TurnBlocks(off, tot, |bytes|, tot', bn);
      assert bn != cur ==> At(u.store, u.tab[i], Pos(bn)) == At(w.store, w.tab[i], Pos(bn));
    }
  }

  /** bmap does not move a byte below the size of a hole-free file. */
  lemma GrownBytes(g: Geo, w: View, u: View, i: nat, cur: nat, k: nat)
    requires TurnOk(g, w, u, i, cur) && k < MAXFILE * BSIZE && At(w.store, w.tab[i], Pos(k / BSIZE)) != 0
    ensures ByteAt(u.store, u.tab[i], k) == ByteAt(w.store, w.tab[i], k)
  {
    InDataArea(g, w.store, w.tab, w.owner, 0, 0, i, Pos(k / BSIZE));
  }

  /** A byte of the old file outside the range written so far. */
  lemma OldBytesTurn(g: Geo, v: View, w: View, u: View, i: nat, off: nat, src: seq<Byte>, tot: nat, m: nat, k: nat)
    requires ViewOk(g, v, i) && i < |v.tab| == |w.tab| && TurnOk(g, w, u, i, (off + tot) / BSIZE)
    requires Turn(off, tot, m, |src|) && GainsBlocks(g, v, w, i, off, tot) && BytesAre(g, v, w, i, off, src, tot)
    requires At(u.store, u.tab[i], Pos((off + tot) / BSIZE)) < |u.store|
    requires ViewOk(g, Overwritten(u, i, (off + tot) / BSIZE, (off + tot) % BSIZE, src[tot..tot + m]), i)
    requires k < MAXFILE * BSIZE && k < v.tab[i].size && !(off <= k < off + tot + m)
    ensures var x := Overwritten(u, i, (off + tot) / BSIZE, (off + tot) % BSIZE, src[tot..tot + m]);
            ByteAt(x.store, x.tab[i], k) == ByteAt(v.store, v.tab[i], k)
  {
    var cur, at, bytes := (off + tot) / BSIZE, (off + tot) % BSIZE, src[tot..tot + m];
    var a := At(u.store, u.tab[i], Pos(cur));
    DataWritten(g, u.store, u.tab, u.owner, i, cur, Overwrite(u.store[a], at, bytes));
    assert FileOk(v.store, v.tab[i]);
    assert At(v.store, v.tab[i], Pos(k / BSIZE)) != 0;
    GrownBytes(g, w, u, i, cur, k);
  }

  lemma BytesTurn(g: Geo, v: View, w: View, u: View, i: nat, off: nat, src: seq<Byte>, tot: nat, m: nat)
    requires ViewOk(g, v, i) && i < |v.tab| == |w.tab| && TurnOk(g, w, u, i, (off + tot) / BSIZE)
    requires Turn(off, tot, m, |src|) && GainsBlocks(g, v, w, i, off, tot) && BytesAre(g, v, w, i, off, src, tot)
    requires At(u.store, u.tab[i], Pos((off + tot) / BSIZE)) < |u.store|
    requires ViewOk(g, Overwritten(u, i, (off + tot) / BSIZE, (off + tot) % BSIZE, src[tot..tot + m]), i)
    ensures BytesAre(g, v, Overwritten(u, i, (off + tot) / BSIZE, (off + tot) % BSIZE, src[tot..tot + m]), i, off, src, tot + m)
  {
    var cur, at, bytes := (off + tot) / BSIZE, (off + tot) % BSIZE, src[tot..tot + m];
    var a := At(u.store, u.tab[i], Pos(cur));
    DataWritten(g, u.store, u.tab, u.owner, i, cur, Overwrite(u.store[a], at, bytes));
    var x := Overwritten(u, i, cur, at, bytes);
    forall k | off <= k < off + tot + m && k < MAXFILE * BSIZE ensures ByteAt(x.store, x.tab[i], k) == src[k - off] {
      if k < off + tot {
        assert Touches(off, tot, k / BSIZE);
        GrownBytes(g, w, u, i, cur, k);
      } else {
        assert k / BSIZE == cur && k % BSIZE == k - cur * BSIZE;
      }
    }
    forall k | 0 <= k < MAXFILE * BSIZE && k < v.tab[i].size && !(off <= k < off + tot + m)
      ensures ByteAt(x.store, x.tab[i], k) == ByteAt(v.store, v.tab[i], k)
    {
      OldBytesTurn(g, v, w, u, i, off, src, tot, m, k);
    }
  }

  lemma KeysAdd(g: Geo, a: Owner, b: Owner, c: Owner)
    requires a.Keys <= b.Keys <= c.Keys
    ensures c.Keys - a.Keys == (b.Keys - a.Keys) + (c.Keys - b.Keys)
    ensures BitmapBlocks(g, c.Keys - a.Keys) == BitmapBlocks(g, b.Keys - a.Keys) + BitmapBlocks(g, c.Keys - b.Keys)
  {
  }

  /** What the log holds after bmap, before the overwrite. */
  lemma LogGrown(g: Geo, v: View, w: View, u: View, i: nat, off: nat, tot: nat, cur: nat)
    requires ViewOk(g, v, i) && ViewOk(g, w, i) && ViewOk(g, u, i) && i < |v.tab| && cur < MAXFILE
    requires KeepsOthers(g, v, w, i) && Hi(off, tot) == cur && LogIs(g, v, w, i, off, tot)
    requires Grown(g, w, u, i, cur) && GrownLog(g, w, u, i, cur)
    ensures LogIs(g, v, u, i, off, tot)
  {
    KeysAdd(g, v.owner, w.owner, u.owner);
    assert forall b :: b in v.owner ==> b in w.owner;
    forall b: nat ensures LogOk(g, v, u, i, off, tot, b) {
      assert LogOk(g, v, w, i, off, tot, b) && LoggedOk(g, w, u, i, cur, b);
      if b in u.logged && b == u.tab[i].addrs[INDIRECT] != 0 {
        InDataArea(g, u.store, u.tab, u.owner, 0, 0, i, INDIRECT);
      }
    }
  }

  /** The overwrite adds its own block to what is logged. */
  lemma LogOverwritten(g: Geo, v: View, u: View, x: View, i: nat, off: nat, tot: nat, tot': nat, cur: nat, a: nat)
    requires Hi(off, tot) == cur < MAXFILE && Hi(off, tot') == cur + 1 && off / BSIZE <= cur
    requires LogIs(g, v, u, i, off, tot)
    requires a in u.owner && u.owner[a] == (i, Pos(cur)) && x.owner == u.owner && x.logged == u.logged + {a}
    requires forall b :: b in u.owner && u.owner[b] == (i, Pos(cur)) ==> b == a
    ensures LogIs(g, v, x, i, off, tot')
  {
    forall b: nat ensures LogOk(g, v, x, i, off, tot', b) {
      assert LogOk(g, v, u, i, off, tot, b);
    }
  }

  lemma LogTurn(g: Geo, v: View, w: View, u: View, x: View, i: nat, off: nat, tot: nat, bytes: seq<Byte>)
    requires ViewOk(g, v, i) && i < |v.tab| == |w.tab| && TurnOk(g, w, u, i, (off + tot) / BSIZE)
    requires Turn(off, tot, |bytes|, |bytes| + tot) && GrownLog(g, w, u, i, (off + tot) / BSIZE)
    requires KeepsOthers(g, v, w, i) && Hi(off, tot) < MAXFILE && LogIs(g, v, w, i, off, tot)
    requires At(u.store, u.tab[i], Pos((off + tot) / BSIZE)) < |u.store|
    requires x == Overwritten(u, i, (off + tot) / BSIZE, (off + tot) % BSIZE, bytes)
    ensures Hi(off, tot + |bytes|) <= MAXFILE && LogIs(g, v, x, i, off, tot + |bytes|)
  {
    var cur := (off + tot) / BSIZE;
    TurnBlocks(off, tot, |bytes|, tot + |bytes|, 0);
    LogGrown(g, v, w, u, i, off, tot, cur);
    var a := At(u.store, u.tab[i], Pos(cur));
    InDataArea(g, u.store, u.tab, u.owner, 0, 0, i, Pos(cur));
    forall b | b in u.owner && u.owner[b] == (i, Pos(cur)) ensures b == a {
      assert OwnedOk(g, u.store, u.tab, u.owner, 0, 0, b);
    }
    LogOverwritten(g, v, u, x, i, off, tot, tot + |bytes|, cur, a);
  }

  /** When bmap finds no block, the turn ends there with nothing but a possible empty indirect block. */
  lemma FailedTurn(g: Geo, v: View, w: View, u: View, i: nat, off: nat, src: seq<Byte>, tot: nat)
    requires ViewOk(g, v, i) && ViewOk(g, w, i) && ViewOk(g, u, i) && i < |v.tab| && tot <= |src|
    requires Gains(g, v, w, i, off, tot) && BytesAre(g, v, w, i, off, src, tot)
    requires Hi(off, tot) == (off + tot) / BSIZE < MAXFILE && Grown(g, w, u, i, (off + tot) / BSIZE)
    requires At(u.store, u.tab[i], Pos((off + tot) / BSIZE)) == 0
    ensures Gains(g, v, u, i, off, tot) && BytesAre(g, v, u, i, off, src, tot)
  {
    var cur := (off + tot) / BSIZE;
    forall bn | 0 <= bn < MAXFILE
      ensures Touches(off, tot, bn) ==> At(u.store, u.tab[i], Pos(bn)) != 0
      ensures !Touches(off, tot, bn) ==> At(u.store, u.tab[i], Pos(bn)) == At(v.store, v.tab[i], Pos(bn))
    {
      assert bn != cur ==> At(u.store, u.tab[i], Pos(bn)) == At(w.store, w.tab[i], Pos(bn));
      assert !Touches(off, tot, cur);
    }
    FailedBytes(g, v, w, u, i, off, src, tot);
  }

  lemma FailedBytes(g: Geo, v: View, w: View, u: View, i: nat, off: nat, src: seq<Byte>, tot: nat)
    requires ViewOk(g, v, i) && ViewOk(g, w, i) && ViewOk(g, u, i) && i < |v.tab| && tot <= |src|
    requires Gains(g, v, w, i, off, tot) && BytesAre(g, v, w, i, off, src, tot)
    requires Hi(off, tot) == (off + tot) / BSIZE < MAXFILE && Grown(g, w, u, i, (off + tot) / BSIZE)
    ensures BytesAre(g, v, u, i, off, src, tot)
  {
    forall k | 0 <= k < MAXFILE * BSIZE && At(w.store, w.tab[i], Pos(k / BSIZE)) != 0
      ensures ByteAt(u.store, u.tab[i], k) == ByteAt(w.store, w.tab[i], k)
    {
      InDataArea(g, w.store, w.tab, w.owner, 0, 0, i, Pos(k / BSIZE));
    }
    forall k | off <= k < off + tot && k < MAXFILE * BSIZE ensures ByteAt(u.store, u.tab[i], k) == src[k - off] {
      assert Touches(off, tot, k / BSIZE);
    }
    assert FileOk(v.store, v.tab[i]);
    forall k | 0 <= k < MAXFILE * BSIZE && k < v.tab[i].size && !(off <= k < off + tot)
      ensures ByteAt(u.store, u.tab[i], k) == ByteAt(v.store, v.tab[i], k)
    {
      assert At(v.store, v.tab[i], Pos(k / BSIZE)) != 0;
    }
  }

  lemma IndirectGrown(g: Geo, v: View, w: View, u: View, i: nat, bn: nat, end: nat)
    requires ViewOk(g, v, i) && ViewOk(g, w, i) && ViewOk(g, u, i) && i < |v.tab| == |w.tab| == |u.tab|
    requires bn < MAXFILE && bn * BSIZE < end && v.owner.Keys <= w.owner.Keys
    requires IndirectLog(v, w, i, end) && Grown(g, w, u, i, bn) && GrownLog(g, w, u, i, bn)
    ensures IndirectLog(v, u, i, end)
  {
    var ind := u.tab[i].addrs[INDIRECT];
    if ind in u.logged && ind != 0 {
      assert LoggedOk(g, w, u, i, bn, ind) && OwnedOk(g, w.store, w.tab, w.owner, 0, 0, ind);
      assert PosOk(g, w.store, w.tab, w.owner, 0, 0, i, INDIRECT);
      assert u.owner.Keys == v.owner.Keys ==> w.owner.Keys == v.owner.Keys == u.owner.Keys;
      InDataArea(g, u.store, u.tab, u.owner, 0, 0, i, INDIRECT);
      forall c | c in u.owner ensures BitmapBlock(g, c) < g.nmeta {
        assert OwnedOk(g, u.store, u.tab, u.owner, 0, 0, c);
      }
    }
  }

  /** Below the old end of the file every block is there already. */
  lemma OldBlock(g: Geo, v: View, w: View, i: nat, off: nat, tot: nat, bn: nat)
    requires ViewOk(g, v, i) && ViewOk(g, w, i) && i < |v.tab| && Gains(g, v, w, i, off, tot)
    requires bn < MAXFILE
    ensures bn * BSIZE < v.tab[i].size ==> At(w.store, w.tab[i], Pos(bn)) == At(v.store, v.tab[i], Pos(bn)) != 0
  {
    assert FileOk(v.store, v.tab[i]);
  }

  /** The state of writei's loop after tot bytes. */
  ghost predicate Written(g: Geo, v: View, w: View, i: nat, off: nat, src: seq<Byte>, tot: nat) {
    && ViewOk(g, v, i) && ViewOk(g, w, i) && i < |v.tab| == |w.tab| && tot <= |src| && Hi(off, tot) <= MAXFILE
    && v.tab[i].typ != 0 && off + |src| <= MAXFILE * BSIZE
    && Gains(g, v, w, i, off, tot) && BytesAre(g, v, w, i, off, src, tot) && LogIs(g, v, w, i, off, tot)
    && IndirectLog(v, w, i, off + |src|) && (off + |src| <= v.tab[i].size ==> w.owner == v.owner)
    && (off + |src| <= NDIRECT * BSIZE ==> w.tab[i].addrs[INDIRECT] == v.tab[i].addrs[INDIRECT])
  }

  lemma WrittenNone(g: Geo, v: View, i: nat, off: nat, src: seq<Byte>)
    requires ViewOk(g, v, i) && i < |v.tab| && v.tab[i].typ != 0 && off + |src| <= MAXFILE * BSIZE
    ensures Written(g, v, v, i, off, src, 0)
  {
    GainsInit(g, v, i, off, src);
  }

  lemma WrittenMore(g: Geo, v: View, w: View, u: View, i: nat, off: nat, src: seq<Byte>, tot: nat, m: nat)
    requires Written(g, v, w, i, off, src, tot) && Turn(off, tot, m, |src|)
    requires TurnOk(g, w, u, i, (off + tot) / BSIZE) && GrownLog(g, w, u, i, (off + tot) / BSIZE)
    ensures At(u.store, u.tab[i], Pos((off + tot) / BSIZE)) < |u.store|
    ensures Written(g, v, Overwritten(u, i, (off + tot) / BSIZE, (off + tot) % BSIZE, src[tot..tot + m]), i, off, src, tot + m)
  {
    var bytes := src[tot..tot + m];
    TurnBlocks(off, tot, m, |src|, 0);
    KeepsOthersTurn(g, v, w, u, i, (off + tot) / BSIZE, (off + tot) % BSIZE, bytes);
    GainsBlocksTurn(g, v, w, u, i, off, tot, bytes);
    BytesTurn(g, v, w, u, i, off, src, tot, m);
    var x := Overwritten(u, i, (off + tot) / BSIZE, (off + tot) % BSIZE, bytes);
    LogTurn(g, v, w, u, x, i, off, tot, bytes);
    IndirectGrown(g, v, w, u, i, (off + tot) / BSIZE, off + |src|);
    OldBlock(g, v, w, i, off, tot, (off + tot) / BSIZE);
    if u.tab[i].addrs[INDIRECT] == At(u.store, u.tab[i], Pos((off + tot) / BSIZE)) {
      NoSharing(g, u.store, u.tab, u.owner, i, Pos((off + tot) / BSIZE), i, INDIRECT);
    }
  }

  lemma WrittenTo(g: Geo, v: View, w: View, u: View, i: nat, off: nat, src: seq<Byte>, tot: nat, end: nat)
    requires Written(g, v, w, i, off, src, tot) && tot < end && Turn(off, tot, end - tot, |src|)
    requires TurnOk(g, w, u, i, (off + tot) / BSIZE) && GrownLog(g, w, u, i, (off + tot) / BSIZE)
    ensures At(u.store, u.tab[i], Pos((off + tot) / BSIZE)) < |u.store|
    ensures Written(g, v, Overwritten(u, i, (off + tot) / BSIZE, (off + tot) % BSIZE, src[tot..end]), i, off, src, end)
  {
    WrittenMore(g, v, w, u, i, off, src, tot, end - tot);
    assert tot + (end - tot) == end;
  }

  lemma WrittenFull(g: Geo, v: View, w: View, u: View, i: nat, off: nat, src: seq<Byte>, tot: nat, m: nat)
    requires Written(g, v, w, i, off, src, tot) && ViewOk(g, u, i) && Turn(off, tot, m, |src|)
    requires (off + tot) / BSIZE < MAXFILE
    requires Grown(g, w, u, i, (off + tot) / BSIZE) && GrownLog(g, w, u, i, (off + tot) / BSIZE)
    requires At(u.store, u.tab[i], Pos((off + tot) / BSIZE)) == 0
    ensures Written(g, v, u, i, off, src, tot)
  {
    TurnBlocks(off, tot, m, |src|, 0);
    FailedTurn(g, v, w, u, i, off, src, tot);
    LogGrown(g, v, w, u, i, off, tot, (off + tot) / BSIZE);
    IndirectGrown(g, v, w, u, i, (off + tot) / BSIZE, off + |src|);
    OldBlock(g, v, w, i, off, tot, (off + tot) / BSIZE);
  }

  function Max(a: nat, b: nat): nat { if a < b then b else a }

  /** What writei promises: inode i reads as its old bytes with src written over them at off, and no other
      inode changes. */
  ghost predicate WriteDone(g: Geo, v: View, x: View, i: nat, off: nat, src: seq<Byte>) {
    && FilesOk(g, v.store, v.tab) && FilesOk(g, x.store, x.tab) && i < |v.tab| == |x.tab|
    && off <= v.tab[i].size
    && x.tab[i] == v.tab[i].(addrs := x.tab[i].addrs, size := Max(v.tab[i].size, off + |src|))
    && Content(x.store, x.tab[i]) == Splice(Content(v.store, v.tab[i]), off, src)
    && forall j :: 0 <= j < |v.tab| && j != i ==> SameFile(v.store, v.tab[j], x.store, x.tab[j])
  }

  /** An inode and its bytes are the same. */
  ghost predicate SameFile(store: Disk, x: Inode, store': Disk, x': Inode)
    requires |x.addrs| == 13 && x.addrs[INDIRECT] < |store| && x.size <= MAXFILE * BSIZE
    requires |x'.addrs| == 13 && x'.addrs[INDIRECT] < |store'| && x'.size <= MAXFILE * BSIZE
  {
    x' == x && Content(store', x') == Content(store, x)
  }

  /** Inode i grown to the size it was written to. */
  ghost function Resized(w: View, i: nat, size: nat): View
    requires i < |w.tab|
  {
    w.(tab := w.tab[i := w.tab[i].(size := Max(w.tab[i].size, size))])
  }

  lemma ResizedOk(g: Geo, v: View, w: View, i: nat, off: nat, src: seq<Byte>, tot: nat)
    requires Written(g, v, w, i, off, src, tot) && off <= v.tab[i].size
    ensures ViewOk(g, Resized(w, i, off + tot), i)
  {
    var x := Resized(w, i, off + tot);
    assert forall j, q :: 0 <= j < |w.tab| && 0 <= q < NPOS ==> At(x.store, x.tab[j], q) == At(w.store, w.tab[j], q);
    forall b: nat ensures OwnedOk(g, x.store, x.tab, x.owner, 0, 0, b) {
      assert OwnedOk(g, w.store, w.tab, w.owner, 0, 0, b);
    }
    forall j, q | 0 <= j < |x.tab| && 0 <= q < NPOS ensures PosOk(g, x.store, x.tab, x.owner, 0, 0, j, q) {
      assert PosOk(g, w.store, w.tab, w.owner, 0, 0, j, q);
    }
    forall j | 0 <= j < |x.tab| ensures FileOk(x.store, x.tab[j]) {
      assert FileOk(w.store, w.tab[j]);
      forall bn | 0 <= bn < MAXFILE && bn * BSIZE < x.tab[j].size ensures At(x.store, x.tab[j], Pos(bn)) != 0 {
        if j == i && bn * BSIZE >= w.tab[i].size {
          assert Touches(off, tot, bn);
        }
      }
    }
  }

  lemma ResizedContent(store: Disk, x: Inode, was: seq<Byte>, off: nat, src: seq<Byte>)
    requires |x.addrs| == 13 && x.addrs[INDIRECT] < |store| && off <= |was|
    requires x.size == Max(|was|, off + |src|) <= MAXFILE * BSIZE
    requires forall k :: off <= k < off + |src| ==> ByteAt(store, x, k) == src[k - off]
    requires forall k :: 0 <= k < |was| && !(off <= k < off + |src|) ==> ByteAt(store, x, k) == was[k]
    ensures Content(store, x) == Splice(was, off, src)
  {
    var c, d := Content(store, x), Splice(was, off, src);
    forall k | 0 <= k < |c| ensures c[k] == d[k] {
      assert c[k] == ByteAt(store, x, k);
      SpliceAt(was, off, src, k);
    }
  }

  lemma SpliceAt(c: seq<Byte>, off: nat, src: seq<Byte>, k: nat)
    requires off <= |c| && k < Max(|c|, off + |src|)
    ensures |Splice(c, off, src)| == Max(|c|, off + |src|)
    ensures Splice(c, off, src)[k] == if off <= k < off + |src| then src[k - off] else c[k]
  {
  }

  lemma OthersSame(g: Geo, v: View, w: View, i: nat, j: nat)
    requires ViewOk(g, v, i) && ViewOk(g, w, i) && i < |v.tab| && KeepsOthers(g, v, w, i) && j < |v.tab| && j != i
    ensures v.tab[j].size <= MAXFILE * BSIZE && SameFile(v.store, v.tab[j], w.store, w.tab[j])
  {
    assert FileOk(v.store, v.tab[j]);
    ContentFrame(g, v.store, w.store, v.tab, v.owner, j);
  }

  /** The end of writei: the size is set, and the inode written out. */
  lemma ResizedReads(g: Geo, v: View, w: View, i: nat, off: nat, src: seq<Byte>, tot: nat)
    requires Written(g, v, w, i, off, src, tot) && off <= v.tab[i].size && ViewOk(g, Resized(w, i, off + tot), i)
    ensures var x := Resized(w, i, off + tot);
            && v.tab[i].size <= MAXFILE * BSIZE && x.tab[i].size <= MAXFILE * BSIZE
            && Content(x.store, x.tab[i]) == Splice(Content(v.store, v.tab[i]), off, src[..tot])
  {
    var x := Resized(w, i, off + tot);
    assert FileOk(v.store, v.tab[i]) && FileOk(x.store, x.tab[i]);
    forall k | 0 <= k < MAXFILE * BSIZE ensures ByteAt(x.store, x.tab[i], k) == ByteAt(w.store, w.tab[i], k) {}
    ResizedContent(x.store, x.tab[i], Content(v.store, v.tab[i]), off, src[..tot]);
  }

  lemma WriteEnds(g: Geo, v: View, w: View, i: nat, off: nat, src: seq<Byte>, tot: nat)
    requires Written(g, v, w, i, off, src, tot) && off <= v.tab[i].size
    ensures ViewOk(g, Resized(w, i, off + tot), i)
    ensures WriteDone(g, v, Resized(w, i, off + tot), i, off, src[..tot])
  {
    ResizedOk(g, v, w, i, off, src, tot);
    ResizedReads(g, v, w, i, off, src, tot);
    var x := Resized(w, i, off + tot);
    forall j | 0 <= j < |v.tab| && j != i ensures SameFile(v.store, v.tab[j], x.store, x.tab[j]) {
      OthersSame(g, v, w, i, j);
    }
  }

  /** Writing inodes out changes no file. */
  lemma SavedSame(g: Geo, x: View, y: View, i: nat, j: nat)
    requires ViewOk(g, x, i) && j < |x.tab| && |y.store| == |x.store| && y.tab == x.tab
    requires forall b :: g.nmeta <= b < g.size ==> y.store[b] == x.store[b]
    ensures x.tab[j].size <= MAXFILE * BSIZE && SameFile(x.store, x.tab[j], y.store, y.tab[j]) && FileOk(y.store, y.tab[j])
  {
    assert FileOk(x.store, x.tab[j]);
    forall b | b in x.owner && b < g.size && x.owner[b].0 == j ensures y.store[b] == x.store[b] {
      assert OwnedOk(g, x.store, x.tab, x.owner, 0, 0, b);
    }
    ContentFrame(g, x.store, y.store, x.tab, x.owner, j);
  }

  lemma WriteSaved(g: Geo, v: View, x: View, y: View, i: nat, off: nat, src: seq<Byte>)
    requires WriteDone(g, v, x, i, off, src) && ViewOk(g, x, i) && |y.store| == |x.store| && y.tab == x.tab
    requires forall b :: g.nmeta <= b < g.size ==> y.store[b] == x.store[b]
    ensures WriteDone(g, v, y, i, off, src)
  {
    forall j | 0 <= j < |x.tab| ensures FileOk(y.store, y.tab[j]) && SameFile(x.store, x.tab[j], y.store, y.tab[j]) {
      SavedSame(g, x, y, i, j);
    }
    forall j | 0 <= j < |v.tab| && j != i ensures SameFile(v.store, v.tab[j], y.store, y.tab[j]) {
      assert SameFile(v.store, v.tab[j], x.store, x.tab[j]);
    }
  }

  /** Two writes in a row are one. */
  lemma WriteTwice(g: Geo, v: View, x: View, y: View, i: nat, off: nat, a: seq<Byte>, b: seq<Byte>)
    requires WriteDone(g, v, x, i, off, a) && WriteDone(g, x, y, i, off + |a|, b)
    ensures WriteDone(g, v, y, i, off, a + b)
  {
    SpliceTwice(Content(v.store, v.tab[i]), off, a, b);
    forall j | 0 <= j < |v.tab| && j != i ensures SameFile(v.store, v.tab[j], y.store, y.tab[j]) {
      assert SameFile(v.store, v.tab[j], x.store, x.tab[j]) && SameFile(x.store, x.tab[j], y.store, y.tab[j]);
    }
  }

  lemma SpliceTwice(c: seq<Byte>, off: nat, a: seq<Byte>, b: seq<Byte>)
    requires off <= |c|
    ensures off + |a| <= |Splice(c, off, a)|
    ensures Splice(Splice(c, off, a), off + |a|, b) == Splice(c, off, a + b)
  {
    var d, e := Splice(Splice(c, off, a), off + |a|, b), Splice(c, off, a + b);
    assert |d| == |e|;
    forall k | 0 <= k < |d| ensures d[k] == e[k] {
      SpliceAt(c, off, a + b, k);
      SpliceAt(Splice(c, off, a), off + |a|, b, k);
      if !(off + |a| <= k < off + |a| + |b|) { SpliceAt(c, off, a, k); }
    }
  }

  /** Writing nothing changes nothing. */
  lemma WriteNothing(g: Geo, v: View, i: nat, off: nat)
    requires FilesOk(g, v.store, v.tab) && i < |v.tab| && off <= v.tab[i].size
    ensures WriteDone(g, v, v, i, off, [])
  {
    assert FileOk(v.store, v.tab[i]);
    var c := Content(v.store, v.tab[i]);
    assert Splice(c, off, []) == c;
  }

  /** What filewrite leaves of k bytes at off: an offset past the end is refused. */
  ghost predicate FileWritten(g: Geo, v: View, x: View, i: nat, off: nat, src: seq<Byte>, k: nat) {
    && i < |v.tab| && k <= |src|
    && if off <= v.tab[i].size then WriteDone(g, v, x, i, off, src[..k])
       else k == 0 && x.store == v.store && x.tab == v.tab
  }

  lemma FileWrittenMore(g: Geo, v: View, x: View, y: View, i: nat, off: nat, src: seq<Byte>, k: nat, n1: nat, m: nat)
    requires FileWritten(g, v, x, i, off, src, k) && off <= v.tab[i].size && m <= n1 && k + n1 <= |src|
    requires WriteDone(g, x, y, i, off + k, src[k..k + n1][..m])
    ensures FileWritten(g, v, y, i, off, src, k + m)
  {
    var a, b := src[..k], src[k..k + n1][..m];
    assert |a| == k && a + b == src[..k + m];
    WriteTwice(g, v, x, y, i, off, a, b);
  }

  /** Between the chunks of a filewrite that started in v. */
  ghost predicate BetweenChunks(g: Geo, v: View, w: View, i: nat, off: nat, src: seq<Byte>, k: nat) {
    && ViewOk(g, w, -1) && i < |w.tab| && w.tab[i].typ != 0 && FileWritten(g, v, w, i, off, src, k)
    && (if off <= v.tab[i].size then off + k <= w.tab[i].size else off + k > w.tab[i].size)
  }

  lemma ChunkDone(g: Geo, v: View, x: View, y: View, i: nat, off: nat, src: seq<Byte>, k: nat, n1: nat, m: nat)
    requires BetweenChunks(g, v, x, i, off, src, k) && ViewOk(g, y, -1) && m <= n1 && k + n1 <= |src|
    requires off + k <= x.tab[i].size && WriteDone(g, x, y, i, off + k, src[k..k + n1][..m])
    ensures BetweenChunks(g, v, y, i, off, src, k + m)
  {
    FileWrittenMore(g, v, x, y, i, off, src, k, n1, m);
  }

  // ---------------------------------------------------------------- reading

  /** What one turn of readi's loop copies: part of one block. */
  lemma ContentPart(g: Geo, v: View, i: nat, k: nat, m: nat)
    requires ViewOk(g, v, i) && i < |v.tab| && m > 0 && k + m <= v.tab[i].size && k % BSIZE + m <= BSIZE
    ensures k / BSIZE < MAXFILE && v.tab[i].size <= MAXFILE * BSIZE
    ensures var a := At(v.store, v.tab[i], Pos(k / BSIZE));
            && 0 < a < |v.store|
            && v.store[a][k % BSIZE..k % BSIZE + m] == Content(v.store, v.tab[i])[k..k + m]
  {
    assert FileOk(v.store, v.tab[i]);
    var bn := k / BSIZE;
    assert At(v.store, v.tab[i], Pos(bn)) != 0;
    InDataArea(g, v.store, v.tab, v.owner, 0, 0, i, Pos(bn));
    var a := At(v.store, v.tab[i], Pos(bn));
    var x, y := v.store[a][k % BSIZE..k % BSIZE + m], Content(v.store, v.tab[i])[k..k + m];
    forall j | 0 <= j < m ensures x[j] == y[j] {
      assert (k + j) / BSIZE == bn && (k + j) % BSIZE == k % BSIZE + j;
    }
  }

  /** The test for wrap-around of a 32-bit sum. */
  lemma Wraps(off: nat, n: nat)
    requires off < UINT_LIMIT && n < UINT_LIMIT
    ensures (off + n) % UINT_LIMIT < off <==> off + n >= UINT_LIMIT
  {
  }

  /** Between operations, an operation on any inode may start. */
  lemma Starts(g: Geo, v: View, i: nat)
    requires ViewOk(g, v, -1) && i < |v.tab|
    ensures ViewOk(g, v, i) && v.tab[i].size <= MAXFILE * BSIZE && InodeRange(v.tab[i])
  {
    assert FileOk(v.store, v.tab[i]);
  }

  /** The bytes [off, off + n) that c has. */
  ghost function Window(c: seq<Byte>, off: nat, n: nat): seq<Byte> {
    if off > |c| then [] else if off + n > |c| then c[off..] else c[off..off + n]
  }
}
