/** kernel/fs.c in its own form: the block allocator, inodes, and their contents, over the block store
    that the logging layer provides. Blocks passed to log_write are collected in logged. */
module Fs {
  import opened Blocks
  import opened FsLayout
  import opened FsSpec
  import opened FsGrow
  import opened FsWrite
  import opened FsBudget
  import opened FsTaken
  import opened FsTrunc
  import opened FsInode
  import LogFormat
  import Mkfs

  /** The operations of the inode layer. */
  datatype Op =
    | Read(i: nat, off: nat, n: nat)
    | Write(i: nat, off: nat, src: seq<Byte>)
    | Truncate(i: nat)
    | Allocate(typ: nat)
    | Free(i: nat)
    | Link(i: nat, nlink: nat)
    | Reclaim

  lemma SliceMore(c: seq<Byte>, a: nat, b: nat, d: nat)
    requires a <= b <= d <= |c|
    ensures c[a..b] + c[b..d] == c[a..d]
  {
  }

  class FileSystem {
    const g: Geo
    var store: Disk
    var tab: seq<Inode>
    var logged: set<nat>
    ghost var owner: Owner

    /** The file system between operations. */
    ghost predicate Valid()
      reads this
    {
      Consistent(g, store, tab, owner, -1)
    }

    /** The inode table over a consistent disk, each entry as ilock reads it. */
    constructor (g: Geo, store: Disk, ghost tab: seq<Inode>, ghost owner: Owner)
      requires Consistent(g, store, tab, owner, -1)
      ensures this.g == g && this.store == store && this.tab == tab && this.owner == owner && Valid()
    {
      this.g, this.store, this.owner, this.logged := g, store, owner, {};
      this.tab := seq(g.ninodes, i requires 0 <= i < g.ninodes => DInode(g, store, i));
    }

    /** balloc: the lowest free block, marked and zeroed; 0 when every block is in use. */
    method Balloc() returns (r: nat)
      requires BitInv(g, store, owner)
      modifies this`store, this`logged
      ensures Logs(g, old(store), old(logged), store, logged)
      ensures r == 0 ==> store == old(store) && logged == old(logged) && Full(g, store)
      ensures r != 0 ==>
                && g.nmeta <= r < g.size && r !in owner
                && store == Alloced(g, old(store), r)
                && logged == old(logged) + {BitmapBlock(g, r), r}
                && forall c :: 0 <= c < r ==> Bit(g, old(store), c)
    {
      var b := 0;
      while b < g.size
        invariant b % BPB == 0
        invariant store == old(store) && logged == old(logged)
        invariant forall c :: 0 <= c < b && c < g.size ==> Bit(g, store, c)
      {
        var bi := 0;
        while bi < BPB && b + bi < g.size
          invariant 0 <= bi <= BPB
          invariant store == old(store) && logged == old(logged)
          invariant forall c :: 0 <= c < b + bi && c < g.size ==> Bit(g, store, c)
        {
          if !Bit(g, store, b + bi) {
            Take(b + bi);
            return b + bi;
          }
          bi := bi + 1;
        }
        b := b + BPB;
      }
      LogsNothing(g, store, logged);
      return 0;
    }

    /** balloc's two writes: the bit is set, then bzero. */
    method Take(b: nat)
      requires BitInv(g, store, owner) && b < g.size && !Bit(g, store, b)
      modifies this`store, this`logged
      ensures g.nmeta <= b && b !in owner && store == Alloced(g, old(store), b) && logged == old(logged) + {BitmapBlock(g, b), b}
      ensures Logs(g, old(store), old(logged), store, logged)
    {
      assert Bit(g, store, b) <==> b < g.nmeta || b in owner;
      LogsAlloced(g, store, logged, b);
      store := SetBit(g, store, b, true);
      logged := logged + {BitmapBlock(g, b)};
      store := store[b := ZeroBlock()];
      logged := logged + {b};
    }

    /** bfree: freeing a free block is a panic. */
    method Bfree(b: nat)
      requires GeoOk(g) && |store| == g.size && b < g.size && Bit(g, store, b)
      modifies this`store, this`logged
      ensures store == SetBit(g, old(store), b, false) && logged == old(logged) + {BitmapBlock(g, b)}
      ensures Logs(g, old(store), old(logged), store, logged)
    {
      LogsBit(g, store, logged, b, false);
      store := SetBit(g, store, b, false);
      logged := logged + {BitmapBlock(g, b)};
    }

    /** iupdate: copy inode i from the table to disk. */
    method Iupdate(i: nat)
      requires Consistent(g, store, tab, owner, i) && i < |tab|
      modifies this`store, this`logged
      ensures Valid() && logged == old(logged) + {InodeBlock(g, i)} && Logs(g, old(store), old(logged), store, logged)
      ensures |store| == old(|store|)
      ensures forall b :: g.bmapstart <= b < g.size ==> store[b] == old(store)[b]
    {
      InodePutKeeps(g, store, tab, owner, i);
      LogsInode(g, store, logged, i, tab[i]);
      store := PutInode(g, store, i, tab[i]);
      logged := logged + {InodeBlock(g, i)};
    }

    ghost function Now(): View
      reads this
    {
      View(store, tab, owner, logged)
    }

    /** bmap: the address of file block bn, allocated if it has none; 0 when the disk is full.
        A file block beyond MAXFILE is a panic. */
    method Bmap(i: nat, bn: nat) returns (addr: nat)
      requires ViewOk(g, Now(), i) && i < |tab| && tab[i].typ != 0 && bn < MAXFILE
      modifies this
      ensures ViewOk(g, Now(), i) && |tab| == |old(tab)| && addr == At(store, tab[i], Pos(bn))
      ensures addr == 0 ==> Full(g, store)
      ensures Grown(g, old(Now()), Now(), i, bn) && GrownLog(g, old(Now()), Now(), i, bn)
      ensures Logs(g, old(store), old(logged), store, logged) && Lowest(g, old(owner), owner)
    {
      LogsNothing(g, store, logged);
      LowestNone(g, owner);
      if bn < NDIRECT {
        addr := tab[i].addrs[bn];
        if addr == 0 {
          addr := Balloc();
          if addr == 0 {
            return 0;
          }
          GivenGrows(g, old(Now()), i, bn, addr);
          LowestOne(g, old(store), owner, addr, (i, bn));
          tab := SetAddr(tab, i, bn, addr);
          owner := owner[addr := (i, bn)];
        }
        return addr;
      }
      addr := BmapIndirect(i, bn);
    }

    /** bmap's second half: the block may have to be found through the indirect block. */
    method BmapIndirect(i: nat, bn: nat) returns (addr: nat)
      requires ViewOk(g, Now(), i) && i < |tab| && tab[i].typ != 0 && NDIRECT <= bn < MAXFILE
      modifies this
      ensures ViewOk(g, Now(), i) && |tab| == |old(tab)| && addr == At(store, tab[i], Pos(bn))
      ensures addr == 0 ==> Full(g, store)
      ensures Grown(g, old(Now()), Now(), i, bn) && GrownLog(g, old(Now()), Now(), i, bn)
      ensures Logs(g, old(store), old(logged), store, logged) && Lowest(g, old(owner), owner)
    {
      LogsNothing(g, store, logged);
      LowestNone(g, owner);
      addr := tab[i].addrs[NDIRECT];
      if addr == 0 {
        addr := Balloc();
        if addr == 0 {
          return 0;
        }
        IndirectGrows(g, old(Now()), i, bn, addr);
        LowestOne(g, old(store), owner, addr, (i, INDIRECT));
        tab := SetAddr(tab, i, INDIRECT, addr);
        owner := owner[addr := (i, INDIRECT)];
      }
      ghost var mid := Now();
      addr := BmapEntry(i, bn);
      LogsThen(g, old(store), old(logged), mid.store, mid.logged, store, logged);
      LowestThen(g, old(owner), mid.owner, owner);
      if old(tab)[i].addrs[INDIRECT] == 0 {
        GrownTwice(g, old(Now()), mid, Now(), i, bn);
      }
    }

    /** bmap's lookup in an indirect block that exists. */
    method BmapEntry(i: nat, bn: nat) returns (addr: nat)
      requires ViewOk(g, Now(), i) && i < |tab| && tab[i].typ != 0 && NDIRECT <= bn < MAXFILE
      requires tab[i].addrs[INDIRECT] != 0
      modifies this
      ensures ViewOk(g, Now(), i) && |tab| == |old(tab)| && addr == At(store, tab[i], Pos(bn))
      ensures addr == 0 ==> Full(g, store)
      ensures Grown(g, old(Now()), Now(), i, bn) && GrownLog(g, old(Now()), Now(), i, bn)
      ensures Logs(g, old(store), old(logged), store, logged) && Lowest(g, old(owner), owner)
    {
      var ind := tab[i].addrs[INDIRECT];
      InDataArea(g, store, tab, owner, 0, 0, i, INDIRECT);
      LogsNothing(g, store, logged);
      LowestNone(g, owner);
      addr := GetWord(store[ind], bn - NDIRECT);
      if addr == 0 {
        addr := Balloc();
        if addr != 0 {
          EntryGrows(g, old(Now()), i, bn, addr);
          LowestOne(g, old(store), owner, addr, (i, Pos(bn)));
          LogsOne(g, store, logged, ind, PutWord(store[ind], bn - NDIRECT, addr));
          LogsThen(g, old(store), old(logged), store, logged, store[ind := PutWord(store[ind], bn - NDIRECT, addr)], logged + {ind});
          store := store[ind := PutWord(store[ind], bn - NDIRECT, addr)];
          logged := logged + {ind};
          owner := owner[addr := (i, Pos(bn))];
        }
      }
    }

    /** readi: the bytes of [off, off + n) that the file has. It never allocates, so it changes nothing
        and needs no transaction. */
    method Readi(i: nat, off: nat, n: nat) returns (r: seq<Byte>)
      requires Valid() && i < |tab| && tab[i].typ != 0 && off < UINT_LIMIT && n < UINT_LIMIT
      modifies this
      ensures Now() == old(Now()) && tab[i].size <= MAXFILE * BSIZE
      ensures r == if off + n >= UINT_LIMIT then [] else Window(Content(store, tab[i]), off, n)
    {
      Starts(g, Now(), i);
      Wraps(off, n);
      if off > tab[i].size || (off + n) % UINT_LIMIT < off {
        return [];
      }
      var len := n;
      if off + n > tab[i].size {
        len := tab[i].size - off;
      }
      r := ReadBlocks(i, off, len);
    }

    /** bmap of a block that exists only looks it up. */
    method BmapFound(i: nat, bn: nat) returns (addr: nat)
      requires ViewOk(g, Now(), i) && i < |tab| && tab[i].typ != 0 && bn < MAXFILE && At(store, tab[i], Pos(bn)) != 0
      modifies this
      ensures Now() == old(Now()) && addr == At(old(store), old(tab)[i], Pos(bn)) != 0
    {
      addr := Bmap(i, bn);
    }

    /** One turn of readi's loop. bmap finds the block, since files have no holes. */
    method ReadBlock(i: nat, k: nat, m: nat) returns (r: seq<Byte>)
      requires ViewOk(g, Now(), i) && i < |tab| && tab[i].typ != 0
      requires m > 0 && k + m <= tab[i].size <= MAXFILE * BSIZE && k % BSIZE + m <= BSIZE
      modifies this
      ensures Now() == old(Now()) && r == Content(old(store), old(tab)[i])[k..k + m]
    {
      ContentPart(g, Now(), i, k, m);
      var addr := BmapFound(i, k / BSIZE);
      r := store[addr][k % BSIZE..k % BSIZE + m];
    }

    /** readi's loop, a block at a time. */
    method ReadBlocks(i: nat, off: nat, len: nat) returns (r: seq<Byte>)
      requires ViewOk(g, Now(), i) && i < |tab| && tab[i].typ != 0 && off + len <= tab[i].size <= MAXFILE * BSIZE
      modifies this
      ensures Now() == old(Now())
      ensures r == Content(store, tab[i])[off..off + len]
    {
      ghost var v := Now();
      ghost var c := Content(v.store, v.tab[i]);
      var tot := 0;
      r := [];
      while tot < len
        invariant 0 <= tot <= len && Now() == v
        invariant r == c[off..off + tot]
      {
        ghost var was := tot;
        var part;
        tot, part := ReadTurn(i, off, len, tot);
        SliceMore(c, off, off + was, off + tot);
        r := r + part;
      }
    }

    /** One turn: up to the end of the block. */
    method ReadTurn(i: nat, off: nat, len: nat, tot: nat) returns (tot': nat, part: seq<Byte>)
      requires ViewOk(g, Now(), i) && i < |tab| && tab[i].typ != 0 && off + len <= tab[i].size <= MAXFILE * BSIZE && tot < len
      modifies this
      ensures Now() == old(Now()) && tot < tot' <= len && part == Content(old(store), old(tab)[i])[off + tot..off + tot']
    {
      var m := Chunk(off, tot, len);
      part := ReadBlock(i, off + tot, m);
      tot' := tot + m;
    }

    /** bmap for the next m bytes of src. */
    method MapNext(i: nat, off: nat, src: seq<Byte>, tot: nat, m: nat, ghost v: View) returns (addr: nat)
      requires Written(g, v, Now(), i, off, src, tot) && Turn(off, tot, m, |src|) && (off + tot) / BSIZE < MAXFILE
      modifies this
      ensures Logs(g, old(store), old(logged), store, logged) && Lowest(g, old(owner), owner)
      ensures addr == 0 ==> Written(g, v, Now(), i, off, src, tot) && Full(g, store) && off + |src| > v.tab[i].size
                            && At(store, tab[i], Pos((off + tot) / BSIZE)) == 0
      ensures addr != 0 ==>
                && g.nmeta <= addr < g.size == |store|
                && Written(g, v, Put(Now(), addr, (off + tot) % BSIZE, src[tot..tot + m]), i, off, src, tot + m)
    {
      ghost var w := Now();
      addr := Bmap(i, (off + tot) / BSIZE);
      if addr != 0 { InDataArea(g, store, tab, owner, 0, 0, i, Pos((off + tot) / BSIZE)); }
      OldBlock(g, v, w, i, off, tot, (off + tot) / BSIZE);
      if addr == 0 {
        WrittenFull(g, v, w, Now(), i, off, src, tot, m);
      } else {
        WrittenMore(g, v, w, Now(), i, off, src, tot, m);
      }
    }

    /** either_copyin into a buffer, then log_write. */
    method CopyIn(addr: nat, at: nat, bytes: seq<Byte>)
      requires g.inodestart <= addr < g.size == |store| && at + |bytes| <= BSIZE
      modifies this`store, this`logged
      ensures Now() == Put(old(Now()), addr, at, bytes) && Logs(g, old(store), old(logged), store, logged)
    {
      LogsOne(g, store, logged, addr, Overwrite(store[addr], at, bytes));
      store := store[addr := Overwrite(store[addr], at, bytes)];
      logged := logged + {addr};
    }

    /** One turn of writei's loop: at most one block; 0 bytes when the disk is full. */
    method WriteBlock(i: nat, off: nat, src: seq<Byte>, tot: nat, ghost v: View) returns (m: nat)
      requires Written(g, v, Now(), i, off, src, tot) && tot < |src| && (tot == 0 || (off + tot) % BSIZE == 0)
      modifies this
      ensures tot + m <= |src| && Written(g, v, Now(), i, off, src, tot + m)
      ensures Logs(g, old(store), old(logged), store, logged) && Lowest(g, old(owner), owner)
      ensures m == 0 || m == Chunk(off, tot, |src|)
      ensures m == 0 ==> Full(g, store) && off + |src| > v.tab[i].size && StoppedAt(v, Now(), i, off, |src|, tot)
      ensures m > 0 && tot + m < |src| ==> (off + tot + m) % BSIZE == 0
    {
      m := Chunk(off, tot, |src|);
      ChunkTurn(off, tot, |src|);
      var addr := MapNext(i, off, src, tot, m, v);
      if addr == 0 {
        return 0;
      }
      ghost var was, lwas := store, logged;
      CopyIn(addr, (off + tot) % BSIZE, src[tot..tot + m]);
      LogsThen(g, old(store), old(logged), was, lwas, store, logged);
    }

    /** writei's loop. */
    method WriteBlocks(i: nat, off: nat, src: seq<Byte>) returns (tot: nat)
      requires ViewOk(g, Now(), i) && i < |tab| && tab[i].typ != 0 && off + |src| <= MAXFILE * BSIZE
      modifies this
      ensures Written(g, old(Now()), Now(), i, off, src, tot)
      ensures Logs(g, old(store), old(logged), store, logged) && Lowest(g, old(owner), owner)
      ensures tot < |src| ==> Full(g, store) && off + |src| > old(tab[i].size) && StoppedAt(old(Now()), Now(), i, off, |src|, tot)
      ensures off % BSIZE + |src| <= BSIZE ==> tot == 0 || tot == |src|
    {
      ghost var v := Now();
      WrittenNone(g, v, i, off, src);
      LogsNothing(g, store, logged);
      LowestNone(g, owner);
      tot := 0;
      while tot < |src|
        invariant Written(g, v, Now(), i, off, src, tot) && Logs(g, v.store, v.logged, store, logged) && Lowest(g, v.owner, owner)
        invariant tot < |src| ==> tot == 0 || (off + tot) % BSIZE == 0
        invariant off % BSIZE + |src| <= BSIZE ==> tot == 0 || tot == |src|
      {
        ghost var w := Now();
        var m := WriteBlock(i, off, src, tot, v);
        LogsThen(g, v.store, v.logged, w.store, w.logged, store, logged);
        LowestThen(g, v.owner, w.owner, owner);
        if m == 0 {
          break;
        }
        tot := tot + m;
      }
    }

    /** The end of writei: a grown size, then the inode to disk. */
    method SaveWritten(i: nat, off: nat, src: seq<Byte>, tot: nat, ghost v: View)
      requires Written(g, v, Now(), i, off, src, tot) && off <= v.tab[i].size
      modifies this`tab, this`store, this`logged
      ensures Valid() && WriteDone(g, v, Now(), i, off, src[..tot]) && logged == old(logged) + {InodeBlock(g, i)}
      ensures |store| == old(|store|) && forall b :: g.bmapstart <= b < g.size ==> store[b] == old(store)[b]
      ensures Logs(g, old(store), old(logged), store, logged)
    {
      WriteEnds(g, v, Now(), i, off, src, tot);
      if off + tot > tab[i].size {
        tab := tab[i := tab[i].(size := off + tot)];
      }
      ghost var x := Now();
      assert x == Resized(old(Now()), i, off + tot);
      Iupdate(i);
      WriteSaved(g, v, x, Now(), i, off, src[..tot]);
    }

    /** writei: bytes src written over inode i at off, as many as the disk has room for; -1 for an offset
        beyond the end of the file or a file that would grow too long. */
    method Writei(i: nat, off: nat, src: seq<Byte>) returns (n: int)
      requires Valid() && i < |tab| && tab[i].typ != 0 && off < UINT_LIMIT && |src| < UINT_LIMIT
      modifies this
      ensures Valid()
      ensures n == -1 <==> off > old(tab[i].size) || off + |src| > MAXFILE * BSIZE
      ensures n == -1 ==> Now() == old(Now())
      ensures Logs(g, old(store), old(logged), store, logged)
      ensures n != -1 ==> 0 <= n <= |src| && WriteDone(g, old(Now()), Now(), i, off, src[..n])
      ensures n != -1 && n < |src| ==> Full(g, store) && off + |src| > old(tab[i].size)
      ensures off % BSIZE + |src| <= BSIZE && n > 0 ==> n == |src|
      ensures n != -1 ==> WriteReport(g, old(Now()), owner, logged, i, off, src, n)
    {
      Starts(g, Now(), i);
      Wraps(off, |src|);
      LogsNothing(g, store, logged);
      if off > tab[i].size || (off + |src|) % UINT_LIMIT < off {
        return -1;
      }
      if off + |src| > MAXFILE * BSIZE {
        return -1;
      }
      n := WriteOut(i, off, src);
    }

    /** writei once the range is found good. */
    method WriteOut(i: nat, off: nat, src: seq<Byte>) returns (tot: nat)
      requires ViewOk(g, Now(), i) && i < |tab| && tab[i].typ != 0 && off <= tab[i].size && off + |src| <= MAXFILE * BSIZE
      modifies this
      ensures Valid() && tot <= |src| && WriteDone(g, old(Now()), Now(), i, off, src[..tot])
      ensures Logs(g, old(store), old(logged), store, logged)
      ensures tot < |src| ==> Full(g, store) && off + |src| > old(tab[i].size)
      ensures off % BSIZE + |src| <= BSIZE ==> tot == 0 || tot == |src|
      ensures WriteReport(g, old(Now()), owner, logged, i, off, src, tot)
    {
      tot := WriteBlocks(i, off, src);
      ghost var was, lwas := store, logged;
      WriteReports(g, old(Now()), Now(), i, off, src, tot);
      SaveWritten(i, off, src, tot, old(Now()));
      LogsThen(g, old(store), old(logged), was, lwas, store, logged);
      if tot < |src| {
        FullFrame(g, was, store);
      }
    }

    /** writei of one directory entry, by a transaction that has logged nothing yet. */
    method WriteEntry(i: nat, off: nat, e: seq<Byte>) returns (n: int)
      requires Valid() && i < |tab| && tab[i].typ != 0 && off < UINT_LIMIT && off % DIRENT == 0 && |e| == DIRENT && logged == {}
      modifies this
      ensures Valid()
      ensures n == -1 <==> off > old(tab[i].size) || off + DIRENT > MAXFILE * BSIZE
      ensures n == -1 ==> Now() == old(Now())
      ensures n != -1 ==> (n == 0 || n == DIRENT) && WriteDone(g, old(Now()), Now(), i, off, e[..n]) && EntryLogged(g, old(Now()), i, off, n, logged)
      ensures n != -1 && n < DIRENT ==> off + DIRENT > old(tab[i].size)
      ensures n != -1 ==> Takes(old(owner), owner, i) && BitmapBlocks(g, owner.Keys - old(owner).Keys) + {InodeBlock(g, i)} <= logged
    {
      EntryBlock(off, DIRENT);
      n := Writei(i, off, e);
    }

    /** One chunk: begin_op, writei, end_op. */
    method WriteOp(i: nat, off: nat, src: seq<Byte>) returns (n: int)
      requires Valid() && i < |tab| && tab[i].typ != 0 && off < UINT_LIMIT && |src| <= MAXWRITE
      modifies this
      ensures Valid() && |logged| <= LogFormat.MAXOPBLOCKS && Logs(g, old(store), {}, store, logged)
      ensures n == -1 <==> off > old(tab[i].size) || off + |src| > MAXFILE * BSIZE
      ensures n == -1 ==> store == old(store) && tab == old(tab)
      ensures n != -1 ==> 0 <= n <= |src| && WriteDone(g, old(Now()).(logged := {}), Now(), i, off, src[..n])
      ensures n != -1 && n < |src| ==> Full(g, store)
    {
      n := ChunkOp(i, off, src);
    }

    /** The same, with what it reports about blocks. */
    method ChunkOp(i: nat, off: nat, src: seq<Byte>) returns (n: int)
      requires Valid() && i < |tab| && tab[i].typ != 0 && off < UINT_LIMIT && |src| <= MAXWRITE
      modifies this
      ensures Valid() && |logged| <= LogFormat.MAXOPBLOCKS && Logs(g, old(store), {}, store, logged)
      ensures n == -1 <==> off > old(tab[i].size) || off + |src| > MAXFILE * BSIZE
      ensures n == -1 ==> Now() == old(Now()).(logged := {})
      ensures n != -1 ==> 0 <= n <= |src| && WriteDone(g, old(Now()).(logged := {}), Now(), i, off, src[..n])
      ensures n != -1 && n < |src| ==> Full(g, store)
      ensures n != -1 ==> WriteReport(g, old(Now()).(logged := {}), owner, logged, i, off, src, n)
    {
      logged := {};
      n := Writei(i, off, src);
    }

    /** Between the chunks of a filewrite that started in state v. */
    ghost predicate Writing(v: View, i: nat, off: nat, src: seq<Byte>, k: nat)
      reads this
    {
      BetweenChunks(g, v, Now(), i, off, src, k)
    }

    method WriteChunk(i: nat, off: nat, src: seq<Byte>, k: nat, n1: nat, ghost v: View) returns (n: int, ghost k': nat)
      requires Writing(v, i, off, src, k) && k + n1 <= |src| && 0 < n1 <= MAXWRITE && off + k < UINT_LIMIT
      modifies this
      ensures -1 <= n <= n1 && k' == (if n == -1 then k else k + n) && Writing(v, i, off, src, k')
      ensures |logged| <= LogFormat.MAXOPBLOCKS
      ensures n < n1 ==> off > v.tab[i].size || off + k + n1 > MAXFILE * BSIZE || Full(g, store)
      ensures n != -1 ==> off + k + n <= MAXFILE * BSIZE
    {
      ghost var x := Now().(logged := {});
      n := WriteOp(i, off + k, src[k..k + n1]);
      if n != -1 {
        ChunkDone(g, v, x, Now(), i, off, src, k, n1, n);
      }
      k' := if n == -1 then k else k + n;
    }

    /** filewrite on an inode: one transaction for each chunk, and each fits its reservation. off' is the new
        file offset and k the number of bytes that reached the file; anything less than all of them is -1. */
    method Filewrite(i: nat, off: nat, src: seq<Byte>)
      returns (ret: int, off': nat, ghost k: nat, ghost ops: seq<set<nat>>)
      requires Valid() && i < |tab| && tab[i].typ != 0 && off < UINT_LIMIT && |src| < UINT_LIMIT
      modifies this
      ensures Valid() && FileWritten(g, old(Now()), Now(), i, off, src, k)
      ensures off' == off + k && ret == if k == |src| then k else -1
      ensures k < |src| ==> off > old(tab[i].size) || off + |src| > MAXFILE * BSIZE || Full(g, store)
      ensures forall t :: t in ops ==> |t| <= LogFormat.MAXOPBLOCKS
    {
      ghost var v := Now();
      off', k, ops := off, 0, [];
      var done := 0;
      if off <= tab[i].size { WriteNothing(g, v, i, off); }
      while done < |src|
        invariant 0 <= done == k <= |src| && off' == off + k < UINT_LIMIT && Writing(v, i, off, src, k)
        invariant forall t :: t in ops ==> |t| <= LogFormat.MAXOPBLOCKS
      {
        var n1 := if |src| - done > MAXWRITE then MAXWRITE else |src| - done;
        var r;
        r, k := WriteChunk(i, off, src, done, n1, v);
        ops := ops + [logged];
        if r > 0 {
          off' := off' + r;
        }
        if r != n1 {
          break;
        }
        done := done + r;
      }
      ret := if done == |src| then done else -1;
    }

    /** itrunc's first loop: the direct blocks. */
    method FreeDirects(i: nat, ghost v: View)
      requires Truncating(g, v, Now(), i, 0)
      modifies this
      ensures Logs(g, old(store), old(logged), store, logged)
      ensures Truncating(g, v, Now(), i, 0) && forall q :: 0 <= q < NDIRECT ==> tab[i].addrs[q] == 0
    {
      var p := 0;
      LogsNothing(g, store, logged);
      while p < NDIRECT
        invariant 0 <= p <= NDIRECT && Truncating(g, v, Now(), i, 0) && Logs(g, old(store), old(logged), store, logged)
        invariant forall q :: 0 <= q < p ==> tab[i].addrs[q] == 0
      {
        if tab[i].addrs[p] != 0 {
          FreeDirect(g, v, Now(), i, p);
          ghost var b, w := tab[i].addrs[p], Now();
          Bfree(tab[i].addrs[p]);
          LogsThen(g, old(store), old(logged), w.store, w.logged, store, logged);
          owner := owner - {b};
          tab := SetAddr(tab, i, p, 0);
        }
        p := p + 1;
      }
    }

    /** itrunc's second loop: the blocks listed in the indirect block, then that block. */
    method FreeIndirects(i: nat, ghost v: View)
      requires Truncating(g, v, Now(), i, 0) && tab[i].addrs[INDIRECT] != 0
      requires forall q :: 0 <= q < NDIRECT ==> tab[i].addrs[q] == 0
      modifies this
      ensures Truncating(g, v, Now(), i, 0) && tab[i].addrs == NO_ADDRS
      ensures Logs(g, old(store), old(logged), store, logged)
    {
      ghost var addrs := tab[i].addrs;
      var j := 0;
      LogsNothing(g, store, logged);
      while j < NINDIRECT
        invariant 0 <= j <= NINDIRECT && Truncating(g, v, Now(), i, j) && tab[i].addrs == addrs
        invariant Logs(g, old(store), old(logged), store, logged)
      {
        FreeEntry(g, v, Now(), i, j);
        var a := GetWord(store[tab[i].addrs[INDIRECT]], j);
        if a != 0 {
          ghost var w := Now();
          Bfree(a);
          LogsThen(g, old(store), old(logged), w.store, w.logged, store, logged);
          owner := owner - {a};
        }
        j := j + 1;
      }
      FreeIndirect(g, v, Now(), i);
      ghost var b, w := tab[i].addrs[INDIRECT], Now();
      Bfree(tab[i].addrs[INDIRECT]);
      LogsThen(g, old(store), old(logged), w.store, w.logged, store, logged);
      owner := owner - {b};
      tab := SetAddr(tab, i, INDIRECT, 0);
    }

    /** itrunc: bfree never finds a block that is already free. */
    method Itrunc(i: nat)
      requires Valid() && i < |tab|
      modifies this
      ensures Valid() && Emptied(g, old(Now()), Now(), i)
      ensures logged == old(logged) + BitmapBlocks(g, old(owner).Keys - owner.Keys) + {InodeBlock(g, i)}
      ensures Logs(g, old(store), old(logged), store, logged)
    {
      ghost var v := Now();
      FreedNone(g, v);
      NoneExempt(g, store, tab, owner, 0, i);
      FreeDirects(i, v);
      ghost var w := Now();
      LogsNothing(g, store, logged);
      if tab[i].addrs[INDIRECT] != 0 {
        FreeIndirects(i, v);
      }
      LogsThen(g, v.store, v.logged, w.store, w.logged, store, logged);
      ghost var x := Now();
      SaveEmptied(i, v);
      LogsThen(g, v.store, v.logged, x.store, x.logged, store, logged);
    }

    /** The end of itrunc: the size is zero, and the inode goes to disk. */
    method SaveEmptied(i: nat, ghost v: View)
      requires Truncating(g, v, Now(), i, 0) && tab[i].addrs == NO_ADDRS
      modifies this
      ensures Valid() && Emptied(g, v, Now(), i) && owner == old(owner) && logged == old(logged) + {InodeBlock(g, i)}
      ensures Logs(g, old(store), old(logged), store, logged)
    {
      Truncated(g, v, Now(), i);
      tab := tab[i := tab[i].(size := 0)];
      ghost var x := Now();
      Iupdate(i);
      EmptiedSaved(g, v, x, Now(), i);
    }

    /** The fields of inode i that do not locate its bytes are set, then iupdate. */
    method Record(i: nat, y: Inode)
      requires Valid() && Recordable(Now(), i, y)
      modifies this
      ensures Valid() && owner == old(owner) && tab == old(tab)[i := y] && OnlyChanges(g, old(Now()), Now(), {i})
      ensures logged == old(logged) + {InodeBlock(g, i)} && SameContent(g, old(Now()), Now(), i)
      ensures Logs(g, old(store), old(logged), store, logged)
    {
      ghost var v := Now();
      Recorded(g, v, i, y);
      tab := tab[i := y];
      ghost var x := Now();
      Iupdate(i);
      RecordSaved(g, v, x, Now(), i);
    }

    /** ialloc: the lowest free inode, empty and of type typ; 0 when there is none. */
    method Ialloc(typ: nat) returns (r: nat)
      requires Valid() && 0 < typ < SHORT_LIMIT
      modifies this
      ensures Valid() && Logs(g, old(store), old(logged), store, logged)
      ensures r == 0 ==> Now() == old(Now()) && forall j :: 1 <= j < |tab| ==> tab[j].typ != 0
      ensures r != 0 ==>
                && r < |tab| && old(tab[r].typ) == 0 && (forall j :: 1 <= j < r ==> old(tab)[j].typ != 0)
                && tab == old(tab)[r := Inode(typ, 0, 0, 0, 0, NO_ADDRS)] && OnlyChanges(g, old(Now()), Now(), {r})
                && owner == old(owner) && logged == old(logged) + {InodeBlock(g, r)}
    {
      LogsNothing(g, store, logged);
      r := FindFree();
      if r != 0 {
        Starts(g, Now(), r);
        assert FileOk(store, tab[r]);
        Record(r, Inode(typ, 0, 0, 0, 0, NO_ADDRS));
      }
    }

    /** ialloc's scan of the inode blocks. */
    method FindFree() returns (r: nat)
      requires Valid()
      ensures r == 0 ==> forall j :: 1 <= j < |tab| ==> tab[j].typ != 0
      ensures r != 0 ==> r < |tab| && tab[r].typ == 0 && forall j :: 1 <= j < r ==> tab[j].typ != 0
    {
      r := 1;
      while r < g.ninodes
        invariant 1 <= r <= g.ninodes && forall j :: 1 <= j < r ==> tab[j].typ != 0
      {
        assert tab[r] == DInode(g, store, r);
        if DInode(g, store, r).typ == 0 {
          return;
        }
        r := r + 1;
      }
      r := 0;
    }

    /** iput's last reference to an inode without links: it is emptied and freed. */
    method Ifree(i: nat)
      requires Valid() && i < |tab|
      modifies this
      ensures Valid() && tab == old(tab)[i := old(tab)[i].(typ := 0, size := 0, addrs := NO_ADDRS)]
      ensures OnlyChanges(g, old(Now()), Now(), {i})
      ensures forall b :: b in owner <==> b in old(owner) && old(owner)[b].0 != i
      ensures forall b :: b in owner ==> owner[b] == old(owner)[b]
      ensures logged == old(logged) + BitmapBlocks(g, old(owner).Keys - owner.Keys) + {InodeBlock(g, i)}
      ensures Logs(g, old(store), old(logged), store, logged)
    {
      ghost var v := Now();
      Itrunc(i);
      ghost var w := Now();
      assert OnlyChanges(g, v, w, {i});
      Starts(g, w, i);
      Record(i, tab[i].(typ := 0));
      LogsThen(g, v.store, v.logged, w.store, w.logged, store, logged);
      ChangesAdd(g, v, w, Now(), {i}, {i});
      assert {i} + {i} == {i};
    }

    /** ireclaim, after a crash: inodes that no directory names are freed. */
    method Ireclaim()
      requires Valid()
      modifies this
      ensures Valid() && |tab| == old(|tab|)
      ensures forall j :: 1 <= j < |tab| ==> tab[j].typ == 0 || tab[j].nlink != 0
      ensures OnlyChanges(g, old(Now()), Now(), Orphans(old(tab))) && Logs(g, old(store), old(logged), store, logged)
    {
      ghost var v := Now();
      ghost var s := Orphans(tab);
      var inum := 1;
      LogsNothing(g, store, logged);
      while inum < g.ninodes
        invariant 1 <= inum <= g.ninodes == |tab| == |v.tab| && Valid() && OnlyChanges(g, v, Now(), s)
        invariant forall j :: 1 <= j < inum ==> tab[j].typ == 0 || tab[j].nlink != 0
        invariant forall j :: inum <= j < |tab| ==> tab[j] == v.tab[j]
        invariant Logs(g, v.store, v.logged, store, logged)
      {
        if tab[inum].typ != 0 && tab[inum].nlink == 0 {
          ghost var w := Now();
          Ifree(inum);
          LogsThen(g, v.store, v.logged, w.store, w.logged, store, logged);
          ChangesAdd(g, v, w, Now(), s, {inum});
          assert s + {inum} == s;
        }
        inum := inum + 1;
      }
    }

    /** One operation, on an inode that is in use. */
    method Do(op: Op)
      requires Valid()
      modifies this
      ensures Valid() && Logs(g, old(store), old(logged), store, logged)
    {
      LogsNothing(g, store, logged);
      match op
      case Read(i, off, n) =>
        if i < |tab| && tab[i].typ != 0 && off < UINT_LIMIT && n < UINT_LIMIT {
          var bytes := Readi(i, off, n);
        }
      case Write(i, off, src) =>
        if i < |tab| && tab[i].typ != 0 && off < UINT_LIMIT && |src| < UINT_LIMIT {
          var n := Writei(i, off, src);
        }
      case Truncate(i) =>
        if i < |tab| { Itrunc(i); }
      case Allocate(typ) =>
        if 0 < typ < SHORT_LIMIT {
          var r := Ialloc(typ);
        }
      case Free(i) =>
        if i < |tab| { Ifree(i); }
      case Link(i, nlink) =>
        if i < |tab| && nlink < SHORT_LIMIT {
          assert FileOk(store, tab[i]);
          Record(i, tab[i].(nlink := nlink));
        }
      case Reclaim =>
        Ireclaim();
    }

    /** No block stands at two positions of one or two inodes. */
    ghost predicate NoneShared()
      requires Valid()
      reads this
    {
      forall i, p, j, q | 0 <= i < |tab| && 0 <= j < |tab| && 0 <= p < NPOS && 0 <= q < NPOS ::
        At(store, tab[i], p) == At(store, tab[j], q) != 0 ==> i == j && p == q
    }

    /** A data block is marked exactly if some inode uses it. */
    ghost predicate MarkedAreUsed()
      requires Valid()
      reads this
    {
      forall b :: g.nmeta <= b < g.size ==>
        (Bit(g, store, b) <==> exists i, p :: 0 <= i < |tab| && 0 <= p < NPOS && At(store, tab[i], p) == b)
    }

    /** After any run of operations no block is used twice, none has leaked, and none is used that is free. */
    method Run(ops: seq<Op>)
      requires Valid()
      modifies this
      ensures Valid() && NoneShared() && MarkedAreUsed()
    {
      var n := 0;
      while n < |ops|
        invariant 0 <= n <= |ops| && Valid()
      {
        Do(ops[n]);
        n := n + 1;
      }
      forall i, p, j, q | 0 <= i < |tab| && 0 <= j < |tab| && 0 <= p < NPOS && 0 <= q < NPOS
                && At(store, tab[i], p) == At(store, tab[j], q) != 0 ensures i == j && p == q {
        NoSharing(g, store, tab, owner, i, p, j, q);
      }
      forall b | g.nmeta <= b < g.size
        ensures Bit(g, store, b) <==> exists i, p :: 0 <= i < |tab| && 0 <= p < NPOS && At(store, tab[i], p) == b
      {
        MarkedIffUsed(g, store, tab, owner, b);
      }
    }
  }

  /** From mkfs to any run of operations: mkfs goes through exactly when the files fit the disk and one bitmap block, and from then on
      the file system is consistent, unless the entries of the root directory exactly fill its blocks. */
  method BootAndRun(g: Geo, files: seq<Mkfs.HostFile>, ops: seq<Op>) returns (ok: bool, fs: FileSystem?)
    requires GeoOk(g) && |files| + 2 <= g.ninodes < SHORT_LIMIT
    ensures ok <==> Mkfs.Fits(g, files) && g.nmeta + Mkfs.Need(files) < BPB
    ensures ok && (|files| + 2) % 64 != 0 ==> fs != null && fs.g == g && fs.Valid() && fs.NoneShared() && fs.MarkedAreUsed()
  {
    var image := new Mkfs.Image(g);
    fs := null;
    ok := image.Build(files);
    if ok && (|files| + 2) % 64 != 0 {
      fs := new FileSystem(g, image.store, image.tab, image.owner);
      fs.Run(ops);
    }
  }
}
