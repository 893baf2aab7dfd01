/** The system calls on directories as transactions: what lies between one begin_op and its end_op, and how many blocks that passes to
    log_write against the MAXOPBLOCKS that begin_op reserves. */
module FsOps {
  import opened Common
  import opened Blocks
  import opened FsLayout
  import opened FsSpec
  import opened FsGrow
  import opened FsWrite
  import opened FsBudget
  import opened FsInode
  import opened Fs
  import LogFormat
  import Mkfs
  import NameSpec

  lemma UnionCount(s: set<nat>, t: set<nat>)
    ensures |s + t| <= |s| + |t|
  {
    assert s + t == s + (t - s);
    Smaller(t - s, t);
  }

  /** One more part of a transaction, which has block x in common with what is logged already. */
  lemma SharedPart(s: set<nat>, part: set<nat>, x: nat)
    requires x in s && x in part
    ensures |s + part| <= |s| + |part| - 1
  {
    assert s + part == s + (part - {x});
    UnionCount(s, part - {x});
  }

  /** writei of one directory entry, inside a transaction: part is what this write adds. */
  method PutEntry(fs: FileSystem, i: nat, off: nat, e: seq<Byte>) returns (n: int, ghost part: set<nat>)
    requires fs.Valid() && i < |fs.tab| && fs.tab[i].typ != 0 && off <= fs.tab[i].size
    requires off % DIRENT == 0 && |e| == DIRENT
    modifies fs
    ensures fs.Valid() && (n == -1 || n == 0 || n == DIRENT) && fs.logged == old(fs.logged) + part
    ensures WriteDone(fs.g, old(fs.Now()), fs.Now(), i, off, if n == DIRENT then e else [])
    ensures off + DIRENT <= old(fs.tab[i].size) ==> n == DIRENT
    ensures Takes(old(fs.owner), fs.owner, i) && BitmapBlocks(fs.g, fs.owner.Keys - old(fs.owner).Keys) <= part
    ensures n != -1 ==> InodeBlock(fs.g, i) in part
    ensures EntryLogged(fs.g, old(fs.Now()), i, off, n, part)
  {
    Starts(fs.g, fs.Now(), i);
    var before := fs.logged;
    ghost var v := fs.Now();
    fs.logged := {};
    n := fs.WriteEntry(i, off, e);
    part := fs.logged;
    ghost var x := fs.Now();
    fs.logged := before + fs.logged;
    if n == -1 {
      WriteNothing(fs.g, v, i, off);
      assert fs.owner.Keys - v.owner.Keys == {} && BitmapBlocks(fs.g, {}) == {};
    } else {
      assert e[..n] == if n == DIRENT then e else [];
      Relogged(fs.g, v, x, i, off, if n == DIRENT then e else [], fs.logged);
    }
  }

  /** What a write does to the files does not depend on what was logged before. */
  lemma Relogged(g: Geo, v: View, x: View, i: nat, off: nat, src: seq<Byte>, logged: set<nat>)
    requires WriteDone(g, v.(logged := {}), x, i, off, src)
    ensures WriteDone(g, v, x.(logged := logged), i, off, src)
  {
  }

  /** The entry at k of a directory's bytes is free: its inode number is 0. */
  predicate FreeAt(c: seq<Byte>, k: nat) {
    k + 1 < |c| && c[k] == 0 && c[k + 1] == 0
  }

  method EntryFree(fs: FileSystem, i: nat, off: nat) returns (free: bool)
    requires fs.Valid() && i < |fs.tab| && fs.tab[i].typ != 0 && off + DIRENT <= fs.tab[i].size
    modifies fs
    ensures fs.Now() == old(fs.Now()) && fs.tab[i].size <= MAXFILE * BSIZE
    ensures free <==> FreeAt(Content(fs.store, fs.tab[i]), off)
  {
    Starts(fs.g, fs.Now(), i);
    var e := fs.Readi(i, off, DIRENT);
    ghost var c := Content(fs.store, fs.tab[i]);
    assert e == c[off..off + DIRENT];
    free := e[0] == 0 && e[1] == 0;
  }

  lemma NextEntry(off: nat, size: nat)
    requires off % DIRENT == 0 && size % DIRENT == 0 && off < size
    ensures off + DIRENT <= size && (off + DIRENT) % DIRENT == 0
    ensures forall k: nat :: k % DIRENT == 0 && k < off + DIRENT ==> k <= off
  {
  }

  /** dirlink's scan: the first entry that is free, or the end of the directory. */
  method FindSlot(fs: FileSystem, i: nat) returns (off: nat)
    requires fs.Valid() && i < |fs.tab| && fs.tab[i].typ != 0 && fs.tab[i].size % DIRENT == 0
    modifies fs
    ensures fs.Now() == old(fs.Now()) && off % DIRENT == 0 && off <= fs.tab[i].size <= MAXFILE * BSIZE
    ensures off < fs.tab[i].size ==> FreeAt(Content(fs.store, fs.tab[i]), off)
    ensures forall k {:trigger FreeAt(Content(fs.store, fs.tab[i]), k)} :: 0 <= k < off && k % DIRENT == 0 ==>
              !FreeAt(Content(fs.store, fs.tab[i]), k)
  {
    ghost var v := fs.Now();
    Starts(fs.g, v, i);
    ghost var c := Content(v.store, v.tab[i]);
    off := 0;
    while off < fs.tab[i].size
      invariant fs.Now() == v && off % DIRENT == 0 && off <= fs.tab[i].size
      invariant forall k {:trigger FreeAt(c, k)} :: 0 <= k < off && k % DIRENT == 0 ==> !FreeAt(c, k)
    {
      NextEntry(off, fs.tab[i].size);
      var free := EntryFree(fs, i, off);
      if free {
        return;
      }
      off := off + DIRENT;
    }
  }

  /** The most blocks that one dirlink logs. */
  function LinkCost(size: nat): nat {
    if size < NDIRECT * BSIZE then 3 else 5
  }

  lemma SlotSize(size: nat, off: nat, n: nat)
    requires off % DIRENT == 0 && size % DIRENT == 0 && off <= size && (n == 0 || n == DIRENT)
    ensures Max(size, off + n) % DIRENT == 0 && Max(size, off + n) <= size + DIRENT
    ensures EntryCost(off, size) <= LinkCost(size)
  {
  }

  /** dirlink of an entry whose name is new, inside a transaction. The entry is written whole or not at all. */
  method Dirlink(fs: FileSystem, i: nat, e: seq<Byte>) returns (ok: bool, ghost off: nat, ghost part: set<nat>)
    requires fs.Valid() && i < |fs.tab| && fs.tab[i].typ != 0 && fs.tab[i].size % DIRENT == 0 && |e| == DIRENT
    modifies fs
    ensures fs.Valid() && fs.logged == old(fs.logged) + part
    ensures WriteDone(fs.g, old(fs.Now()), fs.Now(), i, off, if ok then e else [])
    ensures i < |fs.tab| && fs.tab[i].size % DIRENT == 0 && fs.tab[i].size <= old(fs.tab[i].size) + DIRENT
    ensures Takes(old(fs.owner), fs.owner, i) && BitmapBlocks(fs.g, fs.owner.Keys - old(fs.owner).Keys) <= part
    ensures (ok || part != {} ==> InodeBlock(fs.g, i) in part) && |part| <= LinkCost(old(fs.tab[i].size))
  {
    var at := FindSlot(fs, i);
    var n;
    SlotSize(fs.tab[i].size, at, 0);
    SlotSize(fs.tab[i].size, at, DIRENT);
    n, part := PutEntry(fs, i, at, e);
    ok, off := n == DIRENT, at;
  }

  /** Between the steps of a transaction that began in v, has made inode ip and works on directory dp. */
  ghost predicate Making(fs: FileSystem, v: View, ip: nat, dp: nat)
    reads fs
  {
    && fs.Valid() && OnlyChanges(fs.g, v, fs.Now(), {ip, dp}) && ip != dp && ip < |fs.tab| && dp < |fs.tab|
    && fs.tab[ip].typ != 0 && fs.tab[dp].typ != 0 && fs.tab[ip].size % DIRENT == 0 && fs.tab[dp].size % DIRENT == 0
    && (forall c :: c in v.owner ==> c in fs.owner && fs.owner[c] == v.owner[c] && v.owner[c].0 != ip)
    && BitmapBlocks(fs.g, fs.owner.Keys - v.owner.Keys) + {InodeBlock(fs.g, ip)} <= fs.logged
  }

  lemma MoreBitmaps(g: Geo, a: Owner, b: Owner, c: Owner, logged: set<nat>, part: set<nat>)
    requires a.Keys <= b.Keys <= c.Keys
    requires BitmapBlocks(g, b.Keys - a.Keys) <= logged && BitmapBlocks(g, c.Keys - b.Keys) <= part
    ensures BitmapBlocks(g, c.Keys - a.Keys) <= logged + part
  {
    KeysAdd(g, a, b, c);
  }

  /** Inode i reads src at off over its old bytes; its record is the same but for size and addresses. */
  ghost predicate Reads(g: Geo, v: View, x: View, i: nat, off: nat, src: seq<Byte>) {
    && FilesOk(g, v.store, v.tab) && FilesOk(g, x.store, x.tab) && i < |v.tab| == |x.tab| && off <= v.tab[i].size
    && x.tab[i] == v.tab[i].(addrs := x.tab[i].addrs, size := x.tab[i].size)
    && Content(x.store, x.tab[i]) == Splice(Content(v.store, v.tab[i]), off, src)
  }

  /** A file that a step leaves alone reads as before. */
  lemma ReadsKept(g: Geo, v: View, w: View, x: View, s: set<nat>, i: nat, off: nat, src: seq<Byte>)
    requires OnlyChanges(g, v, w, s) && i !in s && Reads(g, w, x, i, off, src)
    ensures Reads(g, v, x, i, off, src)
  {
    assert SameFile(v.store, v.tab[i], w.store, w.tab[i]);
  }

  lemma KeptReads(g: Geo, v: View, w: View, x: View, s: set<nat>, i: nat, off: nat, src: seq<Byte>)
    requires Reads(g, v, w, i, off, src) && OnlyChanges(g, w, x, s) && i !in s
    ensures Reads(g, v, x, i, off, src)
  {
    assert SameFile(w.store, w.tab[i], x.store, x.tab[i]);
  }

  lemma WriteChanges(g: Geo, v: View, x: View, i: nat, off: nat, src: seq<Byte>)
    requires WriteDone(g, v, x, i, off, src)
    ensures OnlyChanges(g, v, x, {i}) && Reads(g, v, x, i, off, src)
  {
  }

  /** A dirlink inside such a transaction, into the new inode or into the directory. */
  method LinkInto(fs: FileSystem, i: nat, e: seq<Byte>, ghost v: View, ghost ip: nat, ghost dp: nat)
    returns (ok: bool, ghost off: nat, ghost part: set<nat>)
    requires Making(fs, v, ip, dp) && (i == ip || i == dp) && |e| == DIRENT
    modifies fs
    ensures Making(fs, v, ip, dp) && fs.logged == old(fs.logged) + part && fs.tab[i].size <= old(fs.tab[i].size) + DIRENT
    ensures OnlyChanges(fs.g, old(fs.Now()), fs.Now(), {i})
    ensures Reads(fs.g, old(fs.Now()), fs.Now(), i, off, if ok then e else [])
    ensures (ok || part != {} ==> InodeBlock(fs.g, i) in part) && |part| <= LinkCost(old(fs.tab[i].size))
  {
    ghost var w := fs.Now();
    ok, off, part := Dirlink(fs, i, e);
    WriteChanges(fs.g, w, fs.Now(), i, off, if ok then e else []);
    ChangesAdd(fs.g, v, w, fs.Now(), {ip, dp}, {i});
    assert {ip, dp} + {i} == {ip, dp};
    MoreBitmaps(fs.g, v.owner, w.owner, fs.owner, w.logged, part);
  }

  /** Setting the link count of inode i, as a short, then iupdate. */
  method SetNlink(fs: FileSystem, i: nat, nlink: int)
    requires fs.Valid() && i < |fs.tab| && fs.tab[i].typ != 0
    modifies fs
    ensures fs.Valid() && fs.owner == old(fs.owner) && fs.logged == old(fs.logged) + {InodeBlock(fs.g, i)}
    ensures fs.tab == old(fs.tab)[i := old(fs.tab)[i].(nlink := nlink % SHORT_LIMIT)]
    ensures OnlyChanges(fs.g, old(fs.Now()), fs.Now(), {i}) && SameContent(fs.g, old(fs.Now()), fs.Now(), i)
  {
    Starts(fs.g, fs.Now(), i);
    fs.Record(i, fs.tab[i].(nlink := nlink % SHORT_LIMIT));
  }

  /** create's first steps: an inode with its numbers and one link. */
  method NewInode(fs: FileSystem, typ: nat, major: nat, minor: nat, dp: nat) returns (ip: nat)
    requires fs.Valid() && fs.logged == {} && dp < |fs.tab| && fs.tab[dp].typ != 0 && fs.tab[dp].size % DIRENT == 0
    requires 0 < typ < SHORT_LIMIT && major < SHORT_LIMIT && minor < SHORT_LIMIT
    modifies fs
    ensures fs.Valid()
    ensures ip == 0 ==> fs.Now() == old(fs.Now()) && forall j :: 1 <= j < |fs.tab| ==> fs.tab[j].typ != 0
    ensures ip != 0 ==>
              && Making(fs, old(fs.Now()), ip, dp) && fs.logged == {InodeBlock(fs.g, ip)} && OnlyChanges(fs.g, old(fs.Now()), fs.Now(), {ip})
              && old(fs.tab)[ip].typ == 0 && fs.tab == old(fs.tab)[ip := Inode(typ, major, minor, 1, 0, NO_ADDRS)]
  {
    ghost var v := fs.Now();
    ip := fs.Ialloc(typ);
    if ip != 0 {
      ghost var w := fs.Now();
      Starts(fs.g, w, ip);
      fs.Record(ip, fs.tab[ip].(major := major, minor := minor, nlink := 1));
      ChangesAdd(fs.g, v, w, fs.Now(), {ip}, {ip});
      assert {ip} + {ip} == {ip};
      OwnsNothing(fs.g, v, ip);
      assert fs.owner.Keys - v.owner.Keys == {} && BitmapBlocks(fs.g, {}) == {};
    }
  }

  /** A free inode has no blocks. */
  lemma OwnsNothing(g: Geo, v: View, i: nat)
    requires ViewOk(g, v, -1) && i < |v.tab| && v.tab[i].typ == 0
    ensures forall b :: b in v.owner ==> v.owner[b].0 != i
  {
    assert FileOk(v.store, v.tab[i]);
    forall b | b in v.owner ensures v.owner[b].0 != i {
      assert OwnedOk(g, v.store, v.tab, v.owner, 0, 0, b);
    }
  }

  /** The entries "." and ".." of a new directory. */
  method FillDirectory(fs: FileSystem, ip: nat, dp: nat, ghost v: View) returns (ok: bool)
    requires Making(fs, v, ip, dp) && fs.tab[ip].size == 0 && |fs.logged| == 1
    modifies fs
    ensures Making(fs, v, ip, dp) && |fs.logged| <= 5 && OnlyChanges(fs.g, old(fs.Now()), fs.Now(), {ip})
    ensures fs.tab[ip] == old(fs.tab)[ip].(addrs := fs.tab[ip].addrs, size := fs.tab[ip].size)
  {
    ghost var off, part;
    ghost var u := fs.Now();
    ok, off, part := LinkInto(fs, ip, Mkfs.Dirent(ip % SHORT_LIMIT, [46]), v, ip, dp);
    if part != {} { SharedPart(u.logged, part, InodeBlock(fs.g, ip)); }
    if ok {
      ghost var w := fs.Now();
      ok, off, part := LinkInto(fs, ip, Mkfs.Dirent(dp % SHORT_LIMIT, [46, 46]), v, ip, dp);
      if part != {} { SharedPart(w.logged, part, InodeBlock(fs.g, ip)); }
      ChangesAdd(fs.g, u, w, fs.Now(), {ip}, {ip});
      assert {ip} + {ip} == {ip};
    }
  }

  /** The entries that create makes: those of a new directory, and the name in directory dp. */
  method EnterName(fs: FileSystem, ip: nat, dp: nat, name: seq<Byte>, ghost v: View) returns (ok: bool, ghost off: nat)
    requires Making(fs, v, ip, dp) && fs.tab[ip].size == 0 && |fs.logged| == 1 && |name| <= NameSpec.DIRSIZ
    modifies fs
    ensures Making(fs, v, ip, dp) && |fs.logged| <= LogFormat.MAXOPBLOCKS && (ok ==> InodeBlock(fs.g, dp) in fs.logged)
    ensures Reads(fs.g, old(fs.Now()), fs.Now(), dp, off, if ok then Mkfs.Dirent(ip % SHORT_LIMIT, name) else [])
    ensures fs.tab[ip] == old(fs.tab)[ip].(addrs := fs.tab[ip].addrs, size := fs.tab[ip].size)
  {
    ghost var u := fs.Now();
    WriteNothing(fs.g, u, dp, 0);
    WriteChanges(fs.g, u, u, dp, 0, []);
    ok, off := true, 0;
    if fs.tab[ip].typ == NameSpec.T_DIR {
      ok := FillDirectory(fs, ip, dp, v);
      KeptReads(fs.g, u, u, fs.Now(), {ip}, dp, 0, []);
    } else {
      assert OnlyChanges(fs.g, u, fs.Now(), {ip});
    }
    if ok {
      ghost var w := fs.Now();
      ghost var part;
      ok, off, part := LinkInto(fs, dp, Mkfs.Dirent(ip % SHORT_LIMIT, name), v, ip, dp);
      UnionCount(w.logged, part);
      ReadsKept(fs.g, u, w, fs.Now(), {ip}, dp, off, if ok then Mkfs.Dirent(ip % SHORT_LIMIT, name) else []);
    }
  }

  /** What create frees when it fails was taken by the same transaction, so the bitmap blocks are logged already. */
  method BackOut(fs: FileSystem, ip: nat, ghost dp: nat, ghost v: View)
    requires Making(fs, v, ip, dp)
    modifies fs
    ensures fs.Valid() && fs.logged == old(fs.logged) && OnlyChanges(fs.g, v, fs.Now(), {ip, dp})
    ensures OnlyChanges(fs.g, old(fs.Now()), fs.Now(), {ip}) && fs.tab[ip].typ == 0
  {
    ghost var w := fs.Now();
    SetNlink(fs, ip, 0);
    ghost var x := fs.Now();
    fs.Ifree(ip);
    ChangesAdd(fs.g, w, x, fs.Now(), {ip}, {ip});
    assert {ip} + {ip} == {ip};
    ChangesAdd(fs.g, v, w, fs.Now(), {ip, dp}, {ip});
    assert {ip, dp} + {ip} == {ip, dp};
    assert w.owner.Keys - fs.owner.Keys <= w.owner.Keys - v.owner.Keys;
  }

  /** create has succeeded: inode ip was free and is new, and directory dp has an entry for it at off. */
  ghost predicate Created(g: Geo, v: View, x: View, ip: nat, dp: nat, off: nat, e: seq<Byte>) {
    && OnlyChanges(g, v, x, {ip, dp}) && 0 < ip < |v.tab| && dp < |v.tab| && v.tab[ip].typ == 0 && off <= v.tab[dp].size
    && FileOk(v.store, v.tab[dp]) && FileOk(x.store, x.tab[dp])
    && Content(x.store, x.tab[dp]) == Splice(Content(v.store, v.tab[dp]), off, e)
    && x.tab[dp].nlink == (v.tab[dp].nlink + if x.tab[ip].typ == NameSpec.T_DIR then 1 else 0) % SHORT_LIMIT
  }

  /** create has failed: the inode it took, if any, is free again, and the directory reads as before. */
  ghost predicate NotCreated(g: Geo, v: View, x: View, ip: nat, dp: nat, off: nat) {
    && OnlyChanges(g, v, x, {ip, dp}) && Reads(g, v, x, dp, off, [])
    && (ip != dp ==> ip < |v.tab| && v.tab[ip].typ == x.tab[ip].typ == 0)
  }

  /** create's last step: a new directory is one more link to its parent. */
  method CountParent(fs: FileSystem, ip: nat, dp: nat, ghost v: View, ghost off: nat, ghost e: seq<Byte>)
    requires Making(fs, v, ip, dp) && 0 < ip && v.tab[ip].typ == 0 && Reads(fs.g, v, fs.Now(), dp, off, e)
    requires InodeBlock(fs.g, dp) in fs.logged
    modifies fs
    ensures fs.Valid() && Created(fs.g, v, fs.Now(), ip, dp, off, e) && fs.tab[ip] == old(fs.tab)[ip] && fs.logged == old(fs.logged)
  {
    ghost var w := fs.Now();
    assert FileOk(v.store, v.tab[dp]) && FileOk(fs.store, fs.tab[dp]);
    Starts(fs.g, w, dp);
    if fs.tab[ip].typ == NameSpec.T_DIR {
      SetNlink(fs, dp, fs.tab[dp].nlink + 1);
      ChangesAdd(fs.g, v, w, fs.Now(), {ip, dp}, {dp});
      assert {ip, dp} + {dp} == {ip, dp};
      assert FileOk(fs.store, fs.tab[dp]);
    }
  }

  /** create of a name that is not there yet. Whether it succeeds or not, for files and directories alike, it logs no more than one
      operation may. */
  method Create(fs: FileSystem, dp: nat, name: seq<Byte>, typ: nat, major: nat, minor: nat) returns (ip: nat, ghost inum: nat, ghost off: nat)
    requires fs.Valid() && fs.logged == {} && dp < |fs.tab| && fs.tab[dp].typ != 0 && fs.tab[dp].size % DIRENT == 0
    requires 0 < typ < SHORT_LIMIT && major < SHORT_LIMIT && minor < SHORT_LIMIT && |name| <= NameSpec.DIRSIZ
    modifies fs
    ensures fs.Valid() && |fs.logged| <= LogFormat.MAXOPBLOCKS
    ensures ip == 0 ==> NotCreated(fs.g, old(fs.Now()), fs.Now(), inum, dp, off)
    ensures ip != 0 ==>
              && Created(fs.g, old(fs.Now()), fs.Now(), ip, dp, off, Mkfs.Dirent(ip % SHORT_LIMIT, name))
              && fs.tab[ip] == Inode(typ, major, minor, 1, fs.tab[ip].size, fs.tab[ip].addrs)
  {
    ghost var v := fs.Now();
    WriteNothing(fs.g, v, dp, 0);
    WriteChanges(fs.g, v, v, dp, 0, []);
    ip := NewInode(fs, typ, major, minor, dp);
    inum, off := if ip == 0 then dp else ip, 0;
    if ip == 0 {
      return;
    }
    ghost var u := fs.Now();
    var ok;
    ok, off := EnterName(fs, ip, dp, name, v);
    ghost var w := fs.Now();
    ReadsKept(fs.g, v, u, w, {ip}, dp, off, if ok then Mkfs.Dirent(ip % SHORT_LIMIT, name) else []);
    if ok {
      CountParent(fs, ip, dp, v, off, Mkfs.Dirent(ip % SHORT_LIMIT, name));
    } else {
      BackOut(fs, ip, dp, v);
      KeptReads(fs.g, v, w, fs.Now(), {ip}, dp, off, []);
      ip := 0;
    }
  }

  /** link, once both paths are resolved: the count goes up first, and comes down again if the entry cannot be written. */
  method Link(fs: FileSystem, ip: nat, dp: nat, name: seq<Byte>) returns (ok: bool, ghost off: nat)
    requires fs.Valid() && fs.logged == {} && ip < |fs.tab| && dp < |fs.tab| && ip != dp && |name| <= NameSpec.DIRSIZ
    requires fs.tab[ip].typ != 0 && fs.tab[dp].typ != 0 && fs.tab[dp].size % DIRENT == 0
    modifies fs
    ensures fs.Valid() && |fs.logged| <= 6 && OnlyChanges(fs.g, old(fs.Now()), fs.Now(), {ip, dp})
    ensures Reads(fs.g, old(fs.Now()), fs.Now(), dp, off, if ok then Mkfs.Dirent(ip % SHORT_LIMIT, name) else [])
    ensures fs.tab[ip] == old(fs.tab)[ip].(nlink := (old(fs.tab)[ip].nlink + if ok then 1 else 0) % SHORT_LIMIT)
  {
    ghost var v := fs.Now();
    var e := Mkfs.Dirent(ip % SHORT_LIMIT, name);
    Starts(fs.g, v, ip);
    SetNlink(fs, ip, fs.tab[ip].nlink + 1);
    ok, off := AddEntry(fs, ip, dp, e, v);
    if !ok {
      LowerCount(fs, ip, dp, v, off);
    }
  }

  /** link's way out: the count comes down again. */
  method LowerCount(fs: FileSystem, ip: nat, ghost dp: nat, ghost v: View, ghost off: nat)
    requires fs.Valid() && ip < |fs.tab| && fs.tab[ip].typ != 0 && dp < |fs.tab| && ip != dp && InodeBlock(fs.g, ip) in fs.logged
    requires OnlyChanges(fs.g, v, fs.Now(), {ip, dp}) && Reads(fs.g, v, fs.Now(), dp, off, [])
    modifies fs
    ensures fs.Valid() && fs.logged == old(fs.logged) && OnlyChanges(fs.g, v, fs.Now(), {ip, dp}) && Reads(fs.g, v, fs.Now(), dp, off, [])
    ensures ip < |fs.tab| && fs.tab[ip] == old(fs.tab)[ip].(nlink := (old(fs.tab)[ip].nlink - 1) % SHORT_LIMIT)
  {
    ghost var x := fs.Now();
    SetNlink(fs, ip, fs.tab[ip].nlink - 1);
    KeptReads(fs.g, v, x, fs.Now(), {ip}, dp, off, []);
    ChangesAdd(fs.g, v, x, fs.Now(), {ip, dp}, {ip});
    assert {ip, dp} + {ip} == {ip, dp};
  }

  /** link's dirlink. */
  method AddEntry(fs: FileSystem, ghost ip: nat, dp: nat, e: seq<Byte>, ghost v: View) returns (ok: bool, ghost off: nat)
    requires fs.Valid() && ip < |fs.tab| && dp < |fs.tab| && ip != dp && |e| == DIRENT
    requires OnlyChanges(fs.g, v, fs.Now(), {ip}) && fs.logged == {InodeBlock(fs.g, ip)}
    requires fs.tab[dp].typ != 0 && fs.tab[dp].size % DIRENT == 0
    modifies fs
    ensures fs.Valid() && |fs.logged| <= 6 && InodeBlock(fs.g, ip) in fs.logged && OnlyChanges(fs.g, v, fs.Now(), {ip, dp})
    ensures Reads(fs.g, v, fs.Now(), dp, off, if ok then e else []) && fs.tab[ip] == old(fs.tab)[ip]
  {
    ghost var w := fs.Now();
    ghost var part;
    ok, off, part := Dirlink(fs, dp, e);
    UnionCount(w.logged, part);
    WriteChanges(fs.g, w, fs.Now(), dp, off, if ok then e else []);
    ReadsKept(fs.g, v, w, fs.Now(), {ip}, dp, off, if ok then e else []);
    ChangesAdd(fs.g, v, w, fs.Now(), {ip}, {dp});
    assert {ip} + {dp} == {ip, dp};
  }

  /** The blocks of inode i. */
  ghost function Owned(owner: Owner, i: nat): set<nat> {
    set b | b in owner && owner[b].0 == i
  }

  /** What freeing inode i logs: the bitmap blocks of its blocks, and its own block. */
  ghost function FreeLog(g: Geo, v: View, i: nat): set<nat> {
    BitmapBlocks(g, Owned(v.owner, i)) + {InodeBlock(g, i)}
  }

  /** Bitmap blocks lie between the inodes and the data. */
  lemma BitmapPlace(g: Geo, v: View, i: nat)
    requires ViewOk(g, v, -1)
    ensures forall b :: b in BitmapBlocks(g, Owned(v.owner, i)) ==> g.bmapstart <= b < g.nmeta
  {
    forall c | c in v.owner ensures g.bmapstart <= BitmapBlock(g, c) < g.nmeta {
      assert OwnedOk(g, v.store, v.tab, v.owner, 0, 0, c);
    }
  }

  lemma FreeCount(g: Geo, v: View, i: nat)
    requires ViewOk(g, v, -1) && i < |v.tab|
    ensures |FreeLog(g, v, i)| == |BitmapBlocks(g, Owned(v.owner, i))| + 1
  {
    BitmapPlace(g, v, i);
    assert InodeBlock(g, i) < g.bmapstart;
  }

  /** Blocks of the first n bitmap blocks' worth of disk lie under at most n bitmap blocks. */
  lemma {:induction false} BitmapRange(g: Geo, s: set<nat>, n: nat)
    requires forall b :: b in s ==> b < n * BPB
    ensures |BitmapBlocks(g, s)| <= n
  {
    if n == 0 {
      assert s == {} && BitmapBlocks(g, s) == {};
    } else {
      var low := set b | b in s && b < (n - 1) * BPB;
      BitmapRange(g, low, n - 1);
      assert forall b :: b in s - low ==> BitmapBlock(g, b) == n - 1 + g.bmapstart;
      assert BitmapBlocks(g, s) <= BitmapBlocks(g, low) + {n - 1 + g.bmapstart};
      Smaller(BitmapBlocks(g, s), BitmapBlocks(g, low) + {n - 1 + g.bmapstart});
    }
  }

  lemma OwnedBelow(g: Geo, v: View, i: nat, n: nat)
    requires ViewOk(g, v, -1) && g.size <= n * BPB
    ensures |BitmapBlocks(g, Owned(v.owner, i))| <= n
  {
    forall b | b in Owned(v.owner, i) ensures b < n * BPB {
      assert OwnedOk(g, v.store, v.tab, v.owner, 0, 0, b);
    }
    BitmapRange(g, Owned(v.owner, i), n);
  }

  /** How freeing an inode fits the reservation. */
  lemma FreeFits(g: Geo, v: View, i: nat)
    requires ViewOk(g, v, -1) && i < |v.tab|
    ensures |FreeLog(g, v, i)| <= LogFormat.MAXOPBLOCKS <==> |BitmapBlocks(g, Owned(v.owner, i))| <= LogFormat.MAXOPBLOCKS - 1
    ensures g.size <= (LogFormat.MAXOPBLOCKS - 1) * BPB ==> |FreeLog(g, v, i)| <= LogFormat.MAXOPBLOCKS
  {
    FreeCount(g, v, i);
    if g.size <= (LogFormat.MAXOPBLOCKS - 1) * BPB { OwnedBelow(g, v, i, LogFormat.MAXOPBLOCKS - 1); }
  }

  lemma FreedOwned(v: Owner, w: Owner, i: nat)
    requires forall b :: b in w <==> b in v && v[b].0 != i
    ensures v.Keys - w.Keys == Owned(v, i)
  {
  }

  /** iput of the last reference to an inode without links, as an operation of its own: it fits the reservation exactly if the blocks of
      the file lie under nine bitmap blocks or fewer. */
  method FreeInode(fs: FileSystem, i: nat)
    requires fs.Valid() && fs.logged == {} && i < |fs.tab|
    modifies fs
    ensures fs.Valid() && fs.logged == FreeLog(fs.g, old(fs.Now()), i)
    ensures |fs.logged| <= LogFormat.MAXOPBLOCKS <==> |BitmapBlocks(fs.g, Owned(old(fs.owner), i))| <= LogFormat.MAXOPBLOCKS - 1
    ensures fs.g.size <= (LogFormat.MAXOPBLOCKS - 1) * BPB ==> |fs.logged| <= LogFormat.MAXOPBLOCKS
  {
    ghost var v := fs.Now();
    FreeFits(fs.g, v, i);
    fs.Ifree(i);
    FreedOwned(v.owner, fs.owner, i);
  }

  /** The block of the entry at off. */
  ghost function EntryAt(v: View, dp: nat, off: nat): nat
    requires dp < |v.tab| && |v.tab[dp].addrs| == 13 && v.tab[dp].addrs[INDIRECT] < |v.store| && off / BSIZE < MAXFILE
  {
    At(v.store, v.tab[dp], Pos(off / BSIZE))
  }

  /** What unlink logs: the block of the entry, both inodes, and if the file goes as well, the bitmap blocks of its blocks. */
  ghost predicate UnlinkLogged(g: Geo, v: View, dp: nat, off: nat, ip: nat, freed: bool, logged: set<nat>) {
    && dp < |v.tab| && |v.tab[dp].addrs| == 13 && v.tab[dp].addrs[INDIRECT] < |v.store| && off / BSIZE < MAXFILE
    && logged == {EntryAt(v, dp, off)} + {InodeBlock(g, dp), InodeBlock(g, ip)}
                 + if freed then BitmapBlocks(g, Owned(v.owner, ip)) else {}
  }

  lemma EntryPlace(g: Geo, v: View, dp: nat, off: nat)
    requires ViewOk(g, v, -1) && dp < |v.tab| && off < v.tab[dp].size && off / BSIZE < MAXFILE
    ensures EntryAt(v, dp, off) >= g.nmeta
  {
    Starts(g, v, dp);
    Reached(v.store, v.tab[dp], off / BSIZE);
    InDataArea(g, v.store, v.tab, v.owner, 0, 0, dp, Pos(off / BSIZE));
  }

  lemma InodePlace(g: Geo, i: nat)
    requires GeoOk(g) && i < g.ninodes
    ensures InodeBlock(g, i) < g.bmapstart
  {
  }

  /** Inode blocks, bitmap blocks and data blocks are three regions of the disk. */
  lemma ThreeRegions(e: nat, ins: set<nat>, bm: set<nat>, lo: nat, hi: nat)
    requires lo <= hi <= e && (forall b :: b in ins ==> b < lo) && (forall b :: b in bm ==> lo <= b < hi)
    ensures |{e} + ins + bm| == 1 + |ins| + |bm|
  {
    FourParts({}, ins, bm, e);
    assert {e} + ins + bm == {} + ins + bm + {e};
  }

  /** Exactly how many blocks that is. */
  lemma UnlinkCount(g: Geo, v: View, dp: nat, off: nat, ip: nat, freed: bool, logged: set<nat>)
    requires ViewOk(g, v, -1) && UnlinkLogged(g, v, dp, off, ip, freed, logged) && ip < |v.tab| && off < v.tab[dp].size
    ensures |logged| == 1 + |{InodeBlock(g, dp), InodeBlock(g, ip)}| + if freed then |BitmapBlocks(g, Owned(v.owner, ip))| else 0
  {
    BitmapPlace(g, v, ip);
    EntryPlace(g, v, dp, off);
    InodePlace(g, dp);
    InodePlace(g, ip);
    ThreeRegions(EntryAt(v, dp, off), {InodeBlock(g, dp), InodeBlock(g, ip)},
                 if freed then BitmapBlocks(g, Owned(v.owner, ip)) else {}, g.bmapstart, g.nmeta);
  }

  /** On a disk with at most seven bitmap blocks' worth of blocks, unlink fits the reservation, whatever the file. */
  lemma UnlinkFits(g: Geo, v: View, dp: nat, off: nat, ip: nat, freed: bool, logged: set<nat>)
    requires ViewOk(g, v, -1) && UnlinkLogged(g, v, dp, off, ip, freed, logged) && ip < |v.tab| && off < v.tab[dp].size
    ensures g.size <= (LogFormat.MAXOPBLOCKS - 3) * BPB ==> |logged| <= LogFormat.MAXOPBLOCKS
  {
    UnlinkCount(g, v, dp, off, ip, freed, logged);
    TwoAtMost(InodeBlock(g, dp), InodeBlock(g, ip));
    if g.size <= (LogFormat.MAXOPBLOCKS - 3) * BPB { OwnedBelow(g, v, ip, LogFormat.MAXOPBLOCKS - 3); }
  }

  lemma TwoAtMost(a: nat, b: nat)
    ensures |{a, b}| <= 2
  {
    UnionCount({a}, {b});
    assert {a, b} == {a} + {b};
  }

  /** unlink's first write: an entry that is there is always overwritten, so the panic that checks it is never reached. */
  method ClearEntry(fs: FileSystem, dp: nat, off: nat)
    requires fs.Valid() && fs.logged == {} && dp < |fs.tab| && fs.tab[dp].typ != 0
    requires off % DIRENT == 0 && off + DIRENT <= fs.tab[dp].size
    modifies fs
    ensures fs.Valid() && Takes(old(fs.owner), fs.owner, dp) && off / BSIZE < MAXFILE
    ensures WriteDone(fs.g, old(fs.Now()), fs.Now(), dp, off, seq(DIRENT, _ => 0))
    ensures fs.logged == {EntryAt(old(fs.Now()), dp, off), InodeBlock(fs.g, dp)}
  {
    var n;
    ghost var part;
    n, part := PutEntry(fs, dp, off, seq(DIRENT, _ => 0));
  }

  /** unlink, once the entry is found: the entry is cleared and the counts go down; last says that nobody else holds the inode. */
  method Unlink(fs: FileSystem, dp: nat, off: nat, ip: nat, last: bool) returns (freed: bool)
    requires fs.Valid() && fs.logged == {} && dp < |fs.tab| && ip < |fs.tab| && dp != ip
    requires fs.tab[dp].typ != 0 && fs.tab[ip].typ != 0 && fs.tab[ip].nlink >= 1
    requires off % DIRENT == 0 && off + DIRENT <= fs.tab[dp].size
    modifies fs
    ensures fs.Valid() && freed == (last && old(fs.tab)[ip].nlink == 1)
    ensures OnlyChanges(fs.g, old(fs.Now()), fs.Now(), {dp, ip}) && fs.tab[ip].nlink == old(fs.tab)[ip].nlink - 1
    ensures freed <==> fs.tab[ip].typ == 0
    ensures UnlinkLogged(fs.g, old(fs.Now()), dp, off, ip, freed, fs.logged)
  {
    ghost var v := fs.Now();
    Starts(fs.g, v, ip);
    ClearEntry(fs, dp, off);
    ghost var w := fs.Now();
    WriteChanges(fs.g, v, w, dp, off, seq(DIRENT, _ => 0));
    assert SameFile(v.store, v.tab[ip], w.store, w.tab[ip]);
    if fs.tab[ip].typ == NameSpec.T_DIR {
      SetNlink(fs, dp, fs.tab[dp].nlink - 1);
      ChangesAdd(fs.g, v, w, fs.Now(), {dp}, {dp});
      assert {dp} + {dp} == {dp};
    }
    freed := DropLink(fs, dp, ip, last, v);
    OwnedSame(v.owner, w.owner, ip, dp);
  }

  lemma OwnedSame(a: Owner, b: Owner, i: nat, j: nat)
    requires Takes(a, b, j) && i != j
    ensures Owned(b, i) == Owned(a, i)
  {
  }

  /** The end of unlink: one link less, and iput. */
  method DropLink(fs: FileSystem, ghost dp: nat, ip: nat, last: bool, ghost v: View) returns (freed: bool)
    requires fs.Valid() && ip < |fs.tab| && fs.tab[ip].typ != 0 && 1 <= fs.tab[ip].nlink < SHORT_LIMIT && OnlyChanges(fs.g, v, fs.Now(), {dp})
    modifies fs
    ensures fs.Valid() && freed == (last && old(fs.tab)[ip].nlink == 1) && OnlyChanges(fs.g, v, fs.Now(), {dp, ip})
    ensures fs.tab[ip].nlink == old(fs.tab)[ip].nlink - 1 && (freed <==> fs.tab[ip].typ == 0)
    ensures fs.logged == old(fs.logged) + {InodeBlock(fs.g, ip)} + if freed then BitmapBlocks(fs.g, Owned(old(fs.owner), ip)) else {}
  {
    ghost var w := fs.Now();
    SetNlink(fs, ip, fs.tab[ip].nlink - 1);
    ghost var x := fs.Now();
    ChangesAdd(fs.g, v, w, x, {dp}, {ip});
    assert {dp} + {ip} == {dp, ip};
    freed := last && fs.tab[ip].nlink == 0;
    if freed {
      fs.Ifree(ip);
      FreedOwned(x.owner, fs.owner, ip);
      ChangesAdd(fs.g, v, x, fs.Now(), {dp, ip}, {ip});
      assert {dp, ip} + {ip} == {dp, ip};
    }
  }
}
