/** What every step of the logging machine keeps, and what that means over whole runs. */
module LogSafety {
  import opened Blocks
  import opened BufCache
  import opened LogFormat
  import opened LogMachine

  // ---------------------------------------------------------------- the invariant

  /** Entries of the in-memory header before this one have been unpinned. */
  function PinFrom(s: State): nat {
    match s.phase
    case InstallHome(t) => t
    case Idle => 0
    case CopyLog(_) => 0
    case WriteHead => 0
    case _ => |s.lh|
  }

  ghost predicate Pinned(s: State, b: nat) {
    exists t :: PinFrom(s) <= t < |s.lh| && s.lh[t] == b
  }

  function HolderCount(k: BufLock): nat {
    if k.holder.Some? then 1 else 0
  }

  ghost function PinCount(s: State, b: Buf): nat {
    if b.dev == DEV && Pinned(s, b.blockno) then 1 else 0
  }

  ghost predicate BufOk(l: Layout, s: State, i: nat)
    requires i < |s.cache.bufs| == |s.locks|
  {
    var b := s.cache.bufs[i];
    && (b.dev == 0 ==> !b.valid && b.refcnt == 0)
    && (b.dev != 0 ==> b.dev == DEV && b.blockno < l.size)
    && b.refcnt == |s.locks[i].waiters| + HolderCount(s.locks[i]) + PinCount(s, b)
    && (s.locks[i].holder.Some? ==> b.valid)
  }

  /** Buffers: well-formed list, one per block, reference counts exact. */
  ghost predicate CacheInv(l: Layout, s: State) {
    && Typed(l, s) && Unique(s.cache) && LogOk(l, s.lh) && PinFrom(s) <= |s.lh|
    && (forall i :: 0 <= i < |s.cache.bufs| ==> BufOk(l, s, i))
  }

  ghost predicate Cached(s: State, b: nat) {
    exists i :: 0 <= i < |s.cache.bufs| && s.cache.bufs[i].valid && Key(s.cache.bufs[i], DEV, b)
  }

  /** Every logged block keeps its buffer until it is installed. */
  ghost predicate PinInv(s: State) {
    forall t :: PinFrom(s) <= t < |s.lh| ==> Cached(s, s.lh[t])
  }

  /** Unlogged modifications sit in buffers locked by a running operation. */
  ghost predicate DirtyInv(l: Layout, s: State) {
    |s.locks| == |s.cache.bufs| &&
    forall i :: i in s.dirty ==>
      && i < |s.locks| && s.locks[i].holder.Some? && s.locks[i].holder.value in s.ops
      && s.cache.bufs[i].valid && s.cache.bufs[i].dev == DEV && Home(l, s.cache.bufs[i].blockno)
  }

  ghost predicate DirtyBlock(s: State, b: nat) {
    exists i :: i in s.dirty && i < |s.cache.bufs| && s.cache.bufs[i].blockno == b
  }

  /** A buffer shows the latest value of a home block, and the disk's of any other block. */
  ghost predicate Shows(l: Layout, s: State, b: Buf)
    requires |s.disk| == |s.h.base| == l.size
  {
    b.valid ==>
      && b.blockno < l.size
      && b.data == if Booting(s.phase) || !Home(l, b.blockno) then s.disk[b.blockno] else Latest(s)[b.blockno]
  }

  ghost predicate DiskShows(l: Layout, s: State, b: nat)
    requires |s.disk| == |s.h.base| == l.size
  {
    Home(l, b) && !Pinned(s, b) && !DirtyBlock(s, b) ==> s.disk[b] == Latest(s)[b]
  }

  /** Cached home blocks show the latest value; blocks that are not pinned are on disk. */
  ghost predicate ContentInv(l: Layout, s: State) {
    && |s.disk| == |s.h.base| == l.size
    && (forall i :: 0 <= i < |s.cache.bufs| ==> Shows(l, s, s.cache.bufs[i]))
    && (!Booting(s.phase) ==> forall b: nat :: DiskShows(l, s, b))
  }

  /** The first k slots hold the latest values of the first k logged blocks. */
  ghost predicate SlotsHold(l: Layout, s: State, k: nat) {
    && LayoutOk(l) && |s.disk| == |s.h.base| == l.size && LogOk(l, s.lh) && k <= |s.lh|
    && forall t :: 0 <= t < k ==> s.disk[l.start + t + 1] == Latest(s)[s.lh[t]]
  }

  /** The first k logged blocks have reached their home locations. */
  ghost predicate Homed(l: Layout, s: State, k: nat) {
    && |s.disk| == |s.h.base| == l.size && LogOk(l, s.lh) && k <= |s.lh|
    && forall t :: 0 <= t < k ==> s.disk[s.lh[t]] == Latest(s)[s.lh[t]]
  }

  ghost predicate HeaderIs(l: Layout, s: State, lh: seq<nat>) {
    DiskOk(l, s.disk) && HeaderOf(s.disk[l.start]) == lh
  }

  /** The disk always recovers to a whole number of groups. */
  ghost predicate DurableInv(l: Layout, s: State) {
    && DiskOk(l, s.disk)
    && HomeEq(l, Recovered(l, s.disk), DurableImage(s))
    && match s.phase
       case Idle => HeaderIs(l, s, [])
       case CopyLog(t) => HeaderIs(l, s, []) && SlotsHold(l, s, t) && t < |s.lh|
       case WriteHead => HeaderIs(l, s, []) && SlotsHold(l, s, |s.lh|) && |s.lh| > 0
       case InstallHome(t) => HeaderIs(l, s, s.lh) && SlotsHold(l, s, |s.lh|) && Homed(l, s, t) && t < |s.lh|
       case Erase => HeaderIs(l, s, s.lh) && Homed(l, s, |s.lh|)
       case Finish => HeaderIs(l, s, []) && s.lh == []
       case Boot => s.lh == []
       case Replay(t) => HeaderIs(l, s, s.lh) && Homed(l, s, t) && t < |s.lh|
       case ReplayErase => HeaderIs(l, s, s.lh) && Homed(l, s, |s.lh|)
  }

  /** Counters: a commit excludes operations, and at most one group is under way. */
  ghost predicate CountInv(s: State) {
    && s.outstanding == |s.ops|
    && (s.committing <==> !s.phase.Idle? && !Booting(s.phase))
    && (!s.phase.Idle? ==> s.ops == map[] && s.h.cur == [])
    && (s.committing ==> |s.h.groups| == s.h.returned + 1)
    && (s.phase.Idle? ==> |s.h.groups| == s.h.returned)
    && s.h.returned <= |s.h.groups|
  }

  /** Identities: a closed group was written by ended operations, the open one by ended or running ones. */
  ghost predicate OpsInv(s: State) {
    && (forall g, k :: 0 <= g < |s.h.groups| && 0 <= k < |s.h.groups[g]| ==> s.h.groups[g][k].op in s.h.ended)
    && (forall k :: 0 <= k < |s.h.cur| ==>
          s.h.cur[k].op in s.h.ended || exists p :: p in s.ops && s.ops[p].id == s.h.cur[k].op)
    && (forall p :: p in s.ops ==> s.ops[p].id !in s.h.ended && s.ops[p].id < s.h.nextId)
    && (forall p, q :: p in s.ops && q in s.ops && s.ops[p].id == s.ops[q].id ==> p == q)
    && (forall x :: x in s.h.ended ==> x < s.h.nextId)
  }

  ghost predicate HistoryInv(s: State) {
    CountInv(s) && OpsInv(s)
  }

  /** Log space that running operations may still claim. */
  ghost function Unused(ops: map<Pid, Op>): int {
    if ops == map[] then 0
    else
      var p :| p in ops;
      MAXOPBLOCKS - |ops[p].blocks| + Unused(ops - {p})
  }

  ghost predicate BudgetInv(s: State) {
    && (forall p :: p in s.ops ==> |s.ops[p].blocks| <= MAXOPBLOCKS)
    && (forall p, b :: p in s.ops && b in s.ops[p].blocks ==> b in s.lh)
    && (!Booting(s.phase) ==> |s.lh| + Unused(s.ops) <= LOGBLOCKS)
  }

  ghost predicate Inv(l: Layout, s: State) {
    && CacheInv(l, s) && PinInv(s) && DirtyInv(l, s) && ContentInv(l, s)
    && DurableInv(l, s) && HistoryInv(s) && BudgetInv(s)
  }

  // ---------------------------------------------------------------- steps that touch memory only

  lemma UnusedSplit(ops: map<Pid, Op>, p: Pid)
    requires p in ops
    ensures Unused(ops) == MAXOPBLOCKS - |ops[p].blocks| + Unused(ops - {p})
    decreases |ops|
  {
    var q :| q in ops && Unused(ops) == MAXOPBLOCKS - |ops[q].blocks| + Unused(ops - {q});
    if q != p {
      UnusedSplit(ops - {q}, p);
      UnusedSplit(ops - {p}, q);
      assert ops - {q} - {p} == ops - {p} - {q};
    }
  }

  lemma UnusedBound(ops: map<Pid, Op>)
    ensures Unused(ops) <= |ops| * MAXOPBLOCKS
    decreases |ops|
  {
    if ops != map[] {
      var p :| p in ops && Unused(ops) == MAXOPBLOCKS - |ops[p].blocks| + Unused(ops - {p});
      UnusedBound(ops - {p});
      assert (ops - {p}).Keys == ops.Keys - {p};
    }
  }

  /** Parts of the invariant that do not look at the buffers. */
  ghost predicate RestInv(l: Layout, s: State) {
    DurableInv(l, s) && HistoryInv(s) && BudgetInv(s)
  }

  lemma RestFrame(l: Layout, s: State, r: State)
    requires RestInv(l, s)
    requires r.disk == s.disk && r.lh == s.lh && r.phase == s.phase && r.h == s.h
    requires r.ops == s.ops && r.outstanding == s.outstanding && r.committing == s.committing
    ensures RestInv(l, r)
  {
  }

  /** Pins, dirty buffers and blocks carry over when valid buffers keep their keys. */
  ghost predicate SameKeys(s: State, r: State) {
    && |r.cache.bufs| == |s.cache.bufs|
    && forall j :: 0 <= j < |s.cache.bufs| && s.cache.bufs[j].valid ==>
         r.cache.bufs[j].valid && Key(r.cache.bufs[j], s.cache.bufs[j].dev, s.cache.bufs[j].blockno)
  }

  lemma StillCached(s: State, r: State)
    requires PinInv(s) && r.lh == s.lh && PinFrom(r) >= PinFrom(s) && SameKeys(s, r)
    ensures PinInv(r)
  {
    forall t | PinFrom(r) <= t < |r.lh| ensures Cached(r, r.lh[t]) {
      assert Cached(s, s.lh[t]);
      var j :| 0 <= j < |s.cache.bufs| && s.cache.bufs[j].valid && Key(s.cache.bufs[j], DEV, s.lh[t]);
      assert r.cache.bufs[j].valid && Key(r.cache.bufs[j], DEV, s.lh[t]);
    }
  }

  lemma StillDirty(l: Layout, s: State, r: State)
    requires DirtyInv(l, s) && SameKeys(s, r) && s.dirty <= r.dirty
    ensures forall b :: DirtyBlock(s, b) ==> DirtyBlock(r, b)
  {
    forall b | DirtyBlock(s, b) ensures DirtyBlock(r, b) {
      var j :| j in s.dirty && j < |s.cache.bufs| && s.cache.bufs[j].blockno == b;
      assert j in r.dirty && r.cache.bufs[j].blockno == b;
    }
  }

  /** A buffer that is not valid yet belongs to a block that is neither pinned nor dirty. */
  lemma InvalidIsClean(l: Layout, s: State, i: nat)
    requires CacheInv(l, s) && PinInv(s) && DirtyInv(l, s)
    requires i < |s.cache.bufs| && s.cache.bufs[i].dev != 0 && !s.cache.bufs[i].valid
    ensures !Pinned(s, s.cache.bufs[i].blockno) && !DirtyBlock(s, s.cache.bufs[i].blockno)
  {
    var b := s.cache.bufs[i].blockno;
    assert BufOk(l, s, i);
    forall j | 0 <= j < |s.cache.bufs| && s.cache.bufs[j].valid ensures !Key(s.cache.bufs[j], DEV, b) {
      assert Key(s.cache.bufs[j], s.cache.bufs[i].dev, b) ==> i == j;
    }
    assert forall t :: PinFrom(s) <= t < |s.lh| ==> Cached(s, s.lh[t]);
  }

  /** bget finds the buffer of a pinned block. */
  lemma GetBufPinned(l: Layout, s: State, blockno: nat)
    requires CacheInv(l, s) && PinInv(s) && Get(s.cache, DEV, blockno).Some?
    ensures Pinned(s, blockno) ==> Key(s.cache.bufs[Get(s.cache, DEV, blockno).value.1], DEV, blockno)
  {
    GetOk(s.cache, DEV, blockno);
    if Pinned(s, blockno) {
      assert Cached(s, blockno);
    }
  }

  lemma GetBufCache(l: Layout, s: State, p: Pid, blockno: nat)
    requires CacheInv(l, s) && PinInv(s) && Enabled(l, s, GetBuf(p, blockno))
    ensures CacheInv(l, Next(l, s, GetBuf(p, blockno)))
  {
    var r := Next(l, s, GetBuf(p, blockno));
    var i := Get(s.cache, DEV, blockno).value.1;
    GetOk(s.cache, DEV, blockno);
    GetBufPinned(l, s, blockno);
    forall j | 0 <= j < |r.cache.bufs| ensures BufOk(l, r, j) { assert BufOk(l, s, j); }
  }

  /** bget recycles only buffers that hold no pinned and no modified block. */
  lemma GetBufRest(l: Layout, s: State, p: Pid, blockno: nat)
    requires CacheInv(l, s) && PinInv(s) && DirtyInv(l, s) && Enabled(l, s, GetBuf(p, blockno))
    ensures PinInv(Next(l, s, GetBuf(p, blockno))) && DirtyInv(l, Next(l, s, GetBuf(p, blockno)))
    ensures forall b :: DirtyBlock(s, b) ==> DirtyBlock(Next(l, s, GetBuf(p, blockno)), b)
  {
    var r := Next(l, s, GetBuf(p, blockno));
    var i := Get(s.cache, DEV, blockno).value.1;
    GetOk(s.cache, DEV, blockno);
    assert BufOk(l, s, i);
    forall t | PinFrom(r) <= t < |r.lh| ensures Cached(r, r.lh[t]) {
      assert Cached(s, s.lh[t]);
      var j :| 0 <= j < |s.cache.bufs| && s.cache.bufs[j].valid && Key(s.cache.bufs[j], DEV, s.lh[t]);
      assert BufOk(l, s, j) && Pinned(s, s.lh[t]);
      assert r.cache.bufs[j].valid && Key(r.cache.bufs[j], DEV, s.lh[t]);
    }
    forall b | DirtyBlock(s, b) ensures DirtyBlock(r, b) {
      var j :| j in s.dirty && j < |s.cache.bufs| && s.cache.bufs[j].blockno == b;
      assert BufOk(l, s, j);
      assert r.cache.bufs[j].blockno == b;
    }
  }

  /** Memory-only steps keep contents if every buffer they touch shows the right value. */
  lemma ContentFrame(l: Layout, s: State, r: State)
    requires ContentInv(l, s)
    requires r.disk == s.disk && (Booting(r.phase) <==> Booting(s.phase))
    requires |r.h.base| == |s.h.base| && Latest(r) == Latest(s)
    requires forall b :: Pinned(s, b) ==> Pinned(r, b)
    requires forall j :: 0 <= j < |r.cache.bufs| ==> Shows(l, s, r.cache.bufs[j])
    requires forall b :: DirtyBlock(s, b) ==> DirtyBlock(r, b)
    ensures ContentInv(l, r)
  {
    forall j | 0 <= j < |r.cache.bufs| ensures Shows(l, r, r.cache.bufs[j]) {
      assert Shows(l, s, r.cache.bufs[j]);
    }
    if !Booting(r.phase) {
      forall b: nat ensures DiskShows(l, r, b) {
        assert DiskShows(l, s, b);
      }
    }
  }

  lemma SameMemory(l: Layout, s: State, r: State)
    requires ContentInv(l, s)
    requires r.disk == s.disk && r.cache == s.cache && r.dirty == s.dirty
    requires (Booting(r.phase) <==> Booting(s.phase)) && |r.h.base| == |s.h.base| && Latest(r) == Latest(s)
    requires forall b :: Pinned(s, b) ==> Pinned(r, b)
    ensures ContentInv(l, r)
  {
    forall b | DirtyBlock(s, b) ensures DirtyBlock(r, b) {}
    ContentFrame(l, s, r);
  }

  lemma BeginOpCache(l: Layout, s: State, p: Pid)
    requires CacheInv(l, s) && PinInv(s) && DirtyInv(l, s) && Enabled(l, s, BeginOp(p))
    ensures var r := Next(l, s, BeginOp(p)); CacheInv(l, r) && PinInv(r) && DirtyInv(l, r)
  {
    var r := Next(l, s, BeginOp(p));
    forall i | 0 <= i < |r.cache.bufs| ensures BufOk(l, r, i) { assert BufOk(l, s, i); }
    StillCached(s, r);
  }

  lemma BeginOpKeeps(l: Layout, s: State, p: Pid)
    requires Inv(l, s) && Enabled(l, s, BeginOp(p))
    ensures Inv(l, Next(l, s, BeginOp(p)))
  {
    var r := Next(l, s, BeginOp(p));
    BeginOpBudget(l, s, p);
    BeginOpIds(l, s, p);
    BeginOpCache(l, s, p);
    SameMemory(l, s, r);
  }

  lemma BeginOpIds(l: Layout, s: State, p: Pid)
    requires Typed(l, s) && HistoryInv(s) && Enabled(l, s, BeginOp(p))
    ensures HistoryInv(Next(l, s, BeginOp(p)))
  {
    var r := Next(l, s, BeginOp(p));
    forall k | 0 <= k < |r.h.cur| && r.h.cur[k].op !in r.h.ended ensures exists q :: q in r.ops && r.ops[q].id == r.h.cur[k].op {
      var q :| q in s.ops && s.ops[q].id == s.h.cur[k].op;
      assert q in r.ops && r.ops[q].id == s.ops[q].id;
    }
  }

  lemma BeginOpBudget(l: Layout, s: State, p: Pid)
    requires Typed(l, s) && CountInv(s) && BudgetInv(s) && Enabled(l, s, BeginOp(p))
    ensures BudgetInv(Next(l, s, BeginOp(p))) && s.phase.Idle?
  {
    var r := Next(l, s, BeginOp(p));
    UnusedBound(s.ops);
    UnusedSplit(r.ops, p);
    assert r.ops - {p} == s.ops;
  }

  lemma GetBufContent(l: Layout, s: State, p: Pid, blockno: nat)
    requires CacheInv(l, s) && PinInv(s) && DirtyInv(l, s) && ContentInv(l, s)
    requires Enabled(l, s, GetBuf(p, blockno))
    ensures ContentInv(l, Next(l, s, GetBuf(p, blockno)))
  {
    var r := Next(l, s, GetBuf(p, blockno));
    GetBufRest(l, s, p, blockno);
    GetOk(s.cache, DEV, blockno);
    forall j | 0 <= j < |r.cache.bufs| ensures Shows(l, s, r.cache.bufs[j]) {
      assert Shows(l, s, s.cache.bufs[j]);
    }
    ContentFrame(l, s, r);
  }

  lemma GetBufKeeps(l: Layout, s: State, p: Pid, blockno: nat)
    requires Inv(l, s) && Enabled(l, s, GetBuf(p, blockno))
    ensures Inv(l, Next(l, s, GetBuf(p, blockno)))
  {
    GetBufCache(l, s, p, blockno);
    GetBufRest(l, s, p, blockno);
    GetBufContent(l, s, p, blockno);
    RestFrame(l, s, Next(l, s, GetBuf(p, blockno)));
  }

  lemma LockBufCache(l: Layout, s: State, p: Pid, i: nat)
    requires CacheInv(l, s) && DirtyInv(l, s) && Enabled(l, s, LockBuf(p, i))
    ensures var r := Next(l, s, LockBuf(p, i)); CacheInv(l, r) && DirtyInv(l, r) && SameKeys(s, r)
  {
    var r := Next(l, s, LockBuf(p, i));
    SameKeysUnique(s.cache, r.cache);
    forall j | 0 <= j < |r.cache.bufs| ensures BufOk(l, r, j) { LockBufOk(l, s, p, i, j); }
  }

  lemma LockBufOk(l: Layout, s: State, p: Pid, i: nat, j: nat)
    requires CacheInv(l, s) && Enabled(l, s, LockBuf(p, i)) && j < |s.cache.bufs|
    ensures BufOk(l, Next(l, s, LockBuf(p, i)), j)
  {
    var r := Next(l, s, LockBuf(p, i));
    assert BufOk(l, s, j);
    assert forall b :: Pinned(r, b) <==> Pinned(s, b);
    if j == i {
      assert |r.locks[i].waiters| == |s.locks[i].waiters| - 1;
    }
  }

  lemma LockBufContent(l: Layout, s: State, p: Pid, i: nat)
    requires CacheInv(l, s) && PinInv(s) && DirtyInv(l, s) && ContentInv(l, s)
    requires Enabled(l, s, LockBuf(p, i))
    ensures ContentInv(l, Next(l, s, LockBuf(p, i)))
  {
    var r := Next(l, s, LockBuf(p, i));
    LockBufCache(l, s, p, i);
    StillDirty(l, s, r);
    if !s.cache.bufs[i].valid {
      InvalidIsClean(l, s, i);
      assert !Booting(s.phase) ==> DiskShows(l, s, s.cache.bufs[i].blockno);
    }
    forall j | 0 <= j < |r.cache.bufs| ensures Shows(l, s, r.cache.bufs[j]) {
      assert Shows(l, s, s.cache.bufs[j]);
    }
    ContentFrame(l, s, r);
  }

  lemma LockBufKeeps(l: Layout, s: State, p: Pid, i: nat)
    requires Inv(l, s) && Enabled(l, s, LockBuf(p, i))
    ensures Inv(l, Next(l, s, LockBuf(p, i)))
  {
    LockBufCache(l, s, p, i);
    LockBufContent(l, s, p, i);
    StillCached(s, Next(l, s, LockBuf(p, i)));
    RestFrame(l, s, Next(l, s, LockBuf(p, i)));
  }

  lemma ReleaseBufCache(l: Layout, s: State, p: Pid, i: nat)
    requires CacheInv(l, s) && DirtyInv(l, s) && Enabled(l, s, ReleaseBuf(p, i))
    ensures var r := Next(l, s, ReleaseBuf(p, i)); CacheInv(l, r) && DirtyInv(l, r) && SameKeys(s, r)
  {
    var r := Next(l, s, ReleaseBuf(p, i));
    ReleaseListOk(s.cache, i);
    forall j | 0 <= j < |r.cache.bufs| ensures BufOk(l, r, j) { assert BufOk(l, s, j); }
  }

  lemma ReleaseBufContent(l: Layout, s: State, p: Pid, i: nat)
    requires CacheInv(l, s) && DirtyInv(l, s) && ContentInv(l, s) && Enabled(l, s, ReleaseBuf(p, i))
    ensures ContentInv(l, Next(l, s, ReleaseBuf(p, i)))
  {
    var r := Next(l, s, ReleaseBuf(p, i));
    ReleaseBufCache(l, s, p, i);
    StillDirty(l, s, r);
    forall j | 0 <= j < |r.cache.bufs| ensures Shows(l, s, r.cache.bufs[j]) {
      assert Shows(l, s, s.cache.bufs[j]);
    }
    ContentFrame(l, s, r);
  }

  lemma ReleaseBufKeeps(l: Layout, s: State, p: Pid, i: nat)
    requires Inv(l, s) && Enabled(l, s, ReleaseBuf(p, i))
    ensures Inv(l, Next(l, s, ReleaseBuf(p, i)))
  {
    ReleaseBufCache(l, s, p, i);
    ReleaseBufContent(l, s, p, i);
    StillCached(s, Next(l, s, ReleaseBuf(p, i)));
    RestFrame(l, s, Next(l, s, ReleaseBuf(p, i)));
  }

  /** One more write extends the latest store by one block. */
  lemma ApplyAppend(d: Disk, ws: seq<Write>, w: Write)
    ensures Apply(d, ws + [w]) ==
            if w.block < |d| then Apply(d, ws)[w.block := w.data] else Apply(d, ws)
  {
    assert (ws + [w])[..|ws|] == ws;
  }

  lemma ModifyCache(l: Layout, s: State, p: Pid, i: nat, data: Block)
    requires CacheInv(l, s) && DirtyInv(l, s) && Enabled(l, s, Modify(p, i, data))
    ensures var r := Next(l, s, Modify(p, i, data)); CacheInv(l, r) && DirtyInv(l, r) && SameKeys(s, r)
  {
    var r := Next(l, s, Modify(p, i, data));
    forall j | 0 <= j < |r.cache.bufs| ensures BufOk(l, r, j) { assert BufOk(l, s, j); }
  }

  lemma ModifyRest(l: Layout, s: State, p: Pid, i: nat, data: Block)
    requires RestInv(l, s) && Typed(l, s) && Enabled(l, s, Modify(p, i, data))
    ensures RestInv(l, Next(l, s, Modify(p, i, data)))
  {
    var r := Next(l, s, Modify(p, i, data));
    assert s.phase.Idle?;
    assert DurableInv(l, r);
    forall k | 0 <= k < |r.h.cur|
      ensures r.h.cur[k].op in r.h.ended || exists q :: q in r.ops && r.ops[q].id == r.h.cur[k].op
    {
      if k < |s.h.cur| { assert r.h.cur[k] == s.h.cur[k]; }
    }
  }

  lemma ModifyContent(l: Layout, s: State, p: Pid, i: nat, data: Block)
    requires CacheInv(l, s) && DirtyInv(l, s) && ContentInv(l, s) && !Booting(s.phase)
    requires Enabled(l, s, Modify(p, i, data))
    ensures ContentInv(l, Next(l, s, Modify(p, i, data)))
  {
    var r := Next(l, s, Modify(p, i, data));
    var b := s.cache.bufs[i].blockno;
    ModifyCache(l, s, p, i, data);
    StillDirty(l, s, r);
    ApplyAppend(Image(s.h.base, s.h.groups), s.h.cur, Write(s.ops[p].id, b, data));
    assert Latest(r) == Latest(s)[b := data];
    forall j | 0 <= j < |r.cache.bufs| ensures Shows(l, r, r.cache.bufs[j]) {
      assert Shows(l, s, s.cache.bufs[j]) && BufOk(l, s, j) && BufOk(l, s, i);
      if s.cache.bufs[j].valid && s.cache.bufs[j].blockno == b { OneBuffer(s.cache, i, j); }
    }
    assert i in r.dirty && r.cache.bufs[i].blockno == b;
    forall c: nat ensures DiskShows(l, r, c) {
      assert DiskShows(l, s, c);
    }
  }

  lemma ModifyKeeps(l: Layout, s: State, p: Pid, i: nat, data: Block)
    requires Inv(l, s) && Enabled(l, s, Modify(p, i, data))
    ensures Inv(l, Next(l, s, Modify(p, i, data)))
  {
    ModifyCache(l, s, p, i, data);
    ModifyRest(l, s, p, i, data);
    ModifyContent(l, s, p, i, data);
    StillCached(s, Next(l, s, Modify(p, i, data)));
  }

  /** log_write pins its block. */
  lemma LogWritePins(l: Layout, s: State, p: Pid, i: nat)
    requires Typed(l, s) && s.phase.Idle? && Enabled(l, s, LogWrite(p, i))
    ensures forall c :: Pinned(Next(l, s, LogWrite(p, i)), c) <==> Pinned(s, c) || c == s.cache.bufs[i].blockno
  {
    var r := Next(l, s, LogWrite(p, i));
    var b := s.cache.bufs[i].blockno;
    forall c ensures Pinned(r, c) <==> Pinned(s, c) || c == b {
      if Pinned(s, c) {
        var t :| PinFrom(s) <= t < |s.lh| && s.lh[t] == c;
        assert r.lh[t] == c;
      }
      if c == b && b !in s.lh { assert r.lh[|s.lh|] == b; }
      if c == b && b in s.lh { var t :| 0 <= t < |s.lh| && s.lh[t] == b; assert r.lh[t] == b; }
    }
  }

  lemma LogWriteBufs(l: Layout, s: State, p: Pid, i: nat)
    requires CacheInv(l, s) && DirtyInv(l, s) && s.phase.Idle? && Enabled(l, s, LogWrite(p, i))
    requires forall c :: Pinned(Next(l, s, LogWrite(p, i)), c) <==> Pinned(s, c) || c == s.cache.bufs[i].blockno
    ensures var r := Next(l, s, LogWrite(p, i)); CacheInv(l, r) && DirtyInv(l, r)
  {
    var r := Next(l, s, LogWrite(p, i));
    assert BufOk(l, s, i);
    forall j | 0 <= j < |r.cache.bufs| ensures BufOk(l, r, j) { assert BufOk(l, s, j); }
  }

  lemma LogWriteCache(l: Layout, s: State, p: Pid, i: nat)
    requires CacheInv(l, s) && PinInv(s) && DirtyInv(l, s) && s.phase.Idle? && Enabled(l, s, LogWrite(p, i))
    ensures var r := Next(l, s, LogWrite(p, i)); CacheInv(l, r) && PinInv(r) && DirtyInv(l, r)
    ensures forall c :: Pinned(Next(l, s, LogWrite(p, i)), c) <==> Pinned(s, c) || c == s.cache.bufs[i].blockno
  {
    LogWritePins(l, s, p, i);
    LogWriteCached(l, s, p, i);
    LogWriteBufs(l, s, p, i);
  }

  lemma LogWriteCached(l: Layout, s: State, p: Pid, i: nat)
    requires Typed(l, s) && PinInv(s) && s.phase.Idle? && Enabled(l, s, LogWrite(p, i))
    ensures PinInv(Next(l, s, LogWrite(p, i)))
  {
    var r := Next(l, s, LogWrite(p, i));
    forall t | PinFrom(r) <= t < |r.lh| ensures Cached(r, r.lh[t]) {
      var j := i;
      if t < |s.lh| {
        assert Cached(s, s.lh[t]);
        j :| 0 <= j < |s.cache.bufs| && s.cache.bufs[j].valid && Key(s.cache.bufs[j], DEV, s.lh[t]);
      }
      assert r.cache.bufs[j].valid && Key(r.cache.bufs[j], DEV, r.lh[t]);
    }
  }

  lemma LogWriteContent(l: Layout, s: State, p: Pid, i: nat)
    requires CacheInv(l, s) && PinInv(s) && DirtyInv(l, s) && ContentInv(l, s)
    requires s.phase.Idle? && Enabled(l, s, LogWrite(p, i))
    ensures ContentInv(l, Next(l, s, LogWrite(p, i)))
  {
    var r := Next(l, s, LogWrite(p, i));
    LogWriteCache(l, s, p, i);
    forall j | 0 <= j < |r.cache.bufs| ensures Shows(l, r, r.cache.bufs[j]) {
      assert Shows(l, s, s.cache.bufs[j]);
    }
    forall c: nat ensures DiskShows(l, r, c) {
      assert DiskShows(l, s, c);
      if DirtyBlock(s, c) && c != s.cache.bufs[i].blockno {
        var j :| j in s.dirty && j < |s.cache.bufs| && s.cache.bufs[j].blockno == c;
        assert j in r.dirty && r.cache.bufs[j].blockno == c;
      }
    }
  }

  /** log_write keeps the reservation: what the log gains, the operation's budget loses. */
  lemma LogWriteBudget(l: Layout, s: State, p: Pid, i: nat)
    requires CacheInv(l, s) && BudgetInv(s) && s.phase.Idle? && Enabled(l, s, LogWrite(p, i))
    ensures BudgetInv(Next(l, s, LogWrite(p, i)))
  {
    var r := Next(l, s, LogWrite(p, i));
    UnusedSplit(s.ops, p);
    UnusedSplit(r.ops, p);
    assert r.ops - {p} == s.ops - {p};
    var b := s.cache.bufs[i].blockno;
    if b in s.ops[p].blocks {
      assert b in s.lh && r.ops[p].blocks == s.ops[p].blocks;
    } else {
      assert |r.ops[p].blocks| == |s.ops[p].blocks| + 1;
    }
  }

  lemma LogWriteKeeps(l: Layout, s: State, p: Pid, i: nat)
    requires Inv(l, s) && Enabled(l, s, LogWrite(p, i))
    ensures Inv(l, Next(l, s, LogWrite(p, i)))
  {
    assert s.phase.Idle?;
    LogWriteCache(l, s, p, i);
    LogWriteContent(l, s, p, i);
    LogWriteBudget(l, s, p, i);
    LogWriteRest(l, s, p, i);
  }

  lemma LogWriteRest(l: Layout, s: State, p: Pid, i: nat)
    requires Typed(l, s) && DurableInv(l, s) && HistoryInv(s) && s.phase.Idle? && Enabled(l, s, LogWrite(p, i))
    ensures var r := Next(l, s, LogWrite(p, i)); DurableInv(l, r) && HistoryInv(r)
  {
    var r := Next(l, s, LogWrite(p, i));
    assert r.ops.Keys == s.ops.Keys;
    assert forall q :: q in s.ops ==> r.ops[q].id == s.ops[q].id;
    forall k | 0 <= k < |r.h.cur|
      ensures r.h.cur[k].op in r.h.ended || exists q :: q in r.ops && r.ops[q].id == r.h.cur[k].op
    {
      if s.h.cur[k].op !in s.h.ended {
        var q :| q in s.ops && s.ops[q].id == s.h.cur[k].op;
        assert q in r.ops && r.ops[q].id == r.h.cur[k].op;
      }
    }
  }

  /** Closing a group moves the current writes into it without changing the store. */
  lemma EndOpLatest(l: Layout, s: State, p: Pid)
    requires Typed(l, s) && Enabled(l, s, EndOp(p))
    ensures Latest(Next(l, s, EndOp(p))) == Latest(s)
  {
    var r := Next(l, s, EndOp(p));
    if r.outstanding == 0 {
      assert r.h.groups[..|s.h.groups|] == s.h.groups;
    }
  }

  lemma EndOpBudget(l: Layout, s: State, p: Pid)
    requires Typed(l, s) && HistoryInv(s) && BudgetInv(s) && s.phase.Idle? && Enabled(l, s, EndOp(p))
    ensures BudgetInv(Next(l, s, EndOp(p)))
  {
    var r := Next(l, s, EndOp(p));
    UnusedSplit(s.ops, p);
    assert r.ops == s.ops - {p};
  }

  /** Every write so far belongs to an operation that ended or is still running. */
  lemma EndOpWrites(l: Layout, s: State, p: Pid, k: nat)
    requires Typed(l, s) && OpsInv(s) && Enabled(l, s, EndOp(p)) && k < |s.h.cur|
    ensures var r := Next(l, s, EndOp(p));
            s.h.cur[k].op in r.h.ended || exists q :: q in r.ops && r.ops[q].id == s.h.cur[k].op
  {
    var r := Next(l, s, EndOp(p));
    if s.h.cur[k].op !in s.h.ended {
      var q :| q in s.ops && s.ops[q].id == s.h.cur[k].op;
      assert q == p || (q in r.ops && r.ops[q].id == s.h.cur[k].op);
    }
  }

  lemma EndOpIds(l: Layout, s: State, p: Pid)
    requires Typed(l, s) && HistoryInv(s) && Enabled(l, s, EndOp(p))
    ensures OpsInv(Next(l, s, EndOp(p)))
  {
    var r := Next(l, s, EndOp(p));
    assert r.ops == s.ops - {p} && r.ops.Keys == s.ops.Keys - {p};
    forall k | 0 <= k < |s.h.cur|
      ensures s.h.cur[k].op in r.h.ended || exists q :: q in r.ops && r.ops[q].id == s.h.cur[k].op
    {
      EndOpWrites(l, s, p, k);
    }
    if r.outstanding == 0 { assert |r.ops.Keys| == 0; }
  }

  lemma EndOpHistory(l: Layout, s: State, p: Pid)
    requires Typed(l, s) && HistoryInv(s) && s.phase.Idle? && Enabled(l, s, EndOp(p))
    ensures HistoryInv(Next(l, s, EndOp(p)))
  {
    EndOpCount(l, s, p);
    EndOpIds(l, s, p);
  }

  lemma EndOpCount(l: Layout, s: State, p: Pid)
    requires Typed(l, s) && CountInv(s) && s.phase.Idle? && Enabled(l, s, EndOp(p))
    ensures CountInv(Next(l, s, EndOp(p)))
  {
    assert (s.ops - {p}).Keys == s.ops.Keys - {p};
  }

  lemma EndOpCache(l: Layout, s: State, p: Pid)
    requires CacheInv(l, s) && PinInv(s) && DirtyInv(l, s) && s.phase.Idle? && Enabled(l, s, EndOp(p))
    ensures var r := Next(l, s, EndOp(p)); CacheInv(l, r) && PinInv(r) && DirtyInv(l, r)
    ensures forall b :: Pinned(Next(l, s, EndOp(p)), b) <==> Pinned(s, b)
  {
    var r := Next(l, s, EndOp(p));
    assert PinFrom(s) == 0 && (PinFrom(r) == 0 || s.lh == []);
    forall b ensures Pinned(r, b) <==> Pinned(s, b) {}
    forall i | 0 <= i < |r.cache.bufs| ensures BufOk(l, r, i) { assert BufOk(l, s, i); }
    StillCached(s, r);
  }

  lemma EndOpContent(l: Layout, s: State, p: Pid)
    requires CacheInv(l, s) && PinInv(s) && DirtyInv(l, s) && ContentInv(l, s)
    requires s.phase.Idle? && Enabled(l, s, EndOp(p))
    ensures ContentInv(l, Next(l, s, EndOp(p)))
  {
    EndOpCache(l, s, p);
    EndOpLatest(l, s, p);
    EndOpMemory(l, s, p);
    SameMemory(l, s, Next(l, s, EndOp(p)));
  }

  /** end_op changes counts and history only. */
  lemma EndOpMemory(l: Layout, s: State, p: Pid)
    requires Typed(l, s) && s.phase.Idle? && Enabled(l, s, EndOp(p))
    ensures var r := Next(l, s, EndOp(p));
            r.disk == s.disk && r.cache == s.cache && r.dirty == s.dirty && r.h.base == s.h.base && !Booting(r.phase)
  {
  }

  /** With nothing pinned and nothing dirty, the disk is the latest store. */
  lemma AllOnDisk(l: Layout, s: State)
    requires ContentInv(l, s) && !Booting(s.phase) && s.dirty == {} && PinFrom(s) >= |s.lh|
    ensures HomeEq(l, s.disk, Latest(s))
  {
    forall b | Home(l, b) ensures s.disk[b] == Latest(s)[b] {
      assert DiskShows(l, s, b);
    }
  }

  /** A group that logged nothing has nothing to commit: its store is on disk already. */
  lemma EmptyGroup(l: Layout, r: State)
    requires ContentInv(l, r) && DirtyInv(l, r) && HistoryInv(r) && r.phase.Finish? && r.lh == []
    requires DiskOk(l, r.disk) && HeaderOf(r.disk[l.start]) == []
    ensures DurableInv(l, r)
  {
    NoDirty(l, r);
    AllOnDisk(l, r);
    RecoveredClean(l, r.disk);
    assert r.h.groups[..|r.h.groups|] == r.h.groups;
  }

  lemma EndOpDurable(l: Layout, s: State, p: Pid)
    requires Typed(l, s) && DurableInv(l, s) && LogOk(l, s.lh) && |s.h.base| == l.size
    requires s.phase.Idle? && Enabled(l, s, EndOp(p)) && !Next(l, s, EndOp(p)).phase.Finish?
    ensures DurableInv(l, Next(l, s, EndOp(p)))
  {
    var r := Next(l, s, EndOp(p));
    assert s.h.groups[..|s.h.groups|] == s.h.groups;
    if r.outstanding == 0 {
      assert r.h.groups[..|s.h.groups|] == s.h.groups;
    }
  }

  lemma EndOpKeeps(l: Layout, s: State, p: Pid)
    requires Inv(l, s) && Enabled(l, s, EndOp(p))
    ensures Inv(l, Next(l, s, EndOp(p)))
  {
    assert s.phase.Idle?;
    EndOpCache(l, s, p);
    EndOpContent(l, s, p);
    EndOpHistory(l, s, p);
    EndOpBudget(l, s, p);
    if Next(l, s, EndOp(p)).phase.Finish? {
      EmptyGroup(l, Next(l, s, EndOp(p)));
    } else {
      EndOpDurable(l, s, p);
    }
  }

  // ---------------------------------------------------------------- steps that write the disk

  /** Nothing is modified outside operations. */
  lemma NoDirty(l: Layout, s: State)
    requires DirtyInv(l, s) && HistoryInv(s) && !s.phase.Idle?
    ensures s.dirty == {}
  {
    forall i ensures i !in s.dirty {}
  }

  /** Copying into a buffer and writing it through leaves keys, locks and counts alone. */
  lemma WriteThroughCache(l: Layout, s: State, i: nat, src: Block, r: State)
    requires CacheInv(l, s) && DirtyInv(l, s) && i < |s.cache.bufs| && s.cache.bufs[i].blockno < l.size
    requires r == WriteThrough(s, i, src).(phase := r.phase) && PinFrom(r) == PinFrom(s)
    ensures CacheInv(l, r) && DirtyInv(l, r) && SameKeys(s, r)
  {
    SameKeysUnique(s.cache, r.cache);
    forall j | 0 <= j < |r.cache.bufs| ensures BufOk(l, r, j) { assert BufOk(l, s, j); }
  }

  /** Disk steps of the committing process do not touch operations or groups. */
  lemma CommitHistory(s: State, r: State)
    requires HistoryInv(s) && BudgetInv(s) && s.committing
    requires r.h == s.h && r.ops == s.ops && r.outstanding == s.outstanding && r.committing
    requires !r.phase.Idle? && !Booting(r.phase) && (r.lh == s.lh || r.lh == [])
    ensures HistoryInv(r) && BudgetInv(r)
  {
  }

  lemma CopySlotKeeps(l: Layout, s: State, i: nat, j: nat)
    requires Inv(l, s) && Enabled(l, s, CopySlot(i, j))
    ensures Inv(l, Next(l, s, CopySlot(i, j)))
  {
    var r := Next(l, s, CopySlot(i, j));
    NoDirty(l, s);
    CommitHistory(s, Next(l, s, CopySlot(i, j)));
    WriteThroughCache(l, s, i, s.cache.bufs[j].data, r);
    StillCached(s, r);
    CopySlotContent(l, s, i, j);
    assert Shows(l, s, s.cache.bufs[j]);
    CopySlotDurable(l, s, i, j);
  }

  lemma CopySlotContent(l: Layout, s: State, i: nat, j: nat)
    requires CacheInv(l, s) && ContentInv(l, s) && s.dirty == {} && Enabled(l, s, CopySlot(i, j))
    ensures ContentInv(l, Next(l, s, CopySlot(i, j)))
  {
    var r := Next(l, s, CopySlot(i, j));
    forall k | 0 <= k < |r.cache.bufs| ensures Shows(l, r, r.cache.bufs[k]) {
      assert Shows(l, s, s.cache.bufs[k]) && BufOk(l, s, k) && BufOk(l, s, i);
      if s.cache.bufs[k].valid && s.cache.bufs[k].blockno == s.cache.bufs[i].blockno { OneBuffer(s.cache, i, k); }
    }
    forall c: nat ensures DiskShows(l, r, c) {
      assert DiskShows(l, s, c);
      assert Pinned(s, c) <==> Pinned(r, c);
    }
  }

  lemma CopySlotDurable(l: Layout, s: State, i: nat, j: nat)
    requires Typed(l, s) && DurableInv(l, s) && Enabled(l, s, CopySlot(i, j)) && |s.h.base| == l.size
    requires LogOk(l, s.lh) && s.cache.bufs[j].data == Latest(s)[s.lh[s.phase.tail]]
    ensures DurableInv(l, Next(l, s, CopySlot(i, j)))
  {
    var r, slot := Next(l, s, CopySlot(i, j)), l.start + s.phase.tail + 1;
    assert Latest(r) == Latest(s) && DurableImage(r) == DurableImage(s) && r.disk == s.disk[slot := s.cache.bufs[j].data];
    SlotWriteClean(l, s.disk, slot, s.cache.bufs[j].data, DurableImage(s));
    CopySlotHolds(l, s, r);
  }

  lemma CopySlotHolds(l: Layout, s: State, r: State)
    requires s.phase.CopyLog? && SlotsHold(l, s, s.phase.tail) && s.phase.tail < |s.lh| && r.lh == s.lh && r.h == s.h
    requires r.disk == s.disk[l.start + s.phase.tail + 1 := Latest(s)[s.lh[s.phase.tail]]]
    ensures SlotsHold(l, r, s.phase.tail + 1)
  {
  }

  /** Writing a block outside the home area through its buffer keeps every buffer's contents right. */
  lemma NonHomeContent(l: Layout, s: State, i: nat, src: Block, r: State)
    requires CacheInv(l, s) && ContentInv(l, s) && s.dirty == {}
    requires i < |s.cache.bufs| && s.cache.bufs[i].valid && !Home(l, s.cache.bufs[i].blockno)
    requires s.cache.bufs[i].blockno < l.size
    requires r == WriteThrough(s, i, src).(phase := r.phase, lh := r.lh)
    requires !Booting(r.phase) && !Booting(s.phase) && forall b :: Pinned(s, b) ==> Pinned(r, b)
    ensures ContentInv(l, r)
  {
    forall k | 0 <= k < |r.cache.bufs| ensures Shows(l, r, r.cache.bufs[k]) {
      assert Shows(l, s, s.cache.bufs[k]) && BufOk(l, s, k) && BufOk(l, s, i);
      if s.cache.bufs[k].valid && s.cache.bufs[k].blockno == s.cache.bufs[i].blockno { OneBuffer(s.cache, i, k); }
    }
    forall c: nat ensures DiskShows(l, r, c) {
      assert DiskShows(l, s, c);
    }
  }

  /** The commit point: one block write turns the whole group durable. */
  lemma PutHeadKeeps(l: Layout, s: State, i: nat)
    requires Inv(l, s) && Enabled(l, s, PutHead(i))
    ensures Inv(l, Next(l, s, PutHead(i)))
  {
    NoDirty(l, s);
    CommitHistory(s, Next(l, s, PutHead(i)));
    PutHeadMemory(l, s, i);
    PutHeadDurable(l, s, i);
  }

  /** Outside the log everything is at home already. */
  lemma OffLogOnDisk(l: Layout, s: State)
    requires ContentInv(l, s) && !Booting(s.phase) && s.dirty == {}
    ensures forall b :: Home(l, b) && b !in s.lh ==> s.disk[b] == Latest(s)[b]
  {
    forall b | Home(l, b) && b !in s.lh ensures s.disk[b] == Latest(s)[b] {
      assert DiskShows(l, s, b);
    }
  }

  lemma PutHeadIs(l: Layout, s: State, i: nat)
    requires Typed(l, s) && s.h.cur == [] && Enabled(l, s, PutHead(i))
    ensures var r := Next(l, s, PutHead(i));
            && r.h == s.h && r.lh == s.lh && r.phase == InstallHome(0)
            && r.disk == s.disk[l.start := PutHeader(s.cache.bufs[i].data, s.lh)] && DurableImage(r) == Latest(s) == Latest(r)
  {
    assert s.h.groups[..|s.h.groups|] == s.h.groups;
  }

  lemma PutHeadDurable(l: Layout, s: State, i: nat)
    requires Typed(l, s) && LogOk(l, s.lh) && ContentInv(l, s) && s.dirty == {}
    requires SlotsHold(l, s, |s.lh|) && |s.lh| > 0 && s.h.cur == [] && Enabled(l, s, PutHead(i))
    ensures DurableInv(l, Next(l, s, PutHead(i)))
  {
    OffLogOnDisk(l, s);
    PutHeadIs(l, s, i);
    HeaderCommits(l, s.disk, s.cache.bufs[i].data, s.lh, Latest(s));
    PutHeadSlots(l, s, Next(l, s, PutHead(i)));
  }

  lemma PutHeadMemory(l: Layout, s: State, i: nat)
    requires CacheInv(l, s) && PinInv(s) && DirtyInv(l, s) && ContentInv(l, s) && s.dirty == {} && Enabled(l, s, PutHead(i))
    ensures var r := Next(l, s, PutHead(i)); CacheInv(l, r) && PinInv(r) && DirtyInv(l, r) && ContentInv(l, r)
  {
    var r := Next(l, s, PutHead(i));
    WriteThroughCache(l, s, i, r.cache.bufs[i].data, r);
    StillCached(s, r);
    NonHomeContent(l, s, i, r.cache.bufs[i].data, r);
  }

  lemma PutHeadSlots(l: Layout, s: State, r: State)
    requires SlotsHold(l, s, |s.lh|) && |r.disk| == |s.disk| && r.lh == s.lh && r.h == s.h
    requires forall b :: 0 <= b < l.size && b != l.start ==> r.disk[b] == s.disk[b]
    ensures SlotsHold(l, r, |r.lh|)
  {
    assert Latest(r) == Latest(s);
  }

  /** Installing a block unpins it. */
  lemma CopyHomePins(l: Layout, s: State, i: nat, j: nat)
    requires CacheInv(l, s) && Enabled(l, s, CopyHome(i, j))
    ensures var r := Next(l, s, CopyHome(i, j));
            PinFrom(r) == PinFrom(s) + 1 && forall b :: Pinned(r, b) <==> Pinned(s, b) && b != s.lh[s.phase.tail]
  {
    var r := Next(l, s, CopyHome(i, j));
    var t := s.phase.tail;
    forall b ensures Pinned(r, b) <==> Pinned(s, b) && b != s.lh[t] {
      if Pinned(s, b) && b != s.lh[t] {
        var u :| PinFrom(s) <= u < |s.lh| && s.lh[u] == b;
        assert PinFrom(r) <= u;
      }
    }
  }

  lemma CopyHomeCache(l: Layout, s: State, i: nat, j: nat)
    requires CacheInv(l, s) && PinInv(s) && DirtyInv(l, s) && Enabled(l, s, CopyHome(i, j))
    ensures var r := Next(l, s, CopyHome(i, j)); CacheInv(l, r) && PinInv(r) && DirtyInv(l, r)
    ensures forall b :: Pinned(Next(l, s, CopyHome(i, j)), b) <==> Pinned(s, b) && b != s.lh[s.phase.tail]
  {
    var r := Next(l, s, CopyHome(i, j));
    CopyHomePins(l, s, i, j);
    assert Pinned(s, s.lh[s.phase.tail]);
    assert BufOk(l, s, j);
    forall k | 0 <= k < |r.cache.bufs| ensures BufOk(l, r, k) {
      assert BufOk(l, s, k);
    }
    StillCached(s, r);
  }

  lemma CopyHomeContent(l: Layout, s: State, i: nat, j: nat)
    requires CacheInv(l, s) && PinInv(s) && DirtyInv(l, s) && ContentInv(l, s) && s.dirty == {}
    requires SlotsHold(l, s, |s.lh|) && Enabled(l, s, CopyHome(i, j))
    ensures ContentInv(l, Next(l, s, CopyHome(i, j)))
  {
    var r := Next(l, s, CopyHome(i, j));
    CopyHomeCache(l, s, i, j);
    assert Shows(l, s, s.cache.bufs[i]);
    forall k | 0 <= k < |r.cache.bufs| ensures Shows(l, r, r.cache.bufs[k]) {
      assert Shows(l, s, s.cache.bufs[k]) && BufOk(l, s, k) && BufOk(l, s, j);
      if s.cache.bufs[k].valid && s.cache.bufs[k].blockno == s.cache.bufs[j].blockno { OneBuffer(s.cache, j, k); }
    }
    forall c: nat ensures DiskShows(l, r, c) {
      assert DiskShows(l, s, c);
    }
  }

  /** A buffer of the log area shows its disk block. */
  lemma SlotShows(l: Layout, s: State, i: nat, b: nat)
    requires ContentInv(l, s) && i < |s.cache.bufs| && s.cache.bufs[i].valid && s.cache.bufs[i].blockno == b
    requires !Home(l, b) || Booting(s.phase)
    ensures b < l.size && s.cache.bufs[i].data == s.disk[b]
  {
    assert Shows(l, s, s.cache.bufs[i]);
  }

  /** Installing block t of the header keeps what recovery yields. */
  lemma InstalledDurable(l: Layout, s: State, t: nat, r: State)
    requires DiskOk(l, s.disk) && HomeEq(l, Recovered(l, s.disk), DurableImage(s)) && HeaderIs(l, s, s.lh) && Homed(l, s, t) && t < |s.lh|
    requires |s.h.base| == l.size && r.h == s.h && r.lh == s.lh && DurableImage(r) == DurableImage(s) == Latest(s) == Latest(r)
    requires r.disk == s.disk[s.lh[t] := s.disk[l.start + t + 1]]
    ensures DiskOk(l, r.disk) && HomeEq(l, Recovered(l, r.disk), DurableImage(r)) && HeaderIs(l, r, r.lh) && Homed(l, r, t + 1)
    ensures SlotsHold(l, s, |s.lh|) ==> SlotsHold(l, r, |s.lh|)
  {
    InstallKeeps(l, s.disk, t, DurableImage(s));
    HomedGrows(l, s, t, r);
  }

  lemma CopyHomeDurable(l: Layout, s: State, i: nat, j: nat)
    requires Typed(l, s) && DurableInv(l, s) && s.h.cur == [] && Enabled(l, s, CopyHome(i, j))
    requires |s.h.base| == l.size && s.cache.bufs[i].data == s.disk[l.start + s.phase.tail + 1]
    ensures DurableInv(l, Next(l, s, CopyHome(i, j)))
  {
    var r, t := Next(l, s, CopyHome(i, j)), s.phase.tail;
    CopyHomeIs(l, s, i, j);
    InstalledDurable(l, s, t, r);
  }

  /** On disk, one block goes home; the history stays. */
  lemma CopyHomeIs(l: Layout, s: State, i: nat, j: nat)
    requires Typed(l, s) && DurableInv(l, s) && s.h.cur == [] && Enabled(l, s, CopyHome(i, j))
    requires |s.h.base| == l.size && s.cache.bufs[i].data == s.disk[l.start + s.phase.tail + 1]
    ensures var r, t := Next(l, s, CopyHome(i, j)), s.phase.tail;
            && r.h == s.h && r.lh == s.lh && r.disk == s.disk[s.lh[t] := s.disk[l.start + t + 1]]
            && r.disk == s.disk[s.lh[t] := Latest(s)[s.lh[t]]] && DurableImage(r) == DurableImage(s) == Latest(s) == Latest(r)
            && (r.phase == Erase <==> t + 1 == |s.lh|) && (r.phase == InstallHome(t + 1) <==> t + 1 < |s.lh|)
  {
    assert s.h.groups[..|s.h.groups|] == s.h.groups;
  }

  /** Installing block t extends the installed prefix and leaves the slots alone. */
  lemma HomedGrows(l: Layout, s: State, t: nat, r: State)
    requires Homed(l, s, t) && LayoutOk(l) && t < |s.lh| && r.lh == s.lh && Latest(r) == Latest(s)
    requires r.h == s.h && r.disk == s.disk[s.lh[t] := Latest(s)[s.lh[t]]]
    ensures Homed(l, r, t + 1) && (SlotsHold(l, s, |s.lh|) ==> SlotsHold(l, r, |s.lh|))
  {
  }

  lemma CopyHomeMemory(l: Layout, s: State, i: nat, j: nat)
    requires CacheInv(l, s) && PinInv(s) && DirtyInv(l, s) && ContentInv(l, s) && s.dirty == {}
    requires SlotsHold(l, s, |s.lh|) && Enabled(l, s, CopyHome(i, j))
    ensures var r := Next(l, s, CopyHome(i, j)); CacheInv(l, r) && PinInv(r) && DirtyInv(l, r) && ContentInv(l, r)
    ensures s.cache.bufs[i].data == s.disk[l.start + s.phase.tail + 1]
  {
    CopyHomeCache(l, s, i, j);
    CopyHomeContent(l, s, i, j);
    SlotShows(l, s, i, l.start + s.phase.tail + 1);
  }

  lemma CopyHomeKeeps(l: Layout, s: State, i: nat, j: nat)
    requires Inv(l, s) && Enabled(l, s, CopyHome(i, j))
    ensures Inv(l, Next(l, s, CopyHome(i, j)))
  {
    NoDirty(l, s);
    CommitHistory(s, Next(l, s, CopyHome(i, j)));
    CopyHomeMemory(l, s, i, j);
    CopyHomeDurable(l, s, i, j);
  }

  lemma EraseHeadKeeps(l: Layout, s: State, i: nat)
    requires Inv(l, s) && Enabled(l, s, EraseHead(i))
    ensures Inv(l, Next(l, s, EraseHead(i)))
  {
    var r := Next(l, s, EraseHead(i));
    NoDirty(l, s);
    CommitHistory(s, Next(l, s, EraseHead(i)));
    EraseHeadCache(l, s, i);
    NonHomeContent(l, s, i, r.cache.bufs[i].data, r);
    EraseHeadDurable(l, s, i);
  }

  lemma EraseHeadCache(l: Layout, s: State, i: nat)
    requires CacheInv(l, s) && PinInv(s) && DirtyInv(l, s) && Enabled(l, s, EraseHead(i))
    ensures var r := Next(l, s, EraseHead(i)); CacheInv(l, r) && PinInv(r) && DirtyInv(l, r)
    ensures forall b :: Pinned(s, b) ==> Pinned(Next(l, s, EraseHead(i)), b)
  {
    var r := Next(l, s, EraseHead(i));
    forall k | 0 <= k < |r.cache.bufs| ensures BufOk(l, r, k) { assert BufOk(l, s, k); }
  }

  lemma EraseHeadDurable(l: Layout, s: State, i: nat)
    requires CacheInv(l, s) && ContentInv(l, s) && DurableInv(l, s) && HistoryInv(s)
    requires Enabled(l, s, EraseHead(i)) && s.dirty == {}
    ensures DurableInv(l, Next(l, s, EraseHead(i)))
  {
    var r := Next(l, s, EraseHead(i));
    HeaderRoundTrip(s.cache.bufs[i].data, []);
    assert DiskOk(l, r.disk) && HeaderOf(r.disk[l.start]) == [];
    AllOnDisk(l, s);
    RecoveredClean(l, r.disk);
    assert s.h.groups[..|s.h.groups|] == s.h.groups;
  }

  lemma EndCommitKeeps(l: Layout, s: State)
    requires Inv(l, s) && Enabled(l, s, EndCommit)
    ensures Inv(l, Next(l, s, EndCommit))
  {
    var r := Next(l, s, EndCommit);
    forall k | 0 <= k < |r.cache.bufs| ensures BufOk(l, r, k) { assert BufOk(l, s, k); }
    SameMemory(l, s, r);
  }

  // ---------------------------------------------------------------- crash and recovery

  lemma BlankInv(l: Layout, r: State)
    requires LayoutOk(l) && |r.disk| == |r.h.base| == l.size && r.cache == Blank(|r.cache.bufs|)
    requires r.locks == seq(|r.cache.bufs|, _ => BufLock(None, multiset{}))
    requires r.dirty == {} && r.lh == [] && r.phase == Boot
    ensures CacheInv(l, r) && PinInv(r) && DirtyInv(l, r) && ContentInv(l, r)
  {
    BlankOk(|r.cache.bufs|);
    forall i | 0 <= i < |r.cache.bufs| ensures BufOk(l, r, i) {}
  }

  /** Whatever the machine was doing, power loss leaves a disk that recovers to whole groups. */
  lemma CrashKeeps(l: Layout, s: State)
    requires Inv(l, s)
    ensures Inv(l, Rebooted(s))
  {
    var r := Rebooted(s);
    BlankInv(l, r);
    assert r.h.groups[..|r.h.groups|] == r.h.groups;
    assert DurableImage(r) == DurableImage(s);
    assert |r.h.groups| >= s.h.returned;
  }

  lemma ReadHeadKeeps(l: Layout, s: State, i: nat)
    requires Inv(l, s) && Enabled(l, s, ReadHead(i))
    ensures Inv(l, Next(l, s, ReadHead(i)))
  {
    var r := Next(l, s, ReadHead(i));
    SlotShows(l, s, i, l.start);
    forall k | 0 <= k < |r.cache.bufs| ensures BufOk(l, r, k) { assert BufOk(l, s, k); }
    SameMemory(l, s, r);
    BootHistory(s, r);
  }

  lemma BootHistory(s: State, r: State)
    requires HistoryInv(s) && BudgetInv(s) && Booting(s.phase) && Booting(r.phase)
    requires r.h == s.h && r.ops == s.ops && r.outstanding == s.outstanding && r.committing == s.committing
    ensures HistoryInv(r) && BudgetInv(r)
  {
  }

  lemma ReplayHomeMemory(l: Layout, s: State, i: nat, j: nat)
    requires CacheInv(l, s) && DirtyInv(l, s) && ContentInv(l, s) && Enabled(l, s, ReplayHome(i, j))
    ensures var r := Next(l, s, ReplayHome(i, j)); CacheInv(l, r) && PinInv(r) && DirtyInv(l, r) && ContentInv(l, r)
  {
    var r := Next(l, s, ReplayHome(i, j));
    WriteThroughCache(l, s, j, s.cache.bufs[i].data, r);
    forall k | 0 <= k < |r.cache.bufs| ensures Shows(l, r, r.cache.bufs[k]) {
      assert Shows(l, s, s.cache.bufs[k]) && BufOk(l, s, k) && BufOk(l, s, j);
      if s.cache.bufs[k].valid && s.cache.bufs[k].blockno == s.cache.bufs[j].blockno { OneBuffer(s.cache, j, k); }
    }
  }

  lemma ReplayHomeIs(l: Layout, s: State, i: nat, j: nat)
    requires Typed(l, s) && DurableInv(l, s) && s.h.cur == [] && Enabled(l, s, ReplayHome(i, j))
    requires |s.h.base| == l.size && s.cache.bufs[i].data == s.disk[l.start + s.phase.tail + 1]
    ensures var r, t := Next(l, s, ReplayHome(i, j)), s.phase.tail;
            && r.h == s.h && r.lh == s.lh && r.disk == s.disk[s.lh[t] := s.disk[l.start + t + 1]]
            && DurableImage(r) == DurableImage(s) == Latest(s) == Latest(r)
            && (r.phase == ReplayErase <==> t + 1 == |s.lh|) && (r.phase == Replay(t + 1) <==> t + 1 < |s.lh|)
  {
    assert s.h.groups[..|s.h.groups|] == s.h.groups;
  }

  lemma ReplayHomeDurable(l: Layout, s: State, i: nat, j: nat)
    requires Typed(l, s) && DurableInv(l, s) && s.h.cur == [] && Enabled(l, s, ReplayHome(i, j))
    requires |s.h.base| == l.size && s.cache.bufs[i].data == s.disk[l.start + s.phase.tail + 1]
    ensures DurableInv(l, Next(l, s, ReplayHome(i, j)))
  {
    ReplayHomeIs(l, s, i, j);
    InstalledDurable(l, s, s.phase.tail, Next(l, s, ReplayHome(i, j)));
  }

  lemma ReplayHomeKeeps(l: Layout, s: State, i: nat, j: nat)
    requires Inv(l, s) && Enabled(l, s, ReplayHome(i, j))
    ensures Inv(l, Next(l, s, ReplayHome(i, j)))
  {
    var r := Next(l, s, ReplayHome(i, j));
    ReplayHomeMemory(l, s, i, j);
    assert DurableInv(l, r) by {
      SlotShows(l, s, i, l.start + s.phase.tail + 1);
      ReplayHomeDurable(l, s, i, j);
    }
    BootHistory(s, r);
  }

  /** Replay has copied every logged block home, so the home area is the durable store. */
  lemma ReplayedAll(l: Layout, s: State)
    requires DurableInv(l, s) && s.phase.ReplayErase? && s.h.cur == []
    ensures HomeEq(l, s.disk, Latest(s)) && DurableImage(s) == Latest(s)
  {
    assert s.h.groups[..|s.h.groups|] == s.h.groups;
    RecoveredSlots(l, s.disk, DurableImage(s));
    forall b | Home(l, b) ensures s.disk[b] == Latest(s)[b] {
      if b in s.lh {
        var t :| 0 <= t < |s.lh| && s.lh[t] == b;
      }
    }
  }

  lemma ReplayEraseMemory(l: Layout, s: State, i: nat)
    requires CacheInv(l, s) && DirtyInv(l, s) && ContentInv(l, s) && HomeEq(l, s.disk, Latest(s))
    requires Enabled(l, s, ReplayEraseHead(i))
    ensures var r := Next(l, s, ReplayEraseHead(i)); CacheInv(l, r) && PinInv(r) && DirtyInv(l, r) && ContentInv(l, r)
  {
    var r := Next(l, s, ReplayEraseHead(i));
    forall k | 0 <= k < |r.cache.bufs| ensures BufOk(l, r, k) { assert BufOk(l, s, k); }
    assert Latest(r) == Latest(s);
    forall k | 0 <= k < |r.cache.bufs| ensures Shows(l, r, r.cache.bufs[k]) {
      assert Shows(l, s, s.cache.bufs[k]) && BufOk(l, s, k) && BufOk(l, s, i);
      if s.cache.bufs[k].valid && s.cache.bufs[k].blockno == s.cache.bufs[i].blockno { OneBuffer(s.cache, i, k); }
    }
    forall b: nat ensures DiskShows(l, r, b) {}
  }

  lemma ReplayEraseKeeps(l: Layout, s: State, i: nat)
    requires Inv(l, s) && Enabled(l, s, ReplayEraseHead(i))
    ensures Inv(l, Next(l, s, ReplayEraseHead(i)))
  {
    var r := Next(l, s, ReplayEraseHead(i));
    ReplayedAll(l, s);
    ReplayEraseMemory(l, s, i);
    EraseKeeps(l, s.disk, s.cache.bufs[i].data, Latest(s));
    assert r.h.groups[..|r.h.groups|] == r.h.groups;
    assert DurableInv(l, r);
    assert HistoryInv(r) && BudgetInv(r);
  }

  // ---------------------------------------------------------------- whole runs

  lemma InitInv(l: Layout, s: State)
    requires Init(l, s)
    ensures Inv(l, s)
  {
    BlankInv(l, s);
    assert |Recovered(l, s.disk)| == l.size;
    assert s.h.groups[..|s.h.groups|] == s.h.groups;
  }

  predicate IsOpStep(st: Step) {
    st.BeginOp? || st.GetBuf? || st.LockBuf? || st.Modify? || st.LogWrite? || st.ReleaseBuf? || st.EndOp?
  }

  /** The steps of file-system operations. */
  lemma OpStepKeeps(l: Layout, s: State, st: Step)
    requires Inv(l, s) && Enabled(l, s, st) && IsOpStep(st)
    ensures Inv(l, Next(l, s, st))
  {
    match st
    case BeginOp(p) => BeginOpKeeps(l, s, p);
    case GetBuf(p, b) => GetBufKeeps(l, s, p, b);
    case LockBuf(p, i) => LockBufKeeps(l, s, p, i);
    case Modify(p, i, data) => ModifyKeeps(l, s, p, i, data);
    case LogWrite(p, i) => LogWriteKeeps(l, s, p, i);
    case ReleaseBuf(p, i) => ReleaseBufKeeps(l, s, p, i);
    case EndOp(p) => EndOpKeeps(l, s, p);
  }

  /** The steps of commit and recovery, and crashes. */
  lemma LogStepKeeps(l: Layout, s: State, st: Step)
    requires Inv(l, s) && Enabled(l, s, st) && !IsOpStep(st)
    ensures Inv(l, Next(l, s, st))
  {
    match st
    case CopySlot(i, j) => CopySlotKeeps(l, s, i, j);
    case PutHead(i) => PutHeadKeeps(l, s, i);
    case CopyHome(i, j) => CopyHomeKeeps(l, s, i, j);
    case EraseHead(i) => EraseHeadKeeps(l, s, i);
    case EndCommit => EndCommitKeeps(l, s);
    case Crash => CrashKeeps(l, s);
    case ReadHead(i) => ReadHeadKeeps(l, s, i);
    case ReplayHome(i, j) => ReplayHomeKeeps(l, s, i, j);
    case ReplayEraseHead(i) => ReplayEraseKeeps(l, s, i);
  }

  /** Every step of every process keeps the invariant. */
  lemma StepKeeps(l: Layout, s: State, st: Step)
    requires Inv(l, s) && Enabled(l, s, st)
    ensures Inv(l, Next(l, s, st))
  {
    if IsOpStep(st) {
      OpStepKeeps(l, s, st);
    } else {
      LogStepKeeps(l, s, st);
    }
  }

  /** A run: a booted machine, then any interleaving of enabled steps, crashes included. */
  ghost predicate IsRun(l: Layout, run: seq<State>, steps: seq<Step>) {
    && |run| == |steps| + 1 && Init(l, run[0])
    && forall k :: 0 <= k < |steps| ==>
         Typed(l, run[k]) && Enabled(l, run[k], steps[k]) && run[k + 1] == Next(l, run[k], steps[k])
  }

  lemma {:induction false} RunInv(l: Layout, run: seq<State>, steps: seq<Step>, k: nat)
    requires IsRun(l, run, steps) && k < |run|
    ensures Inv(l, run[k])
  {
    if k == 0 {
      InitInv(l, run[0]);
    } else {
      RunInv(l, run, steps, k - 1);
      StepKeeps(l, run[k - 1], steps[k - 1]);
    }
  }

  /** Crash safety. At every moment of every run, recovery would yield the effect of a prefix of the
      commit groups. The prefix holds every group whose commit has returned, consists of operations
      that all reached end_op, and is the whole list unless the committing process has not written
      its header yet. */
  lemma CrashSafety(l: Layout, run: seq<State>, steps: seq<Step>, k: nat)
    requires IsRun(l, run, steps) && k < |run|
    ensures var s := run[k];
            && DiskOk(l, s.disk)
            && s.h.returned <= Durable(s) <= |s.h.groups|
            && HomeEq(l, Recovered(l, s.disk), Image(s.h.base, s.h.groups[..Durable(s)]))
            && (Durable(s) < |s.h.groups| <==> s.phase.CopyLog? || s.phase.WriteHead?)
            && (forall g, w :: 0 <= g < Durable(s) && w in s.h.groups[g] ==> w.op in s.h.ended)
  {
    RunInv(l, run, steps, k);
  }

  /** A commit never overlaps an operation, so the check in end_op cannot fire. */
  lemma CommitExcludesOps(l: Layout, run: seq<State>, steps: seq<Step>, k: nat)
    requires IsRun(l, run, steps) && k < |run|
    ensures run[k].committing ==> run[k].outstanding == 0 && run[k].ops == map[]
    ensures forall p :: p in run[k].ops ==> !run[k].committing && run[k].outstanding >= 1
  {
    RunInv(l, run, steps, k);
  }

  /** A locked or unused buffer in a given state. */
  ghost predicate BufferAgrees(l: Layout, s: State, i: nat)
    requires i < |s.cache.bufs| && |s.disk| == |s.h.base| == l.size
  {
    var b := s.cache.bufs[i];
    b.valid ==>
      && b.blockno < l.size
      && (Home(l, b.blockno) ==> b.data == Latest(s)[b.blockno])
      && (b.refcnt == 0 ==> b.data == s.disk[b.blockno])
  }

  /** The cache is a plain block store. A process that gets a buffer of a home block sees the value of
      the last write to that block; a block has at most one buffer; every logged block is cached until
      it is installed; and a buffer nobody references agrees with the disk. */
  lemma ReadsLatest(l: Layout, run: seq<State>, steps: seq<Step>, k: nat)
    requires IsRun(l, run, steps) && k < |run| && !Booting(run[k].phase)
    ensures |run[k].disk| == |run[k].h.base| == l.size
    ensures forall i :: 0 <= i < |run[k].cache.bufs| ==> BufferAgrees(l, run[k], i)
    ensures forall i :: 0 <= i < |run[k].locks| == |run[k].cache.bufs| && run[k].locks[i].holder.Some? ==>
              run[k].cache.bufs[i].valid
    ensures Unique(run[k].cache) && PinInv(run[k])
  {
    RunInv(l, run, steps, k);
    forall i | 0 <= i < |run[k].cache.bufs| ensures BufferAgrees(l, run[k], i) {
      Agrees(l, run[k], i);
    }
    forall i | 0 <= i < |run[k].locks| && run[k].locks[i].holder.Some? ensures run[k].cache.bufs[i].valid {
      assert BufOk(l, run[k], i);
    }
  }

  lemma Agrees(l: Layout, s: State, i: nat)
    requires Inv(l, s) && !Booting(s.phase) && i < |s.cache.bufs|
    ensures BufferAgrees(l, s, i)
  {
    assert BufOk(l, s, i) && Shows(l, s, s.cache.bufs[i]);
    if s.cache.bufs[i].valid && s.cache.bufs[i].refcnt == 0 {
      var b := s.cache.bufs[i].blockno;
      assert !DirtyBlock(s, b) by { UnusedNotDirty(l, s, i); }
      assert DiskShows(l, s, b);
    }
  }

  lemma UnusedNotDirty(l: Layout, s: State, i: nat)
    requires CacheInv(l, s) && DirtyInv(l, s) && i < |s.cache.bufs|
    requires s.cache.bufs[i].valid && s.cache.bufs[i].refcnt == 0
    ensures !DirtyBlock(s, s.cache.bufs[i].blockno)
  {
    assert BufOk(l, s, i);
    forall j | j in s.dirty ensures j < |s.cache.bufs| && s.cache.bufs[j].blockno != s.cache.bufs[i].blockno {
      assert BufOk(l, s, j);
      assert Key(s.cache.bufs[j], s.cache.bufs[i].dev, s.cache.bufs[i].blockno) ==> i == j;
    }
  }

  /** The counters and headers that a step relies on are never out of range: a held buffer is
      referenced, a waiting process waits for a real block, and a header read at boot is well formed. */
  lemma GuardsHold(l: Layout, run: seq<State>, steps: seq<Step>, k: nat, i: nat)
    requires IsRun(l, run, steps) && k < |run| && i < |run[k].cache.bufs| == |run[k].locks|
    ensures run[k].locks[i].holder.Some? ==> run[k].cache.bufs[i].refcnt > 0
    ensures |run[k].locks[i].waiters| > 0 ==> run[k].cache.bufs[i].dev == DEV
    ensures Booting(run[k].phase) && run[k].cache.bufs[i].valid && Key(run[k].cache.bufs[i], DEV, l.start) ==>
              GetWord(run[k].cache.bufs[i].data, 0) <= LOGBLOCKS
  {
    RunInv(l, run, steps, k);
    assert BufOk(l, run[k], i) && Shows(l, run[k], run[k].cache.bufs[i]);
  }

  /** Log space. The log plus what running operations may still add fits, logged blocks are distinct
      home blocks, and an operation that has logged fewer than MAXOPBLOCKS blocks never meets
      "too big a transaction". A running operation meets it exactly when the log is full, and then
      every running operation has used its whole budget. */
  lemma LogFits(l: Layout, run: seq<State>, steps: seq<Step>, k: nat, p: Pid)
    requires IsRun(l, run, steps) && k < |run| && p in run[k].ops
    ensures |run[k].lh| + Unused(run[k].ops) <= LOGBLOCKS && LogOk(l, run[k].lh)
    ensures |run[k].ops[p].blocks| < MAXOPBLOCKS ==> !LogWritePanics(run[k])
    ensures LogWritePanics(run[k]) <==> |run[k].lh| == LOGBLOCKS
    ensures LogWritePanics(run[k]) ==> forall q :: q in run[k].ops ==> |run[k].ops[q].blocks| == MAXOPBLOCKS
  {
    RunInv(l, run, steps, k);
    var s := run[k];
    forall q | q in s.ops ensures MAXOPBLOCKS - |s.ops[q].blocks| <= Unused(s.ops) {
      UnusedSplit(s.ops, q);
      UnusedNonNegative(s.ops - {q});
    }
  }

  lemma UnusedNonNegative(ops: map<Pid, Op>)
    requires forall p :: p in ops ==> |ops[p].blocks| <= MAXOPBLOCKS
    ensures Unused(ops) >= 0
    decreases |ops|
  {
    if ops != map[] {
      var p :| p in ops && Unused(ops) == MAXOPBLOCKS - |ops[p].blocks| + Unused(ops - {p});
      assert (ops - {p}).Keys == ops.Keys - {p};
      UnusedNonNegative(ops - {p});
    }
  }
}
