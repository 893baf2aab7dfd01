/** Runs of the logging machine, built step by step: every group of at most MAXOPBLOCKS writes can be carried. */
module LogRuns {
  import opened Common
  import opened Blocks
  import opened BufCache
  import opened LogFormat
  import opened LogMachine
  import opened LogSafety

  /** The step is enabled in s and leads to t. */
  ghost predicate Moves(l: Layout, s: State, st: Step, t: State) {
    Typed(l, s) && Enabled(l, s, st) && t == Next(l, s, st)
  }

  /** Steps, with the states before, between and after them. */
  ghost predicate Path(l: Layout, run: seq<State>, steps: seq<Step>) {
    && |run| == |steps| + 1
    && forall k {:trigger Moves(l, run[k], steps[k], run[k + 1])} :: 0 <= k < |steps| ==> Moves(l, run[k], steps[k], run[k + 1])
  }

  ghost predicate Leads(l: Layout, s: State, t: State, run: seq<State>, steps: seq<Step>) {
    Path(l, run, steps) && run[0] == s && run[|steps|] == t
  }

  /** Some steps lead from s to t. */
  ghost predicate Reaches(l: Layout, s: State, t: State) {
    exists run: seq<State>, steps: seq<Step> :: Leads(l, s, t, run, steps)
  }

  lemma ReachNone(l: Layout, s: State)
    ensures Reaches(l, s, s)
  {
    assert Leads(l, s, s, [s], []);
  }

  lemma MoveReaches(l: Layout, s: State, st: Step, t: State)
    requires Moves(l, s, st, t)
    ensures Reaches(l, s, t)
  {
    assert Leads(l, s, t, [s, t], [st]);
  }

  lemma ReachThen(l: Layout, s: State, t: State, u: State)
    requires Reaches(l, s, t) && Reaches(l, t, u)
    ensures Reaches(l, s, u)
  {
    var a, x :| Leads(l, s, t, a, x);
    var b, y :| Leads(l, t, u, b, y);
    Joined(l, s, t, u, a, x, b, y);
  }

  lemma Joined(l: Layout, s: State, t: State, u: State, a: seq<State>, x: seq<Step>, b: seq<State>, y: seq<Step>)
    requires Leads(l, s, t, a, x) && Leads(l, t, u, b, y)
    ensures Leads(l, s, u, a + b[1..], x + y)
  {
    var run, steps := a + b[1..], x + y;
    forall k | 0 <= k < |steps| ensures Moves(l, run[k], steps[k], run[k + 1]) {
      if k < |x| {
        assert run[k] == a[k] && run[k + 1] == a[k + 1] && steps[k] == x[k];
      } else {
        var m := k - |x|;
        assert run[k] == b[m] && run[k + 1] == b[m + 1] && steps[k] == y[m];
        assert Moves(l, b[m], y[m], b[m + 1]);
      }
    }
    assert run[|steps|] == b[|y|];
  }

  /** Some run of the machine that starts in z, just booted, gets to s. */
  ghost predicate Reached(l: Layout, z: State, s: State) {
    Init(l, z) && Reaches(l, z, s)
  }

  lemma ReachedInv(l: Layout, z: State, s: State)
    requires Reached(l, z, s)
    ensures Inv(l, s)
  {
    var run, steps :| Leads(l, z, s, run, steps);
    PathIsRun(l, run, steps);
    RunInv(l, run, steps, |steps|);
  }

  lemma PathIsRun(l: Layout, run: seq<State>, steps: seq<Step>)
    requires Path(l, run, steps) && Init(l, run[0])
    ensures IsRun(l, run, steps)
  {
    forall k | 0 <= k < |steps| ensures Typed(l, run[k]) && Enabled(l, run[k], steps[k]) && run[k + 1] == Next(l, run[k], steps[k]) {
      assert Moves(l, run[k], steps[k], run[k + 1]);
    }
  }

  lemma ReachedNext(l: Layout, z: State, s: State, st: Step)
    requires Reached(l, z, s) && Typed(l, s) && Enabled(l, s, st)
    ensures Reached(l, z, Next(l, s, st))
  {
    MoveReaches(l, s, st, Next(l, s, st));
    ReachThen(l, z, s, Next(l, s, st));
  }

  /** A lock that nobody holds or waits for. */
  const FREE: BufLock := BufLock(None, multiset{})

  /** All locks are free, but for that of buffer h. */
  ghost predicate FreeBut(s: State, h: int) {
    |s.locks| == |s.cache.bufs| && forall j :: 0 <= j < |s.locks| && j != h ==> s.locks[j] == FREE
  }

  /** The block numbers of the first k buffers, h left out. */
  ghost function Numbers(c: Cache, k: nat, h: int): set<nat>
    requires k <= |c.bufs|
  {
    if k == 0 then {} else Numbers(c, k - 1, h) + if k - 1 == h then {} else {c.bufs[k - 1].blockno}
  }

  lemma {:induction false} InNumbers(c: Cache, k: nat, h: int, b: nat)
    requires k <= |c.bufs|
    ensures b in Numbers(c, k, h) <==> exists i :: 0 <= i < k && i != h && c.bufs[i].blockno == b
  {
    if k > 0 {
      InNumbers(c, k - 1, h, b);
    }
  }

  lemma {:induction false} CountNumbers(c: Cache, k: nat, h: int)
    requires k <= |c.bufs| && Unique(c) && forall i :: 0 <= i < k && i != h ==> c.bufs[i].dev == DEV
    ensures |Numbers(c, k, h)| >= k - 1 && (h < 0 || h >= k ==> |Numbers(c, k, h)| >= k)
  {
    if k > 0 {
      CountNumbers(c, k - 1, h);
      InNumbers(c, k - 1, h, c.bufs[k - 1].blockno);
      if k - 1 != h && c.bufs[k - 1].blockno in Numbers(c, k - 1, h) {
        var i :| 0 <= i < k - 1 && i != h && c.bufs[i].blockno == c.bufs[k - 1].blockno;
        OneBuffer(c, i, k - 1);
      }
    }
  }

  ghost function Elems(q: seq<nat>): set<nat> {
    set x | x in q
  }

  lemma {:induction false} CountElems(q: seq<nat>)
    ensures |Elems(q)| <= |q|
  {
    if q == [] {
      assert Elems(q) == {};
    } else {
      CountElems(q[1..]);
      assert Elems(q) == Elems(q[1..]) + {q[0]};
    }
  }

  /** If every buffer is referenced, the logged blocks and the held one account for all of them. */
  lemma AllReferenced(l: Layout, s: State, h: int)
    requires CacheInv(l, s) && FreeBut(s, h) && forall j :: 0 <= j < |s.cache.bufs| ==> s.cache.bufs[j].refcnt != 0
    ensures |s.cache.bufs| <= |s.lh| + 1
  {
    var n := |s.cache.bufs|;
    forall j | 0 <= j < n && j != h ensures s.cache.bufs[j].dev == DEV && s.cache.bufs[j].blockno in s.lh {
      assert BufOk(l, s, j);
    }
    CountNumbers(s.cache, n, h);
    forall b | b in Numbers(s.cache, n, h) ensures b in s.lh {
      InNumbers(s.cache, n, h, b);
    }
    CountElems(s.lh);
    Smaller(Numbers(s.cache, n, h), Elems(s.lh));
  }

  /** With one buffer to spare, bget finds one, and nobody has it locked. */
  lemma Available(l: Layout, s: State, h: int, b: nat)
    requires CacheInv(l, s) && FreeBut(s, h) && |s.lh| + 1 < |s.cache.bufs| && (0 <= h < |s.cache.bufs| ==> s.cache.bufs[h].blockno != b)
    requires 0 <= h < |s.cache.bufs| ==> s.locks[h].holder.Some?
    ensures Get(s.cache, DEV, b).Some? && s.locks[Get(s.cache, DEV, b).value.1] == FREE
  {
    GetOk(s.cache, DEV, b);
    if Get(s.cache, DEV, b).None? {
      AllReferenced(l, s, h);
    } else {
      var i := Get(s.cache, DEV, b).value.1;
      assert i == h ==> BufOk(l, s, i);
    }
  }

  /** Only cache and locks differ, and of the buffers only buffer i. */
  ghost predicate Touched(s: State, t: State, i: nat, k: BufLock) {
    && |t.cache.bufs| == |s.cache.bufs| && i < |s.locks| && t == s.(cache := t.cache, locks := s.locks[i := k])
    && forall j :: 0 <= j < |s.cache.bufs| && j != i ==> t.cache.bufs[j] == s.cache.bufs[j]
  }

  lemma RequestIs(l: Layout, s: State, p: Pid, b: nat)
    requires Typed(l, s) && Unique(s.cache) && b < l.size && Get(s.cache, DEV, b).Some? && s.locks[Get(s.cache, DEV, b).value.1] == FREE
    ensures Enabled(l, s, GetBuf(p, b))
    ensures var i, t := Get(s.cache, DEV, b).value.1, Next(l, s, GetBuf(p, b));
            Touched(s, t, i, BufLock(None, multiset{p})) && Key(t.cache.bufs[i], DEV, b)
  {
    GetOk(s.cache, DEV, b);
    assert multiset{} + multiset{p} == multiset{p};
  }

  /** bget up to its acquiresleep. */
  lemma Request(l: Layout, z: State, s: State, p: Pid, b: nat, h: int) returns (i: nat, t: State)
    requires Reached(l, z, s) && b < l.size && FreeBut(s, h) && |s.lh| + 1 < |s.cache.bufs|
    requires 0 <= h < |s.cache.bufs| ==> s.cache.bufs[h].blockno != b && s.locks[h].holder.Some?
    ensures Reached(l, z, t) && Touched(s, t, i, BufLock(None, multiset{p})) && i != h && Key(t.cache.bufs[i], DEV, b)
  {
    ReachedInv(l, z, s);
    Available(l, s, h, b);
    RequestIs(l, s, p, b);
    i, t := Get(s.cache, DEV, b).value.1, Next(l, s, GetBuf(p, b));
    ReachedNext(l, z, s, GetBuf(p, b));
  }

  lemma LockIs(l: Layout, s: State, p: Pid, i: nat, b: nat)
    requires Typed(l, s) && i < |s.locks| && s.locks[i] == BufLock(None, multiset{p}) && Key(s.cache.bufs[i], DEV, b)
    ensures Enabled(l, s, LockBuf(p, i))
    ensures var t := Next(l, s, LockBuf(p, i)); Touched(s, t, i, BufLock(Some(p), multiset{})) && Holds(t, p, i, b)
  {
    assert multiset{p} - multiset{p} == multiset{};
  }

  /** The rest of bread. */
  lemma Lock(l: Layout, z: State, s: State, p: Pid, i: nat, b: nat) returns (t: State)
    requires Reached(l, z, s) && i < |s.locks| == |s.cache.bufs| && s.locks[i] == BufLock(None, multiset{p}) && Key(s.cache.bufs[i], DEV, b)
    ensures Reached(l, z, t) && Touched(s, t, i, BufLock(Some(p), multiset{})) && Holds(t, p, i, b)
  {
    ReachedInv(l, z, s);
    LockIs(l, s, p, i, b);
    ReachedNext(l, z, s, LockBuf(p, i));
    t := Next(l, s, LockBuf(p, i));
  }

  /** bread: bget, then the buffer's lock, then its contents. Process p may hold buffer h besides. */
  lemma Acquire(l: Layout, z: State, s: State, p: Pid, b: nat, h: int) returns (i: nat, t: State)
    requires Reached(l, z, s) && b < l.size && FreeBut(s, h) && |s.lh| + 1 < |s.cache.bufs|
    requires 0 <= h < |s.cache.bufs| ==> s.cache.bufs[h].blockno != b && s.locks[h].holder.Some?
    ensures Reached(l, z, t) && Touched(s, t, i, BufLock(Some(p), multiset{})) && i != h && Holds(t, p, i, b)
  {
    var m;
    i, m := Request(l, z, s, p, b, h);
    t := Lock(l, z, m, p, i, b);
  }

  /** brelse. */
  lemma Return(l: Layout, z: State, s: State, p: Pid, i: nat) returns (t: State)
    requires Reached(l, z, s) && i < |s.locks| && s.locks[i] == BufLock(Some(p), multiset{}) && i !in s.dirty
    ensures Reached(l, z, t) && Touched(s, t, i, FREE)
  {
    ReachedInv(l, z, s);
    assert BufOk(l, s, i);
    ReachedNext(l, z, s, ReleaseBuf(p, i));
    t := Next(l, s, ReleaseBuf(p, i));
  }

  /** The blocks of some writes, in order. */
  function BlocksOf(ws: seq<Write>): seq<nat> {
    seq(|ws|, i requires 0 <= i < |ws| => ws[i].block)
  }

  /** Process p, alone, is in operation id and has made the writes done, each to a block of its own. */
  ghost predicate Writing(s: State, p: Pid, id: nat, done: seq<Write>) {
    && s.phase.Idle? && FreeBut(s, -1) && s.dirty == {} && |s.cache.bufs| > MAXOPBLOCKS + 1
    && s.ops == map[p := Op(id, Elems(BlocksOf(done)))] && s.outstanding == 1 && !s.committing
    && s.h.cur == done && s.lh == BlocksOf(done) && |done| <= MAXOPBLOCKS
  }

  lemma ModifyIs(l: Layout, s: State, p: Pid, i: nat, w: Write)
    requires Typed(l, s) && p in s.ops && s.ops[p].id == w.op && Holds(s, p, i, w.block) && Home(l, w.block) && s.dirty == {}
    ensures Enabled(l, s, Modify(p, i, w.data))
    ensures Next(l, s, Modify(p, i, w.data)) == s.(cache := SetData(s.cache, i, w.data), dirty := {i}, h := s.h.(cur := s.h.cur + [w]))
  {
    assert s.dirty + {i} == {i};
  }

  lemma LogWriteIs(l: Layout, s: State, p: Pid, i: nat, b: nat)
    requires Typed(l, s) && p in s.ops && Holds(s, p, i, b) && s.dirty == {i} && b !in s.lh && |s.lh| < LOGBLOCKS && s.outstanding >= 1
    requires |s.ops[p].blocks| < MAXOPBLOCKS
    ensures Enabled(l, s, LogWrite(p, i))
    ensures Next(l, s, LogWrite(p, i)) ==
            s.(lh := s.lh + [b], cache := Pin(s.cache, i), dirty := {}, ops := s.ops[p := s.ops[p].(blocks := s.ops[p].blocks + {b})])
  {
    assert s.dirty - {i} == {};
  }

  lemma MoreBlocks(done: seq<Write>, w: Write)
    ensures BlocksOf(done + [w]) == BlocksOf(done) + [w.block] && Elems(BlocksOf(done + [w])) == Elems(BlocksOf(done)) + {w.block}
  {
    assert BlocksOf(done + [w]) == BlocksOf(done) + [w.block];
  }

  /** A held buffer is changed, and its block logged. */
  lemma Change(l: Layout, z: State, s: State, p: Pid, i: nat, w: Write) returns (t: State)
    requires Reached(l, z, s) && p in s.ops && s.ops[p].id == w.op && Holds(s, p, i, w.block) && Home(l, w.block) && s.dirty == {}
    requires w.block !in s.lh && |s.lh| < LOGBLOCKS && s.outstanding >= 1 && |s.ops[p].blocks| < MAXOPBLOCKS
    ensures Reached(l, z, t) && |t.cache.bufs| == |s.cache.bufs|
    ensures t == s.(cache := t.cache, lh := s.lh + [w.block], h := s.h.(cur := s.h.cur + [w]),
                    ops := s.ops[p := s.ops[p].(blocks := s.ops[p].blocks + {w.block})])
  {
    ReachedInv(l, z, s);
    ModifyIs(l, s, p, i, w);
    ReachedNext(l, z, s, Modify(p, i, w.data));
    var m := Next(l, s, Modify(p, i, w.data));
    ReachedInv(l, z, m);
    LogWriteIs(l, m, p, i, w.block);
    ReachedNext(l, z, m, LogWrite(p, i));
    t := Next(l, m, LogWrite(p, i));
  }

  /** The state of a write between its bread and its brelse. */
  lemma Acquired(s: State, a: State, p: Pid, id: nat, done: seq<Write>, i: nat, b: nat)
    requires Writing(s, p, id, done) && Touched(s, a, i, BufLock(Some(p), multiset{})) && |done| < MAXOPBLOCKS && b !in BlocksOf(done)
    ensures p in a.ops && a.ops[p].id == id && a.dirty == {} && b !in a.lh && |a.lh| < LOGBLOCKS && a.outstanding >= 1
    ensures |a.ops[p].blocks| < MAXOPBLOCKS
  {
    CountElems(BlocksOf(done));
  }

  lemma WroteOne(s: State, a: State, c: State, t: State, p: Pid, id: nat, done: seq<Write>, w: Write, i: nat)
    requires Writing(s, p, id, done) && |done| < MAXOPBLOCKS && Touched(s, a, i, BufLock(Some(p), multiset{})) && Touched(c, t, i, FREE)
    requires |c.cache.bufs| == |a.cache.bufs| && p in a.ops
    requires c == a.(cache := c.cache, lh := a.lh + [w.block], h := a.h.(cur := a.h.cur + [w]),
                     ops := a.ops[p := a.ops[p].(blocks := a.ops[p].blocks + {w.block})])
    ensures Writing(t, p, id, done + [w]) && t.h == s.h.(cur := done + [w])
  {
    MoreBlocks(done, w);
    assert t.locks == s.locks;
  }

  /** One write of the operation: bread, the change, log_write, brelse. */
  lemma WriteOne(l: Layout, z: State, s: State, p: Pid, id: nat, done: seq<Write>, w: Write) returns (t: State)
    requires Reached(l, z, s) && Writing(s, p, id, done) && w.op == id && Home(l, w.block) && w.block !in BlocksOf(done) && |done| < MAXOPBLOCKS
    ensures Reached(l, z, t) && Writing(t, p, id, done + [w]) && t.h == s.h.(cur := done + [w]) && |t.cache.bufs| == |s.cache.bufs|
  {
    var i, a := Acquire(l, z, s, p, w.block, -1);
    Acquired(s, a, p, id, done, i, w.block);
    var c := Change(l, z, a, p, i, w);
    t := Return(l, z, c, p, i);
    WroteOne(s, a, c, t, p, id, done, w, i);
  }

  /** A group that one operation may write: at most MAXOPBLOCKS home blocks, each once. */
  ghost predicate GroupOk(l: Layout, ws: seq<Write>, id: nat) {
    && |ws| <= MAXOPBLOCKS && (forall k :: 0 <= k < |ws| ==> ws[k].op == id && Home(l, ws[k].block))
    && forall k, m :: 0 <= k < m < |ws| ==> ws[k].block != ws[m].block
  }

  lemma NextWrite(l: Layout, ws: seq<Write>, id: nat, k: nat)
    requires GroupOk(l, ws, id) && k < |ws|
    ensures ws[k].op == id && Home(l, ws[k].block) && ws[k].block !in BlocksOf(ws[..k]) && ws[..k] + [ws[k]] == ws[..k + 1]
  {
  }

  lemma {:induction false} WriteAll(l: Layout, z: State, s: State, p: Pid, id: nat, ws: seq<Write>, k: nat) returns (t: State)
    requires Reached(l, z, s) && GroupOk(l, ws, id) && k <= |ws| && Writing(s, p, id, ws[..k])
    ensures Reached(l, z, t) && Writing(t, p, id, ws) && t.h == s.h.(cur := ws) && |t.cache.bufs| == |s.cache.bufs|
    decreases |ws| - k
  {
    if k == |ws| {
      assert ws[..k] == ws;
      t := s;
    } else {
      NextWrite(l, ws, id, k);
      var m := WriteOne(l, z, s, p, id, ws[..k], ws[k]);
      t := WriteAll(l, z, m, p, id, ws, k + 1);
    }
  }

  /** Between operations: nothing is under way. */
  ghost predicate Quiet(s: State) {
    && s.phase.Idle? && FreeBut(s, -1) && s.dirty == {} && |s.cache.bufs| > MAXOPBLOCKS + 1
    && s.ops == map[] && s.outstanding == 0 && !s.committing && s.h.cur == [] && s.lh == []
  }

  /** begin_op. */
  lemma Begin(l: Layout, z: State, s: State, p: Pid) returns (t: State)
    requires Reached(l, z, s) && Quiet(s)
    ensures Reached(l, z, t) && Writing(t, p, s.h.nextId, []) && t.h == s.h.(nextId := s.h.nextId + 1)
    ensures |t.cache.bufs| == |s.cache.bufs|
  {
    ReachedInv(l, z, s);
    ReachedNext(l, z, s, BeginOp(p));
    t := Next(l, s, BeginOp(p));
    assert Elems(BlocksOf([])) == {};
  }

  /** In a commit by process p. */
  ghost predicate InCommit(s: State, p: Pid, lh: seq<nat>, h: History) {
    && s.committing && s.committer == p && FreeBut(s, -1) && s.dirty == {} && |s.cache.bufs| > MAXOPBLOCKS + 1
    && s.ops == map[] && s.outstanding == 0 && s.lh == lh && |lh| <= MAXOPBLOCKS && s.h == h && h.cur == []
  }

  /** The history once operation id has ended with the group ws. */
  function Closed(h: History, id: nat, ws: seq<Write>): History {
    h.(groups := h.groups + [ws], cur := [], ended := h.ended + {id})
  }

  lemma EndIs(l: Layout, s: State, p: Pid, id: nat, ws: seq<Write>)
    requires Typed(l, s) && Writing(s, p, id, ws)
    ensures Enabled(l, s, EndOp(p))
    ensures var t := Next(l, s, EndOp(p));
            && InCommit(t, p, BlocksOf(ws), Closed(s.h, id, ws)) && t.phase == (if ws == [] then Finish else CopyLog(0))
            && |t.cache.bufs| == |s.cache.bufs|
  {
    assert s.ops - {p} == map[];
  }

  /** end_op of the only operation. */
  lemma End(l: Layout, z: State, s: State, p: Pid, id: nat, ws: seq<Write>) returns (t: State)
    requires Reached(l, z, s) && Writing(s, p, id, ws)
    ensures Reached(l, z, t) && InCommit(t, p, BlocksOf(ws), Closed(s.h, id, ws))
    ensures t.phase == (if ws == [] then Finish else CopyLog(0)) && |t.cache.bufs| == |s.cache.bufs|
  {
    ReachedInv(l, z, s);
    EndIs(l, s, p, id, ws);
    ReachedNext(l, z, s, EndOp(p));
    t := Next(l, s, EndOp(p));
  }

  /** Process p holds the buffers of two blocks. */
  ghost predicate HasTwo(s: State, p: Pid, i: nat, b: nat, j: nat, c: nat) {
    && i != j && i < |s.locks| && j < |s.locks| && Holds(s, p, i, b) && Holds(s, p, j, c)
    && s.locks[i] == s.locks[j] == BufLock(Some(p), multiset{})
  }

  /** Only the cache and the locks of buffers i and j differ. */
  ghost predicate TouchedTwo(s: State, t: State, i: nat, j: nat, k: BufLock) {
    && |t.cache.bufs| == |s.cache.bufs| && i < |s.locks| && j < |s.locks| && t == s.(cache := t.cache, locks := s.locks[i := k][j := k])
  }

  lemma HoldTwo(l: Layout, z: State, s: State, p: Pid, b: nat, c: nat) returns (i: nat, j: nat, t: State)
    requires Reached(l, z, s) && b < l.size && c < l.size && b != c && FreeBut(s, -1) && |s.lh| + 1 < |s.cache.bufs|
    ensures Reached(l, z, t) && HasTwo(t, p, i, b, j, c) && TouchedTwo(s, t, i, j, BufLock(Some(p), multiset{}))
  {
    var a;
    i, a := Acquire(l, z, s, p, b, -1);
    j, t := Acquire(l, z, a, p, c, i);
  }

  lemma ReturnTwo(l: Layout, z: State, s: State, p: Pid, i: nat, j: nat) returns (t: State)
    requires Reached(l, z, s) && i != j && i < |s.locks| && j < |s.locks| && s.locks[i] == s.locks[j] == BufLock(Some(p), multiset{}) && s.dirty == {}
    ensures Reached(l, z, t) && TouchedTwo(s, t, i, j, FREE)
  {
    var a := Return(l, z, s, p, i);
    t := Return(l, z, a, p, j);
  }

  lemma CopySlotIs(l: Layout, s: State, i: nat, j: nat)
    requires Typed(l, s) && s.phase.CopyLog? && s.phase.tail < |s.lh|
    requires HasTwo(s, s.committer, i, l.start + s.phase.tail + 1, j, s.lh[s.phase.tail])
    ensures Enabled(l, s, CopySlot(i, j))
    ensures var t := Next(l, s, CopySlot(i, j));
            && t == s.(cache := t.cache, disk := t.disk, phase := if s.phase.tail + 1 == |s.lh| then WriteHead else CopyLog(s.phase.tail + 1))
            && |t.cache.bufs| == |s.cache.bufs|
  {
  }

  lemma CopyHomeIs(l: Layout, s: State, i: nat, j: nat)
    requires Typed(l, s) && s.phase.InstallHome? && s.phase.tail < |s.lh|
    requires HasTwo(s, s.committer, i, l.start + s.phase.tail + 1, j, s.lh[s.phase.tail]) && s.cache.bufs[j].refcnt > 0
    ensures Enabled(l, s, CopyHome(i, j))
    ensures var t := Next(l, s, CopyHome(i, j));
            && t == s.(cache := t.cache, disk := t.disk, phase := if s.phase.tail + 1 == |s.lh| then Erase else InstallHome(s.phase.tail + 1))
            && |t.cache.bufs| == |s.cache.bufs|
  {
  }

  lemma CopyMiddle(l: Layout, z: State, s: State, i: nat, j: nat) returns (t: State)
    requires Reached(l, z, s) && s.phase.CopyLog? && s.phase.tail < |s.lh|
    requires HasTwo(s, s.committer, i, l.start + s.phase.tail + 1, j, s.lh[s.phase.tail])
    ensures Reached(l, z, t) && |t.cache.bufs| == |s.cache.bufs|
    ensures t == s.(cache := t.cache, disk := t.disk, phase := if s.phase.tail + 1 == |s.lh| then WriteHead else CopyLog(s.phase.tail + 1))
  {
    ReachedInv(l, z, s);
    CopySlotIs(l, s, i, j);
    ReachedNext(l, z, s, CopySlot(i, j));
    t := Next(l, s, CopySlot(i, j));
  }

  lemma InstallMiddle(l: Layout, z: State, s: State, i: nat, j: nat) returns (t: State)
    requires Reached(l, z, s) && s.phase.InstallHome? && s.phase.tail < |s.lh|
    requires HasTwo(s, s.committer, i, l.start + s.phase.tail + 1, j, s.lh[s.phase.tail])
    ensures Reached(l, z, t) && |t.cache.bufs| == |s.cache.bufs|
    ensures t == s.(cache := t.cache, disk := t.disk, phase := if s.phase.tail + 1 == |s.lh| then Erase else InstallHome(s.phase.tail + 1))
  {
    ReachedInv(l, z, s);
    assert BufOk(l, s, j);
    CopyHomeIs(l, s, i, j);
    ReachedNext(l, z, s, CopyHome(i, j));
    t := Next(l, s, CopyHome(i, j));
  }

  /** Locks taken and given back are as they were. */
  lemma TwoBack(s: State, a: State, b: State, t: State, i: nat, j: nat, p: Pid, lh: seq<nat>, h: History)
    requires InCommit(s, p, lh, h) && TouchedTwo(s, a, i, j, BufLock(Some(p), multiset{})) && TouchedTwo(b, t, i, j, FREE)
    requires b == a.(cache := b.cache, disk := b.disk, phase := b.phase) && |b.cache.bufs| == |a.cache.bufs|
    ensures InCommit(t, p, lh, h) && t.phase == b.phase && |t.cache.bufs| == |s.cache.bufs|
  {
    assert t.locks == s.locks;
  }

  lemma SlotPlaces(l: Layout, z: State, s: State, t: nat)
    requires Reached(l, z, s) && t < |s.lh|
    ensures l.start + t + 1 < l.size && s.lh[t] < l.size && s.lh[t] != l.start + t + 1
  {
    ReachedInv(l, z, s);
    assert Home(l, s.lh[t]);
  }

  /** One turn of write_log. */
  lemma CopyOne(l: Layout, z: State, s: State, p: Pid, lh: seq<nat>, h: History) returns (t: State)
    requires Reached(l, z, s) && InCommit(s, p, lh, h) && s.phase.CopyLog? && s.phase.tail < |lh|
    ensures Reached(l, z, t) && InCommit(t, p, lh, h) && |t.cache.bufs| == |s.cache.bufs|
    ensures t.phase == if s.phase.tail + 1 == |lh| then WriteHead else CopyLog(s.phase.tail + 1)
  {
    SlotPlaces(l, z, s, s.phase.tail);
    var i, j, a := HoldTwo(l, z, s, p, l.start + s.phase.tail + 1, lh[s.phase.tail]);
    var b := CopyMiddle(l, z, a, i, j);
    t := ReturnTwo(l, z, b, p, i, j);
    TwoBack(s, a, b, t, i, j, p, lh, h);
  }

  /** One turn of install_trans. */
  lemma InstallOne(l: Layout, z: State, s: State, p: Pid, lh: seq<nat>, h: History) returns (t: State)
    requires Reached(l, z, s) && InCommit(s, p, lh, h) && s.phase.InstallHome? && s.phase.tail < |lh|
    ensures Reached(l, z, t) && InCommit(t, p, lh, h) && |t.cache.bufs| == |s.cache.bufs|
    ensures t.phase == if s.phase.tail + 1 == |lh| then Erase else InstallHome(s.phase.tail + 1)
  {
    SlotPlaces(l, z, s, s.phase.tail);
    var i, j, a := HoldTwo(l, z, s, p, l.start + s.phase.tail + 1, lh[s.phase.tail]);
    var b := InstallMiddle(l, z, a, i, j);
    t := ReturnTwo(l, z, b, p, i, j);
    TwoBack(s, a, b, t, i, j, p, lh, h);
  }

  lemma {:induction false} CopyAll(l: Layout, z: State, s: State, p: Pid, lh: seq<nat>, h: History) returns (t: State)
    requires Reached(l, z, s) && InCommit(s, p, lh, h) && s.phase.CopyLog? && s.phase.tail < |lh|
    ensures Reached(l, z, t) && InCommit(t, p, lh, h) && t.phase == WriteHead && |t.cache.bufs| == |s.cache.bufs|
    decreases |lh| - s.phase.tail
  {
    t := CopyOne(l, z, s, p, lh, h);
    if s.phase.tail + 1 < |lh| {
      t := CopyAll(l, z, t, p, lh, h);
    }
  }

  lemma {:induction false} InstallAll(l: Layout, z: State, s: State, p: Pid, lh: seq<nat>, h: History) returns (t: State)
    requires Reached(l, z, s) && InCommit(s, p, lh, h) && s.phase.InstallHome? && s.phase.tail < |lh|
    ensures Reached(l, z, t) && InCommit(t, p, lh, h) && t.phase == Erase && |t.cache.bufs| == |s.cache.bufs|
    decreases |lh| - s.phase.tail
  {
    t := InstallOne(l, z, s, p, lh, h);
    if s.phase.tail + 1 < |lh| {
      t := InstallAll(l, z, t, p, lh, h);
    }
  }

  /** A step on the header block, which p holds in buffer i, changes cache, disk, phase and perhaps the header in memory. */
  ghost predicate HeadWritten(a: State, b: State, lh: seq<nat>, ph: Phase) {
    b == a.(cache := b.cache, disk := b.disk, phase := ph, lh := lh) && |b.cache.bufs| == |a.cache.bufs|
  }

  lemma PutMiddle(l: Layout, z: State, s: State, i: nat) returns (t: State)
    requires Reached(l, z, s) && s.phase.WriteHead? && Holds(s, s.committer, i, l.start)
    ensures Reached(l, z, t) && HeadWritten(s, t, s.lh, InstallHome(0))
  {
    ReachedInv(l, z, s);
    ReachedNext(l, z, s, PutHead(i));
    t := Next(l, s, PutHead(i));
  }

  lemma EraseMiddle(l: Layout, z: State, s: State, i: nat) returns (t: State)
    requires Reached(l, z, s) && s.phase.Erase? && Holds(s, s.committer, i, l.start)
    ensures Reached(l, z, t) && HeadWritten(s, t, [], Finish)
  {
    ReachedInv(l, z, s);
    ReachedNext(l, z, s, EraseHead(i));
    t := Next(l, s, EraseHead(i));
  }

  lemma OneBack(s: State, a: State, b: State, t: State, i: nat, p: Pid, lh: seq<nat>, lh': seq<nat>, h: History, ph: Phase)
    requires InCommit(s, p, lh, h) && Touched(s, a, i, BufLock(Some(p), multiset{})) && HeadWritten(a, b, lh', ph) && Touched(b, t, i, FREE)
    requires |lh'| <= MAXOPBLOCKS
    ensures InCommit(t, p, lh', h) && t.phase == ph && |t.cache.bufs| == |s.cache.bufs|
  {
    assert t.locks == s.locks;
  }

  lemma StartBelow(l: Layout, z: State, s: State)
    requires Reached(l, z, s)
    ensures l.start < l.size
  {
    ReachedInv(l, z, s);
  }

  /** write_head, when the log is full. */
  lemma PutHeader(l: Layout, z: State, s: State, p: Pid, lh: seq<nat>, h: History) returns (t: State)
    requires Reached(l, z, s) && InCommit(s, p, lh, h) && s.phase.WriteHead?
    ensures Reached(l, z, t) && InCommit(t, p, lh, h) && t.phase == InstallHome(0) && |t.cache.bufs| == |s.cache.bufs|
  {
    StartBelow(l, z, s);
    var i, a := Acquire(l, z, s, p, l.start, -1);
    var b := PutMiddle(l, z, a, i);
    t := Return(l, z, b, p, i);
    OneBack(s, a, b, t, i, p, lh, lh, h, InstallHome(0));
  }

  /** write_head, to erase the transaction. */
  lemma EraseHeader(l: Layout, z: State, s: State, p: Pid, lh: seq<nat>, h: History) returns (t: State)
    requires Reached(l, z, s) && InCommit(s, p, lh, h) && s.phase.Erase?
    ensures Reached(l, z, t) && InCommit(t, p, [], h) && t.phase == Finish && |t.cache.bufs| == |s.cache.bufs|
  {
    StartBelow(l, z, s);
    var i, a := Acquire(l, z, s, p, l.start, -1);
    var b := EraseMiddle(l, z, a, i);
    t := Return(l, z, b, p, i);
    OneBack(s, a, b, t, i, p, lh, [], h, Finish);
  }

  /** The end of end_op. */
  lemma EndCommitting(l: Layout, z: State, s: State, p: Pid, h: History) returns (t: State)
    requires Reached(l, z, s) && InCommit(s, p, [], h) && s.phase.Finish?
    ensures Reached(l, z, t) && Quiet(t) && t.h == h.(returned := |h.groups|) && |t.cache.bufs| == |s.cache.bufs|
  {
    ReachedInv(l, z, s);
    ReachedNext(l, z, s, EndCommit);
    t := Next(l, s, EndCommit);
  }

  /** commit, from its first write to its last. */
  lemma CommitAll(l: Layout, z: State, s: State, p: Pid, lh: seq<nat>, h: History) returns (t: State)
    requires Reached(l, z, s) && InCommit(s, p, lh, h) && lh != [] && s.phase == CopyLog(0)
    ensures Reached(l, z, t) && InCommit(t, p, [], h) && t.phase == Finish && |t.cache.bufs| == |s.cache.bufs|
  {
    t := CopyAll(l, z, s, p, lh, h);
    t := PutHeader(l, z, t, p, lh, h);
    t := InstallAll(l, z, t, p, lh, h);
    t := EraseHeader(l, z, t, p, lh, h);
  }

  /** The history after one more group. */
  function Committed(h: History, ws: seq<Write>): History {
    h.(groups := h.groups + [ws], cur := [], ended := h.ended + {h.nextId}, returned := |h.groups| + 1, nextId := h.nextId + 1)
  }

  /** One operation that writes a group, and its commit. */
  lemma CarryOne(l: Layout, z: State, s: State, ws: seq<Write>) returns (t: State)
    requires Reached(l, z, s) && Quiet(s) && GroupOk(l, ws, s.h.nextId)
    ensures Reached(l, z, t) && Quiet(t) && t.h == Committed(s.h, ws) && |t.cache.bufs| == |s.cache.bufs|
  {
    var p, id := 0, s.h.nextId;
    t := Begin(l, z, s, p);
    assert ws[..0] == [];
    t := WriteAll(l, z, t, p, id, ws, 0);
    var h := Closed(t.h, id, ws);
    t := End(l, z, t, p, id, ws);
    if ws == [] {
      assert BlocksOf(ws) == [];
    } else {
      t := CommitAll(l, z, t, p, BlocksOf(ws), h);
    }
    t := EndCommitting(l, z, t, p, h);
  }

  /** A machine that has just booted from disk d. */
  function Booted(l: Layout, d: Disk, nbuf: nat): State
    requires DiskOk(l, d)
  {
    State(d, Blank(nbuf), seq(nbuf, _ => BufLock(None, multiset{})), {}, [], 0, false, map[], Boot, 0, History(Recovered(l, d), [], [], {}, 0, 0))
  }

  lemma ReadMiddle(l: Layout, z: State, s: State, i: nat) returns (t: State)
    requires Reached(l, z, s) && s.phase.Boot? && Holds(s, s.committer, i, l.start) && s.lh == []
    requires |s.disk| == l.size && l.start < l.size && GetWord(s.disk[l.start], 0) == 0
    ensures Reached(l, z, t) && t == s.(phase := ReplayErase)
  {
    ReachedInv(l, z, s);
    SlotShows(l, s, i, l.start);
    ReachedNext(l, z, s, ReadHead(i));
    t := Next(l, s, ReadHead(i));
  }

  lemma ReplayMiddle(l: Layout, z: State, s: State, i: nat) returns (t: State)
    requires Reached(l, z, s) && s.phase.ReplayErase? && Holds(s, s.committer, i, l.start)
    ensures Reached(l, z, t) && t == s.(cache := t.cache, disk := t.disk, lh := [], phase := Idle, h := s.h.(returned := |s.h.groups|))
    ensures |t.cache.bufs| == |s.cache.bufs|
  {
    ReachedInv(l, z, s);
    ReachedNext(l, z, s, ReplayEraseHead(i));
    t := Next(l, s, ReplayEraseHead(i));
  }

  /** initlog, when the log on disk is empty. */
  lemma BootUp(l: Layout, d: Disk, nbuf: nat) returns (t: State)
    requires DiskOk(l, d) && GetWord(d[l.start], 0) == 0 && nbuf > MAXOPBLOCKS + 1
    ensures var z := Booted(l, d, nbuf); Reached(l, z, t) && Quiet(t) && t.h == z.h
  {
    var z := Booted(l, d, nbuf);
    ReachNone(l, z);
    var i, a := Acquire(l, z, z, 0, l.start, -1);
    var b := ReadMiddle(l, z, a, i);
    var c := ReplayMiddle(l, z, b, i);
    t := Return(l, z, c, 0, i);
    assert t.locks == z.locks;
  }

  lemma {:induction false} CarryAll(l: Layout, z: State, s: State, groups: seq<seq<Write>>, k: nat) returns (t: State)
    requires Reached(l, z, s) && Quiet(s) && k <= |groups| && s.h.groups == groups[..k] && s.h.nextId == k
    requires forall j :: 0 <= j < |groups| ==> GroupOk(l, groups[j], j)
    ensures Reached(l, z, t) && t.h.groups == groups && t.h.base == s.h.base
    decreases |groups| - k
  {
    if k == |groups| {
      assert groups[..k] == groups;
      t := s;
    } else {
      t := CarryOne(l, z, s, groups[k]);
      assert groups[..k] + [groups[k]] == groups[..k + 1];
      t := CarryAll(l, z, t, groups, k + 1);
    }
  }

  /** Any groups within the limits of an operation are those of some run, from any disk whose log is empty and with any cache that holds
      more than MAXOPBLOCKS + 1 buffers. */
  lemma RunExists(l: Layout, d: Disk, nbuf: nat, groups: seq<seq<Write>>) returns (run: seq<State>, steps: seq<Step>)
    requires DiskOk(l, d) && GetWord(d[l.start], 0) == 0 && nbuf > MAXOPBLOCKS + 1
    requires forall j :: 0 <= j < |groups| ==> GroupOk(l, groups[j], j)
    ensures IsRun(l, run, steps) && |run[0].cache.bufs| == nbuf && run[0].disk == d
    ensures run[|steps|].h.groups == groups && run[|steps|].h.base == Recovered(l, d)
  {
    var z := Booted(l, d, nbuf);
    var s := BootUp(l, d, nbuf);
    assert groups[..0] == [];
    var t := CarryAll(l, z, s, groups, 0);
    run, steps :| Leads(l, z, t, run, steps);
    PathIsRun(l, run, steps);
  }
}
