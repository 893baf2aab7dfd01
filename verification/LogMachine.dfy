/** The logging layer as an interleaved step system: any number of processes run file-system
    operations against the buffer cache, the last end_op of a group commits, and the machine may
    lose its memory between any two block writes, also while it is recovering. */
module LogMachine {
  import opened Blocks
  import opened BufCache
  import opened LogFormat

  type Pid = nat

  /** One modification of a home block, by the operation that made it. */
  datatype Write = Write(op: nat, block: nat, data: Block)

  /** An operation between begin_op and end_op, and the blocks it has passed to log_write. */
  datatype Op = Op(id: nat, blocks: set<nat>)

  /** A buffer's sleep lock: who holds it, and who counts as a reference while waiting for it. */
  datatype BufLock = BufLock(holder: Option<Pid>, waiters: multiset<Pid>)

  /** Where the committing process, or the booting one, stands. */
  datatype Phase =
    | Idle
    | CopyLog(tail: nat) | WriteHead | InstallHome(tail: nat) | Erase | Finish
    | Boot | Replay(tail: nat) | ReplayErase

  /** What happened so far: the disk before the first operation, the commit groups in order,
      the writes since the last group closed, the operations that reached end_op, and how many
      groups' commits have returned. */
  datatype History = History(base: Disk, groups: seq<seq<Write>>, cur: seq<Write>,
                             ended: set<nat>, returned: nat, nextId: nat)

  datatype State = State(disk: Disk, cache: Cache, locks: seq<BufLock>, dirty: set<nat>,
                         lh: seq<nat>, outstanding: int, committing: bool,
                         ops: map<Pid, Op>, phase: Phase, committer: Pid, h: History)

  datatype Step =
    | BeginOp(p: Pid)
    | GetBuf(p: Pid, blockno: nat)
    | LockBuf(p: Pid, i: nat)
    | Modify(p: Pid, i: nat, data: Block)
    | LogWrite(p: Pid, i: nat)
    | ReleaseBuf(p: Pid, i: nat)
    | EndOp(p: Pid)
    | CopySlot(i: nat, j: nat)
    | PutHead(i: nat)
    | CopyHome(i: nat, j: nat)
    | EraseHead(i: nat)
    | EndCommit
    | Crash
    | ReadHead(i: nat)
    | ReplayHome(i: nat, j: nat)
    | ReplayEraseHead(i: nat)

  predicate Booting(ph: Phase) {
    ph.Boot? || ph.Replay? || ph.ReplayErase?
  }

  /** Array sizes and the LRU list, as the C declarations fix them. */
  ghost predicate Typed(l: Layout, s: State) {
    && LayoutOk(l) && |s.disk| == l.size
    && |s.locks| == |s.cache.bufs| && ListOk(s.cache)
    && (forall i :: 0 <= i < |s.cache.bufs| && s.cache.bufs[i].dev != 0 ==> s.cache.bufs[i].blockno < l.size)
    && |s.lh| <= LOGBLOCKS && (forall t :: 0 <= t < |s.lh| ==> s.lh[t] < l.size)
  }

  predicate Holds(s: State, p: Pid, i: nat, blockno: nat) {
    && i < |s.cache.bufs| == |s.locks|
    && s.locks[i].holder == Some(p)
    && s.cache.bufs[i].valid && Key(s.cache.bufs[i], DEV, blockno)
  }

  /** The first test of log_write; it comes before the search for an entry to absorb into. */
  predicate LogWritePanics(s: State) {
    |s.lh| >= LOGBLOCKS || s.outstanding < 1
  }

  /** When a process may take a step. Waiting in sleep() is not being enabled. */
  ghost predicate Enabled(l: Layout, s: State, st: Step)
    requires Typed(l, s)
  {
    match st
    case BeginOp(p) =>
      && p !in s.ops && !Booting(s.phase) && !s.committing
      && |s.lh| + (s.outstanding + 1) * MAXOPBLOCKS <= LOGBLOCKS
    case GetBuf(p, blockno) =>
      blockno < l.size && Get(s.cache, DEV, blockno).Some?
    case LockBuf(p, i) =>
      i < |s.locks| && p in s.locks[i].waiters && s.locks[i].holder.None? && s.cache.bufs[i].dev != 0
    case Modify(p, i, data) =>
      p in s.ops && i < |s.locks| && Holds(s, p, i, s.cache.bufs[i].blockno) && Home(l, s.cache.bufs[i].blockno)
    case LogWrite(p, i) =>
      && i in s.dirty && p in s.ops && i < |s.locks| && Holds(s, p, i, s.cache.bufs[i].blockno)
      && !LogWritePanics(s)
      && (s.cache.bufs[i].blockno in s.ops[p].blocks || |s.ops[p].blocks| < MAXOPBLOCKS)
    case ReleaseBuf(p, i) =>
      && i < |s.locks| && s.locks[i].holder == Some(p) && i !in s.dirty
      && s.cache.bufs[i].refcnt > 0
    case EndOp(p) =>
      p in s.ops && forall i :: i in s.dirty && i < |s.locks| ==> s.locks[i].holder != Some(p)
    case CopySlot(i, j) =>
      && s.phase.CopyLog? && s.phase.tail < |s.lh|
      && Holds(s, s.committer, i, l.start + s.phase.tail + 1) && Holds(s, s.committer, j, s.lh[s.phase.tail])
    case PutHead(i) =>
      s.phase.WriteHead? && Holds(s, s.committer, i, l.start)
    case CopyHome(i, j) =>
      && s.phase.InstallHome? && s.phase.tail < |s.lh|
      && Holds(s, s.committer, i, l.start + s.phase.tail + 1) && Holds(s, s.committer, j, s.lh[s.phase.tail])
      && s.cache.bufs[j].refcnt > 0
    case EraseHead(i) =>
      s.phase.Erase? && Holds(s, s.committer, i, l.start)
    case EndCommit => s.phase.Finish?
    case Crash => true
    case ReadHead(i) =>
      s.phase.Boot? && Holds(s, s.committer, i, l.start) && GetWord(s.cache.bufs[i].data, 0) <= LOGBLOCKS
    case ReplayHome(i, j) =>
      && s.phase.Replay? && s.phase.tail < |s.lh|
      && Holds(s, s.committer, i, l.start + s.phase.tail + 1) && Holds(s, s.committer, j, s.lh[s.phase.tail])
    case ReplayEraseHead(i) =>
      s.phase.ReplayErase? && Holds(s, s.committer, i, l.start)
  }

  function SetHolder(s: State, i: nat, h: Option<Pid>): seq<BufLock>
    requires i < |s.locks|
  {
    s.locks[i := s.locks[i].(holder := h)]
  }

  /** Copy src into the locked buffer i and write that buffer to disk (memmove; bwrite). */
  function WriteThrough(s: State, i: nat, src: Block): State
    requires i < |s.cache.bufs| && s.cache.bufs[i].blockno < |s.disk|
  {
    s.(cache := SetData(s.cache, i, src), disk := s.disk[s.cache.bufs[i].blockno := src])
  }

  /** How many of the current groups survive a crash now. */
  function Durable(s: State): nat {
    if (s.phase.CopyLog? || s.phase.WriteHead?) && |s.h.groups| > 0 then |s.h.groups| - 1 else |s.h.groups|
  }

  ghost function Next(l: Layout, s: State, st: Step): State
    requires Typed(l, s) && Enabled(l, s, st)
  {
    match st
    case BeginOp(p) =>
      s.(outstanding := s.outstanding + 1, ops := s.ops[p := Op(s.h.nextId, {})],
         h := s.h.(nextId := s.h.nextId + 1))
    case GetBuf(p, blockno) =>
      var (c, i) := Get(s.cache, DEV, blockno).value;
      s.(cache := c, locks := s.locks[i := s.locks[i].(waiters := s.locks[i].waiters + multiset{p})])
    case LockBuf(p, i) =>
      s.(cache := Fill(s.cache, i, s.disk),
         locks := s.locks[i := BufLock(Some(p), s.locks[i].waiters - multiset{p})])
    case Modify(p, i, data) =>
      s.(cache := SetData(s.cache, i, data), dirty := s.dirty + {i},
         h := s.h.(cur := s.h.cur + [Write(s.ops[p].id, s.cache.bufs[i].blockno, data)]))
    case LogWrite(p, i) =>
      var b := s.cache.bufs[i].blockno;
      s.(lh := Absorb(s.lh, b), cache := if b in s.lh then s.cache else Pin(s.cache, i),
         dirty := s.dirty - {i}, ops := s.ops[p := s.ops[p].(blocks := s.ops[p].blocks + {b})])
    case ReleaseBuf(p, i) =>
      s.(cache := Release(s.cache, i), locks := SetHolder(s, i, None))
    case EndOp(p) =>
      var r := s.(outstanding := s.outstanding - 1, ops := s.ops - {p},
                  h := s.h.(ended := s.h.ended + {s.ops[p].id}));
      if r.outstanding == 0 then
        r.(committing := true, committer := p, phase := if |s.lh| > 0 then CopyLog(0) else Finish,
           h := r.h.(groups := r.h.groups + [r.h.cur], cur := []))
      else r
    case CopySlot(i, j) =>
      WriteThrough(s, i, s.cache.bufs[j].data)
      .(phase := if s.phase.tail + 1 == |s.lh| then WriteHead else CopyLog(s.phase.tail + 1))
    case PutHead(i) =>
      WriteThrough(s, i, PutHeader(s.cache.bufs[i].data, s.lh)).(phase := InstallHome(0))
    case CopyHome(i, j) =>
      var r := WriteThrough(s, j, s.cache.bufs[i].data);
      r.(cache := Unpin(r.cache, j),
         phase := if s.phase.tail + 1 == |s.lh| then Erase else InstallHome(s.phase.tail + 1))
    case EraseHead(i) =>
      WriteThrough(s, i, PutHeader(s.cache.bufs[i].data, [])).(lh := [], phase := Finish)
    case EndCommit =>
      s.(committing := false, phase := Idle, h := s.h.(returned := |s.h.groups|))
    case Crash =>
      Rebooted(s)
    case ReadHead(i) =>
      var lh := HeaderOf(s.cache.bufs[i].data);
      s.(lh := lh, phase := if lh == [] then ReplayErase else Replay(0))
    case ReplayHome(i, j) =>
      WriteThrough(s, j, s.cache.bufs[i].data)
      .(phase := if s.phase.tail + 1 == |s.lh| then ReplayErase else Replay(s.phase.tail + 1))
    case ReplayEraseHead(i) =>
      WriteThrough(s, i, PutHeader(s.cache.bufs[i].data, [])).(lh := [], phase := Idle,
        h := s.h.(returned := |s.h.groups|))
  }

  /** Power loss: the disk stays, memory is what binit and initlog's caller find. */
  function Rebooted(s: State): State {
    State(s.disk, Blank(|s.cache.bufs|), seq(|s.cache.bufs|, _ => BufLock(None, multiset{})), {},
          [], 0, false, map[], Boot, 0,
          s.h.(groups := s.h.groups[..Durable(s)], cur := []))
  }

  /** A freshly booted machine on a disk with a readable log. */
  ghost predicate Init(l: Layout, s: State) {
    && DiskOk(l, s.disk)
    && s.cache == Blank(|s.cache.bufs|) && s.locks == seq(|s.cache.bufs|, _ => BufLock(None, multiset{}))
    && s.dirty == {} && s.lh == [] && s.outstanding == 0 && !s.committing && s.ops == map[]
    && s.phase == Boot && s.committer == 0
    && s.h == History(Recovered(l, s.disk), [], [], {}, 0, 0)
  }

  // ---------------------------------------------------------------- meaning of a history

  /** A disk after some writes, one block at a time. */
  function Apply(d: Disk, ws: seq<Write>): (e: Disk)
    ensures |e| == |d|
  {
    if ws == [] then d
    else
      var w := ws[|ws| - 1];
      var e := Apply(d, ws[..|ws| - 1]);
      if w.block < |e| then e[w.block := w.data] else e
  }

  /** A disk after whole commit groups. */
  function Image(d: Disk, groups: seq<seq<Write>>): (e: Disk)
    ensures |e| == |d|
  {
    if groups == [] then d
    else Apply(Image(d, groups[..|groups| - 1]), groups[|groups| - 1])
  }

  /** The block store that every process should see. */
  function Latest(s: State): Disk {
    Apply(Image(s.h.base, s.h.groups), s.h.cur)
  }

  function DurableImage(s: State): Disk {
    Image(s.h.base, s.h.groups[..Durable(s)])
  }
}
