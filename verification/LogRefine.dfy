/** The class Log and the step machine tell the same story: a call of the class takes the machine's step, and the block writes of a
    commit are the same disks, one by one. */
module LogRefine {
  import opened Blocks
  import opened BufCache
  import opened LogFormat
  import opened LogMachine
  import opened LogSafety
  import L = Log

  /** The fields of the class are those of the machine's state. */
  ghost predicate Tells(log: L.Log, s: State)
    reads log, log.bc
  {
    && log.n <= |log.block| && s.lh == log.block[..log.n] && s.cache == log.bc.C() && s.disk == log.bc.disk
    && s.outstanding == log.outstanding && s.committing == log.committing
  }

  /** begin_op goes ahead exactly when the machine's step is enabled, and takes it. */
  method Begin(log: L.Log, ghost s: State, ghost p: Pid) returns (admitted: bool)
    requires log.HeaderValid() && Tells(log, s) && Typed(log.l, s) && p !in s.ops && !Booting(s.phase)
    modifies log
    ensures admitted <==> Enabled(log.l, s, BeginOp(p))
    ensures log.HeaderValid() && Tells(log, if admitted then Next(log.l, s, BeginOp(p)) else s)
  {
    admitted := log.BeginOp();
  }

  /** log_write of a locked, modified buffer takes the machine's step, unless the machine has it panic. */
  method Write(log: L.Log, i: nat, ghost s: State, ghost p: Pid) returns (ok: bool)
    requires log.HeaderValid() && log.bc.Valid() && Tells(log, s) && Typed(log.l, s) && i in s.dirty && p in s.ops
    requires i < |s.locks| && Holds(s, p, i, s.cache.bufs[i].blockno) && Home(log.l, s.cache.bufs[i].blockno)
    requires s.cache.bufs[i].blockno in s.ops[p].blocks || |s.ops[p].blocks| < MAXOPBLOCKS
    modifies log, log.bc
    ensures ok <==> Enabled(log.l, s, LogWrite(p, i)) && !LogWritePanics(s)
    ensures log.HeaderValid() && log.bc.Valid() && Tells(log, if ok then Next(log.l, s, LogWrite(p, i)) else s)
  {
    ok := log.LogWrite(i);
  }

  /** end_op of an operation that is not the last takes the machine's step. */
  method End(log: L.Log, ghost s: State, ghost p: Pid, ghost img: Disk)
    requires log.HeaderValid() && Tells(log, s) && Typed(log.l, s) && !s.committing && s.outstanding != 1 && Enabled(log.l, s, EndOp(p))
    modifies log, log.bc
    ensures log.HeaderValid() && Tells(log, Next(log.l, s, EndOp(p)))
  {
    log.EndOp(img);
  }

  // ---------------------------------------------------------------- the last end_op, and its commit

  predicate Committing(ph: Phase) {
    ph.CopyLog? || ph.WriteHead? || ph.InstallHome? || ph.Erase?
  }

  /** How many of the commit's block writes are done. */
  function Progress(ph: Phase, n: nat): nat {
    match ph
    case CopyLog(t) => t
    case WriteHead => n
    case InstallHome(t) => n + 1 + t
    case Erase => 2 * n + 1
    case _ => 2 * n + 2
  }

  /** The disk is the one that the class's commit, started on disk d with header lh, has after as many writes. */
  ghost predicate CommitAt(l: Layout, s: State, d: Disk, lh: seq<nat>) {
    && LayoutOk(l) && Committing(s.phase) && s.lh == lh && |d| == l.size && |Latest(s)| == l.size && LogOk(l, lh)
    && Progress(s.phase, |lh|) <= 2 * |lh| + 1 && s.disk == CommitDisk(l, d, lh, Latest(s), Progress(s.phase, |lh|))
  }

  ghost predicate InCommit(l: Layout, s: State, d: Disk, lh: seq<nat>) {
    Inv(l, s) && CommitAt(l, s, d, lh)
  }

  /** The last end_op of a group that logged something starts the commit on the disk as it is. */
  lemma CommitStarts(l: Layout, s: State, p: Pid)
    requires Inv(l, s) && Enabled(l, s, EndOp(p)) && s.outstanding == 1 && s.lh != []
    ensures InCommit(l, Next(l, s, EndOp(p)), s.disk, s.lh)
  {
    EndOpKeeps(l, s, p);
  }

  predicate IsCommitWrite(st: Step) {
    st.CopySlot? || st.PutHead? || st.CopyHome? || st.EraseHead?
  }

  /** The machine's state r has the next disk of the class's commit. */
  ghost predicate NextDisk(l: Layout, s: State, r: State, d: Disk, lh: seq<nat>)
    requires CommitAt(l, s, d, lh)
  {
    var k := Progress(s.phase, |lh|) + 1;
    Progress(r.phase, |lh|) == k && r.h == s.h && r.disk == CommitDisk(l, d, lh, Latest(s), k)
  }

  lemma CommitDiskStep(l: Layout, s: State, st: Step, d: Disk, lh: seq<nat>)
    requires InCommit(l, s, d, lh) && Enabled(l, s, st) && IsCommitWrite(st)
    ensures NextDisk(l, s, Next(l, s, st), d, lh)
  {
    match st
    case CopySlot(i, j) => CopySlotDisk(l, s, i, j, d, lh);
    case PutHead(i) => PutHeadDisk(l, s, i, d, lh);
    case CopyHome(i, j) => CopyHomeDisk(l, s, i, j, d, lh);
    case EraseHead(i) => EraseHeadDisk(l, s, i, d, lh);
  }

  /** Each write of the machine's commit leaves the disk that the class's commit has after the same write. */
  lemma CommitWriteStep(l: Layout, s: State, st: Step, d: Disk, lh: seq<nat>)
    requires InCommit(l, s, d, lh) && Enabled(l, s, st) && IsCommitWrite(st)
    ensures var k := Progress(s.phase, |lh|);
            k < |CommitWrites(l, d, lh, Latest(s))| && Next(l, s, st).disk == CommitWrites(l, d, lh, Latest(s))[k]
  {
    CommitDiskStep(l, s, st, d, lh);
    CommitWritesAt(l, d, lh, Latest(s), Progress(s.phase, |lh|) + 1);
  }

  lemma CopySlotDisk(l: Layout, s: State, i: nat, j: nat, d: Disk, lh: seq<nat>)
    requires Typed(l, s) && ContentInv(l, s) && CommitAt(l, s, d, lh) && Enabled(l, s, CopySlot(i, j))
    ensures NextDisk(l, s, Next(l, s, CopySlot(i, j)), d, lh)
  {
    assert Shows(l, s, s.cache.bufs[j]);
  }

  lemma PutHeadDisk(l: Layout, s: State, i: nat, d: Disk, lh: seq<nat>)
    requires Typed(l, s) && ContentInv(l, s) && CommitAt(l, s, d, lh) && Enabled(l, s, PutHead(i))
    ensures NextDisk(l, s, Next(l, s, PutHead(i)), d, lh)
  {
    SlotShows(l, s, i, l.start);
  }

  lemma CopyHomeDisk(l: Layout, s: State, i: nat, j: nat, d: Disk, lh: seq<nat>)
    requires Typed(l, s) && ContentInv(l, s) && CommitAt(l, s, d, lh) && Enabled(l, s, CopyHome(i, j))
    ensures NextDisk(l, s, Next(l, s, CopyHome(i, j)), d, lh)
  {
    CopyHomeNext(l, s, i, j);
    InstallProgress(l, s, Next(l, s, CopyHome(i, j)), d, lh);
  }

  lemma InstallProgress(l: Layout, s: State, r: State, d: Disk, lh: seq<nat>)
    requires CommitAt(l, s, d, lh) && s.phase.InstallHome? && s.phase.tail < |lh| && l.start + s.phase.tail + 1 < |s.disk|
    requires lh[s.phase.tail] < |s.disk| && r.h == s.h
    requires r.disk == s.disk[lh[s.phase.tail] := s.disk[l.start + s.phase.tail + 1]]
    requires r.phase == if s.phase.tail + 1 == |lh| then Erase else InstallHome(s.phase.tail + 1)
    ensures NextDisk(l, s, r, d, lh)
  {
    InstallDisk(l, d, lh, Latest(s), s.phase.tail);
  }

  /** Each install takes one slot home. */
  lemma InstallDisk(l: Layout, d: Disk, lh: seq<nat>, img: Disk, t: nat)
    requires LayoutOk(l) && |d| == |img| == l.size && LogOk(l, lh) && t < |lh|
    ensures var e := CommitDisk(l, d, lh, img, |lh| + 1 + t);
            |e| == l.size && CommitDisk(l, d, lh, img, |lh| + 1 + t + 1) == e[lh[t] := e[l.start + t + 1]]
  {
    InstallOne(l, Headed(l, d, lh, img), lh, t);
  }

  lemma CopyHomeNext(l: Layout, s: State, i: nat, j: nat)
    requires Typed(l, s) && ContentInv(l, s) && Enabled(l, s, CopyHome(i, j))
    ensures var r, t := Next(l, s, CopyHome(i, j)), s.phase.tail;
            && t < |s.lh| && l.start + t + 1 < |s.disk| && r.h == s.h && r.disk == s.disk[s.lh[t] := s.disk[l.start + t + 1]]
            && r.phase == if t + 1 == |s.lh| then Erase else InstallHome(t + 1)
  {
    SlotShows(l, s, i, l.start + s.phase.tail + 1);
  }

  lemma InstallOne(l: Layout, d: Disk, lh: seq<nat>, t: nat)
    requires LayoutOk(l) && |d| == l.size && LogOk(l, lh) && t < |lh|
    ensures Install(l, d, lh, t + 1) == Install(l, d, lh, t)[lh[t] := Install(l, d, lh, t)[l.start + t + 1]]
  {
  }

  lemma EraseHeadDisk(l: Layout, s: State, i: nat, d: Disk, lh: seq<nat>)
    requires Typed(l, s) && ContentInv(l, s) && CommitAt(l, s, d, lh) && Enabled(l, s, EraseHead(i))
    ensures NextDisk(l, s, Next(l, s, EraseHead(i)), d, lh)
  {
    SlotShows(l, s, i, l.start);
  }

  /** Any other step while a commit runs leaves the disk and the progress of the commit alone. */
  lemma OtherStep(l: Layout, s: State, st: Step, d: Disk, lh: seq<nat>)
    requires InCommit(l, s, d, lh) && Enabled(l, s, st) && !IsCommitWrite(st) && !st.Crash?
    ensures InCommit(l, Next(l, s, st), d, lh) && Latest(Next(l, s, st)) == Latest(s) && Next(l, s, st).disk == s.disk
  {
    StepKeeps(l, s, st);
  }
}
