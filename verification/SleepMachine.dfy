/** Sleeping and waking in kernel/proc.c and kernel/sleeplock.c, as a system of interleaved steps. A step is what a
    process does between two points where another could observe it: one lock operation, one slot of a table scan. */
module SleepMachine {
  /** What a process sleeps on: a process, in kwait, or a sleep lock. */
  datatype Chan = NoChan | ProcChan(p: nat) | LockChan(l: nat)

  datatype ProcState = UNUSED | USED | RUNNABLE | RUNNING | SLEEPING | ZOMBIE

  /** Where a process is. The comments say which spin locks it holds there. */
  datatype Pc =
    | Off                                 // no process in this slot
    | Idle
    | Testing(l: nat)                     // acquiresleep, before the test of locked: lk
    | Sleep1(ch: Chan)                    // sleep, before it takes its own lock: the condition lock
    | Sleep2(ch: Chan)                    // before it releases the condition lock: that and its own
    | Sleep3(ch: Chan)                    // before it is marked asleep: its own
    | Asleep(ch: Chan)                    // in sched: none
    | Woken(ch: Chan)                     // back from sched: its own
    | Reacquiring(ch: Chan)               // before it takes the condition lock: none
    | Clearing(l: nat)                    // releasesleep, before it gives the lock up: lk
    | Waking(l: nat, k: nat)              // releasesleep, in wakeup at slot k: lk
    | Reparenting(j: nat)                 // kexit, in reparent at slot j: wait_lock
    | WakingInit(j: nat, k: nat)          // reparent, in wakeup(initproc) at slot k: wait_lock
    | WakingParent(k: nat)                // kexit, waking the parent at slot k: wait_lock
    | Exiting1                            // before it is a zombie: wait_lock and its own
    | Exiting2                            // before it releases wait_lock: wait_lock and its own
    | Exiting3                            // before sched: its own
    | Dead                                // switched out for good: none
    | Scanning(j: nat, kids: bool)        // kwait, at slot j: wait_lock
    | Forking1(c: nat)                    // kfork, before it records the parent: none
    | Forking2(c: nat)                    // kfork, before the child is runnable: none

  /** Locks name their holder, -1 when free; a process's own lock is held across steps only by itself. */
  datatype Sys = Sys(
    pc: seq<Pc>, st: seq<ProcState>, chan: seq<Chan>, parent: seq<int>, plock: seq<bool>,
    waitlock: int, lk: seq<int>, locked: seq<bool>, owner: seq<int>, holds: seq<set<nat>>)

  /** initproc. */
  const INIT: nat := 0

  predicate HoldsWait(pc: Pc) {
    match pc
    case Sleep1(ch) => ch.ProcChan?
    case Sleep2(ch) => ch.ProcChan?
    case Reparenting(_) => true
    case WakingInit(_, _) => true
    case WakingParent(_) => true
    case Exiting1 => true
    case Exiting2 => true
    case Scanning(_, _) => true
    case _ => false
  }

  predicate HoldsLk(pc: Pc, l: nat) {
    match pc
    case Testing(m) => m == l
    case Sleep1(ch) => ch == LockChan(l)
    case Sleep2(ch) => ch == LockChan(l)
    case Clearing(m) => m == l
    case Waking(m, _) => m == l
    case _ => false
  }

  predicate HoldsOwn(pc: Pc) {
    pc.Sleep2? || pc.Sleep3? || pc.Woken? || pc.Exiting1? || pc.Exiting2? || pc.Exiting3?
  }

  /** May an interrupt take the processor away here? */
  predicate Preemptible(pc: Pc) {
    pc.Idle? || pc.Reacquiring? || pc.Forking1? || pc.Forking2?
  }

  /** WaitScan has its copyout of the exit status fail when bad; WaitEnd finds the process killed when killed. */
  datatype Step =
    | AcquireSpin(p: nat, l: nat) | Test(p: nat)
    | SleepLock(p: nat) | SleepUnlock(p: nat) | SleepSwitch(p: nat) | Resume(p: nat) | Tidy(p: nat) | Reacquire(p: nat)
    | ReleaseSpin(p: nat, l: nat) | Clear(p: nat) | Wake(p: nat) | ReleaseDone(p: nat)
    | ExitSpin(p: nat) | Reparent(p: nat) | WakeInit(p: nat) | WakeParent(p: nat)
    | ExitLock(p: nat) | ExitZombie(p: nat) | ExitUnlock(p: nat) | ExitSwitch(p: nat)
    | WaitSpin(p: nat) | WaitScan(p: nat, bad: bool) | WaitEnd(p: nat, killed: bool)
    | ForkAlloc(p: nat, c: nat) | ForkParent(p: nat) | ForkRun(p: nat)
    | Preempt(p: nat) | Kill(p: nat, i: nat)

  ghost predicate Sized(s: Sys) {
    var n := |s.pc|;
    && n > INIT && |s.st| == n && |s.chan| == n && |s.parent| == n && |s.plock| == n && |s.holds| == n
    && |s.lk| == |s.locked| == |s.owner|
  }

  /** The condition lock that goes with a channel is free. */
  predicate CondFree(s: Sys, ch: Chan) {
    if ch.LockChan? then ch.l < |s.lk| && s.lk[ch.l] == -1 else s.waitlock == -1
  }

  /** Can the step be taken? A process takes steps while it is running, or on its way out as a zombie; it exits without
      sleep locks. Any running process may kill. */
  ghost predicate Enabled(s: Sys, step: Step)
    requires Sized(s)
  {
    var p := step.p;
    && p < |s.pc| && (step.Resume? || step.ExitUnlock? || step.ExitSwitch? || s.st[p] == RUNNING)
    && var pc := s.pc[p];
       match step
       case AcquireSpin(_, l) => pc == Idle && l < |s.lk| && s.lk[l] == -1
       case Test(_) => pc.Testing?
       case SleepLock(_) => pc.Sleep1? && !s.plock[p]
       case SleepUnlock(_) => pc.Sleep2?
       case SleepSwitch(_) => pc.Sleep3?
       case Resume(_) => s.st[p] == RUNNABLE && !s.plock[p]
       case Tidy(_) => pc.Woken?
       case Reacquire(_) => pc.Reacquiring? && CondFree(s, pc.ch)
       case ReleaseSpin(_, l) => pc == Idle && l < |s.lk| && s.lk[l] == -1 && l in s.holds[p]
       case Clear(_) => pc.Clearing?
       case Wake(_) => pc.Waking? && pc.k < |s.pc| && (pc.k == p || !s.plock[pc.k])
       case ReleaseDone(_) => pc.Waking? && pc.k == |s.pc|
       case ExitSpin(_) => pc == Idle && s.waitlock == -1 && p != INIT && s.holds[p] == {}
       case Reparent(_) => pc.Reparenting?
       case WakeInit(_) => pc.WakingInit? && (pc.k < |s.pc| && pc.k != p ==> !s.plock[pc.k])
       case WakeParent(_) => pc.WakingParent? && pc.k < |s.pc| && (pc.k == p || !s.plock[pc.k])
       case ExitLock(_) => pc.WakingParent? && pc.k == |s.pc| && !s.plock[p]
       case ExitZombie(_) => pc == Exiting1
       case ExitUnlock(_) => pc == Exiting2
       case ExitSwitch(_) => pc == Exiting3
       case WaitSpin(_) => pc == Idle && s.waitlock == -1
       case WaitScan(_, _) => pc.Scanning? && pc.j < |s.pc| && (s.parent[pc.j] == p ==> !s.plock[pc.j])
       case WaitEnd(_, _) => pc.Scanning? && pc.j == |s.pc|
       case ForkAlloc(_, c) => pc == Idle && c < |s.pc| && s.st[c] == UNUSED
       case ForkParent(_) => pc.Forking1? && s.waitlock == -1
       case ForkRun(_) => pc.Forking2?
       case Preempt(_) => Preemptible(pc)
       case Kill(_, i) => pc == Idle && i < |s.pc| && !s.plock[i]
  }

  /** Process p moves on. */
  function At(s: Sys, p: nat, pc: Pc): Sys
    requires p < |s.pc|
  {
    s.(pc := s.pc[p := pc])
  }

  /** One slot of wakeup(ch) by process p. */
  function Woke(s: Sys, p: nat, k: nat, ch: Chan): Sys
    requires k < |s.st| && k < |s.chan|
  {
    if k != p && s.st[k] == SLEEPING && s.chan[k] == ch then s.(st := s.st[k := RUNNABLE]) else s
  }

  function SetLk(s: Sys, l: nat, h: int): Sys
    requires l < |s.lk|
  {
    s.(lk := s.lk[l := h])
  }

  /** The condition lock of ch gets holder h. */
  function SetCond(s: Sys, ch: Chan, h: int): Sys {
    if ch.LockChan? && ch.l < |s.lk| then SetLk(s, ch.l, h) else if ch.ProcChan? then s.(waitlock := h) else s
  }

  ghost function Next(s: Sys, step: Step): Sys
    requires Sized(s) && Enabled(s, step)
  {
    var p := step.p;
    var pc := s.pc[p];
    match step
    case AcquireSpin(_, l) => At(SetLk(s, l, p), p, Testing(l))
    case Test(_) =>
      if pc.l >= |s.lk| then s
      else if s.locked[pc.l] then At(s, p, Sleep1(LockChan(pc.l)))
      else At(SetLk(s, pc.l, -1), p, Idle).(
        locked := s.locked[pc.l := true], owner := s.owner[pc.l := p], holds := s.holds[p := s.holds[p] + {pc.l}])
    case SleepLock(_) => At(s, p, Sleep2(pc.ch)).(plock := s.plock[p := true])
    case SleepUnlock(_) => At(SetCond(s, pc.ch, -1), p, Sleep3(pc.ch))
    case SleepSwitch(_) =>
      At(s, p, Asleep(pc.ch)).(st := s.st[p := SLEEPING], chan := s.chan[p := pc.ch], plock := s.plock[p := false])
    case Resume(_) =>
      if pc.Asleep? then At(s, p, Woken(pc.ch)).(st := s.st[p := RUNNING], plock := s.plock[p := true])
      else s.(st := s.st[p := RUNNING])
    case Tidy(_) => At(s, p, Reacquiring(pc.ch)).(chan := s.chan[p := NoChan], plock := s.plock[p := false])
    case Reacquire(_) => At(SetCond(s, pc.ch, p), p, if pc.ch.LockChan? then Testing(pc.ch.l) else Scanning(0, false))
    case ReleaseSpin(_, l) => At(SetLk(s, l, p), p, Clearing(l))
    case Clear(_) =>
      if pc.l >= |s.lk| then s
      else At(s, p, Waking(pc.l, 0)).(
        locked := s.locked[pc.l := false], owner := s.owner[pc.l := -1], holds := s.holds[p := s.holds[p] - {pc.l}])
    case Wake(_) => At(Woke(s, p, pc.k, LockChan(pc.l)), p, Waking(pc.l, pc.k + 1))
    case ReleaseDone(_) => if pc.l >= |s.lk| then s else At(SetLk(s, pc.l, -1), p, Idle)
    case ExitSpin(_) => At(s, p, Reparenting(0)).(waitlock := p)
    case Reparent(_) =>
      if pc.j >= |s.pc| then At(s, p, WakingParent(0))
      else if s.parent[pc.j] == p then At(s, p, WakingInit(pc.j, 0)).(parent := s.parent[pc.j := INIT])
      else At(s, p, Reparenting(pc.j + 1))
    case WakeInit(_) =>
      if pc.k >= |s.pc| then At(s, p, Reparenting(pc.j + 1))
      else At(Woke(s, p, pc.k, ProcChan(INIT)), p, WakingInit(pc.j, pc.k + 1))
    case WakeParent(_) =>
      At(if s.parent[p] >= 0 then Woke(s, p, pc.k, ProcChan(s.parent[p])) else s, p, WakingParent(pc.k + 1))
    case ExitLock(_) => At(s, p, Exiting1).(plock := s.plock[p := true])
    case ExitZombie(_) => At(s, p, Exiting2).(st := s.st[p := ZOMBIE])
    case ExitUnlock(_) => At(s, p, Exiting3).(waitlock := -1)
    case ExitSwitch(_) => At(s, p, Dead).(plock := s.plock[p := false])
    case WaitSpin(_) => At(s, p, Scanning(0, false)).(waitlock := p)
    case WaitScan(_, bad) =>
      if s.parent[pc.j] != p then At(s, p, Scanning(pc.j + 1, pc.kids))
      else if s.st[pc.j] != ZOMBIE then At(s, p, Scanning(pc.j + 1, true))
      else if bad then At(s, p, Idle).(waitlock := -1)
      else Reaped(At(s, p, Idle).(waitlock := -1), pc.j)
    case WaitEnd(_, killed) =>
      if !pc.kids || killed then At(s, p, Idle).(waitlock := -1) else At(s, p, Sleep1(ProcChan(p)))
    case ForkAlloc(_, c) => At(s, p, Forking1(c)).(st := s.st[c := USED])
    case ForkParent(_) => if pc.c >= |s.parent| then s else At(s, p, Forking2(pc.c)).(parent := s.parent[pc.c := p])
    case ForkRun(_) =>
      if pc.c >= |s.pc| || pc.c == p then s else At(At(s, pc.c, Idle), p, Idle).(st := s.st[pc.c := RUNNABLE])
    case Preempt(_) => s.(st := s.st[p := RUNNABLE])
    case Kill(_, i) => if s.st[i] == SLEEPING then s.(st := s.st[i := RUNNABLE]) else s
  }

  /** freeproc of slot c. */
  function Reaped(s: Sys, c: nat): Sys
    requires c < |s.pc| && c < |s.st| && c < |s.parent| && c < |s.chan|
  {
    s.(pc := s.pc[c := Off], st := s.st[c := UNUSED], parent := s.parent[c := -1], chan := s.chan[c := NoChan])
  }
}
