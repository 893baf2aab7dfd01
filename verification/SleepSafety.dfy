/** No wakeup is lost, and a sleep lock has one holder, in every interleaving. */
module SleepSafety {
  import opened SleepMachine

  // ---------------------------------------------------------------- the invariant, row by row

  /** Sleeping on ch, or past the point of no return on the way there. */
  predicate WaitsOn(pc: Pc, st: ProcState, ch: Chan) {
    pc == Sleep3(ch) || (pc == Asleep(ch) && st == SLEEPING)
  }

  predicate ChanOk(p: nat, ch: Chan, locks: nat) {
    ch == ProcChan(p) || (ch.LockChan? && ch.l < locks)
  }

  /** The state that goes with a place in the code. */
  predicate StateFits(pc: Pc, st: ProcState) {
    match pc
    case Off => st == UNUSED || st == USED
    case Asleep(_) => st == SLEEPING || st == RUNNABLE
    case Reacquiring(_) => st == RUNNING || st == RUNNABLE
    case Idle => st == RUNNING || st == RUNNABLE
    case Forking1(_) => st == RUNNING || st == RUNNABLE
    case Forking2(_) => st == RUNNING || st == RUNNABLE
    case Exiting2 => st == ZOMBIE
    case Exiting3 => st == ZOMBIE
    case Dead => st == ZOMBIE
    case _ => st == RUNNING
  }

  /** The arguments of a place in the code are in range. */
  predicate ArgsFit(p: nat, pc: Pc, procs: nat, locks: nat) {
    match pc
    case Asleep(ch) => ChanOk(p, ch, locks)
    case Sleep1(ch) => ChanOk(p, ch, locks)
    case Sleep2(ch) => ChanOk(p, ch, locks)
    case Sleep3(ch) => ChanOk(p, ch, locks)
    case Woken(ch) => ChanOk(p, ch, locks)
    case Reacquiring(ch) => ChanOk(p, ch, locks)
    case Testing(l) => l < locks
    case Clearing(l) => l < locks
    case Waking(l, k) => l < locks && k <= procs
    case WakingInit(_, k) => k <= procs
    case WakingParent(k) => k <= procs
    case Scanning(j, _) => j <= procs
    case Forking1(c) => c < procs
    case Forking2(c) => c < procs
    case _ => true
  }

  /** Init never exits. */
  predicate Exits(pc: Pc) {
    pc.Reparenting? || pc.WakingInit? || pc.WakingParent? || pc.Exiting1? || pc.Exiting2? || pc.Exiting3? || pc.Dead?
  }

  predicate Row(p: nat, pc: Pc, st: ProcState, chan: Chan, own: bool, wait: bool, procs: nat, locks: nat) {
    && (own <==> HoldsOwn(pc)) && (wait <==> HoldsWait(pc)) && (Exits(pc) ==> p != INIT)
    && StateFits(pc, st) && ArgsFit(p, pc, procs, locks) && (pc.Asleep? ==> chan == pc.ch)
  }

  /** Where process p is agrees with its state, its channel and the locks it holds. */
  ghost predicate ProcOk(s: Sys, p: nat)
    requires Sized(s)
  {
    p < |s.pc| ==> Row(p, s.pc[p], s.st[p], s.chan[p], s.plock[p], s.waitlock == p, |s.pc|, |s.lk|)
  }

  predicate Forks(pc: Pc) {
    pc.Forking1? || pc.Forking2?
  }

  /** A child in the making is set aside for one parent. */
  predicate ForkRow(same: bool, pc: Pc, pc': Pc, c: nat, st: ProcState) {
    && (Forks(pc) && pc.c == c ==> st == USED)
    && (!same && Forks(pc) && Forks(pc') ==> pc.c != pc'.c)
  }

  ghost predicate ForkOk(s: Sys, p: nat, q: nat)
    requires Sized(s)
  {
    p < |s.pc| && q < |s.pc| ==> ForkRow(p == q, s.pc[p], s.pc[q], q, s.st[q])
  }

  ghost predicate LkOk(s: Sys, p: nat, l: nat)
    requires Sized(s)
  {
    p < |s.pc| && l < |s.lk| ==> (s.lk[l] == p <==> HoldsLk(s.pc[p], l))
  }

  /** A sleep lock's holder is the process recorded in it; only the holder releases it. */
  predicate HolderRow(p: nat, l: nat, pc: Pc, held: bool, locked: bool, owner: int) {
    (held <==> locked && owner == p) && (pc == Clearing(l) ==> held)
  }

  ghost predicate HolderOk(s: Sys, p: nat, l: nat)
    requires Sized(s)
  {
    p < |s.pc| && l < |s.lk| ==> HolderRow(p, l, s.pc[p], l in s.holds[p], s.locked[l], s.owner[l])
  }

  /** Where the holder of a lock is. */
  function HolderPc(s: Sys, h: int): Pc {
    if 0 <= h < |s.pc| then s.pc[h] else Off
  }

  /** Process i waits for lock l only while it is locked, or while the release that will wake i is under way. */
  predicate LockRow(l: nat, i: nat, pc: Pc, st: ProcState, locked: bool, h: int, hpc: Pc) {
    && (WaitsOn(pc, st, LockChan(l)) && !locked ==> hpc.Waking? && hpc.l == l && hpc.k <= i && h != i)
    && (pc == Sleep1(LockChan(l)) || pc == Sleep2(LockChan(l)) ==> locked)
    && (pc.Waking? && pc.l == l ==> !locked)
  }

  ghost predicate LockWait(s: Sys, l: nat, i: nat)
    requires Sized(s)
  {
    l < |s.lk| && i < |s.pc| ==> LockRow(l, i, s.pc[i], s.st[i], s.locked[l], s.lk[l], HolderPc(s, s.lk[l]))
  }

  /** Process p waits in kwait for a zombie child only while the wakeup of p, which is then init, is under way. */
  predicate ChildRow(p: nat, pc: Pc, st: ProcState, zombie: bool, hpc: Pc) {
    WaitsOn(pc, st, ProcChan(p)) && zombie ==> p == INIT && hpc.WakingInit? && hpc.k <= INIT
  }

  ghost predicate ChildWait(s: Sys, p: nat, c: nat)
    requires Sized(s)
  {
    p < |s.pc| && c < |s.pc| ==>
      ChildRow(p, s.pc[p], s.st[p], s.parent[c] == p && s.st[c] == ZOMBIE, HolderPc(s, s.waitlock))
  }

  /** What a process in kexit or kwait has established about process c. */
  predicate ExitRow(q: nat, c: nat, pc: Pc, isParent: bool, isChild: bool, waits: bool, st: ProcState) {
    && (pc.WakingInit? && pc.k > INIT && c == INIT ==> !waits)
    && (pc.WakingParent? && isParent && pc.k > c ==> !waits)
    && ((pc == Exiting1 || pc == Exiting2) && isParent ==> !waits)
    && (pc.Scanning? && isChild && c < pc.j ==> st != ZOMBIE)
    && ((pc == Sleep1(ProcChan(q)) || pc == Sleep2(ProcChan(q))) && isChild ==> st != ZOMBIE)
  }

  ghost predicate ExitOk(s: Sys, q: nat, c: nat)
    requires Sized(s)
  {
    q < |s.pc| && c < |s.pc| ==>
      ExitRow(q, c, s.pc[q], s.parent[q] == c, s.parent[c] == q, WaitsOn(s.pc[c], s.st[c], ProcChan(c)), s.st[c])
  }

  // ---------------------------------------------------------------- what a step does not touch

  ghost predicate ProcsOk(s: Sys) {
    && Sized(s)
    && (forall p: nat {:trigger ProcOk(s, p)} :: ProcOk(s, p))
    && (forall p: nat, q: nat {:trigger ForkOk(s, p, q)} :: ForkOk(s, p, q))
  }

  ghost predicate LocksOk(s: Sys) {
    && Sized(s)
    && (forall p: nat, l: nat {:trigger LkOk(s, p, l)} :: LkOk(s, p, l))
    && (forall p: nat, l: nat {:trigger HolderOk(s, p, l)} :: HolderOk(s, p, l))
    && (forall l: nat, i: nat {:trigger LockWait(s, l, i)} :: LockWait(s, l, i))
  }

  ghost predicate ChildrenOk(s: Sys) {
    && Sized(s)
    && (forall p: nat, c: nat {:trigger ChildWait(s, p, c)} :: ChildWait(s, p, c))
    && (forall q: nat, c: nat {:trigger ExitOk(s, q, c)} :: ExitOk(s, q, c))
  }

  ghost predicate Inv(s: Sys) {
    ProcsOk(s) && LocksOk(s) && ChildrenOk(s)
  }

  /** Places that have nothing to do with sleep locks. */
  predicate LockPlain(pc: Pc) {
    match pc
    case Testing(_) => false
    case Clearing(_) => false
    case Waking(_, _) => false
    case Sleep1(ch) => !ch.LockChan?
    case Sleep2(ch) => !ch.LockChan?
    case Sleep3(ch) => !ch.LockChan?
    case Asleep(ch) => !ch.LockChan?
    case _ => true
  }

  /** Places that have nothing to do with parents and children. */
  predicate WaitPlain(pc: Pc) {
    match pc
    case Sleep1(ch) => !ch.ProcChan?
    case Sleep2(ch) => !ch.ProcChan?
    case Sleep3(ch) => !ch.ProcChan?
    case Asleep(ch) => !ch.ProcChan?
    case _ => !HoldsWait(pc)
  }

  /** Only process p moves, and nobody falls asleep. */
  ghost predicate Moves(s: Sys, t: Sys, p: nat) {
    && Sized(s) && Sized(t) && |t.pc| == |s.pc| && |t.lk| == |s.lk| && p < |s.pc|
    && (forall q :: 0 <= q < |s.pc| && q != p ==> t.pc[q] == s.pc[q])
    && (forall q :: 0 <= q < |s.pc| && q != p ==> t.st[q] == s.st[q] || (s.st[q] != ZOMBIE && t.st[q] != SLEEPING && t.st[q] != ZOMBIE))
  }

  /** Only process p moves, and it is the only one that may take or give up wait_lock. */
  ghost predicate Alone(s: Sys, t: Sys, p: nat) {
    && Sized(s) && Sized(t) && |t.lk| == |s.lk| && p < |s.pc| == |t.pc| && t.pc == s.pc[p := t.pc[p]]
    && (t.st == s.st || t.st == s.st[p := t.st[p]]) && (t.chan == s.chan || t.chan == s.chan[p := t.chan[p]])
    && (t.plock == s.plock || t.plock == s.plock[p := t.plock[p]])
    && (t.waitlock == s.waitlock || ((s.waitlock == -1 || s.waitlock == p) && (t.waitlock == -1 || t.waitlock == p)))
  }

  /** A process that moves alone, and starts no fork, leaves the rows of the others as they are. */
  lemma ProcsFrame(s: Sys, t: Sys, p: nat)
    requires ProcsOk(s) && Alone(s, t, p) && ProcOk(t, p) && s.pc[p] != Off
    requires Forks(t.pc[p]) ==> Forks(s.pc[p]) && t.pc[p].c == s.pc[p].c
    ensures ProcsOk(t)
  {
    assert ProcOk(s, p);
    forall q: nat ensures ProcOk(t, q) {
      assert ProcOk(s, q);
    }
    forall q: nat, r: nat ensures ForkOk(t, q, r) {
      assert ForkOk(s, q, r) && ForkOk(s, q, p) && ForkOk(s, p, r);
    }
  }

  lemma LocksFrame(s: Sys, t: Sys, p: nat)
    requires LocksOk(s) && Moves(s, t, p) && t.lk == s.lk && t.locked == s.locked && t.owner == s.owner && t.holds == s.holds
    requires LockPlain(s.pc[p]) && LockPlain(t.pc[p])
    ensures LocksOk(t)
  {
    forall q: nat, l: nat ensures LkOk(t, q, l) && HolderOk(t, q, l) && LockWait(t, l, q) {
      assert LkOk(s, q, l) && HolderOk(s, q, l) && LockWait(s, l, q) && LkOk(s, p, l);
    }
  }

  /** The rows that process p has with process c, either way round. */
  ghost predicate ChildRows(s: Sys, p: nat, c: nat)
    requires Sized(s)
  {
    ChildWait(s, p, c) && ExitOk(s, p, c) && ChildWait(s, c, p) && ExitOk(s, c, p)
  }

  /** The wakeup of init is under way and has not come to it yet. */
  predicate WillWakeInit(s: Sys) {
    HolderPc(s, s.waitlock).WakingInit? && HolderPc(s, s.waitlock).k <= INIT
  }

  /** A process that moves alone, under the same parents, has only its own rows to answer for. */
  lemma ChildrenStep(s: Sys, t: Sys, p: nat)
    requires ChildrenOk(s) && Moves(s, t, p) && t.parent == s.parent && (WillWakeInit(s) ==> WillWakeInit(t))
    requires forall c: nat {:trigger ChildRows(t, p, c)} :: ChildRows(t, p, c)
    ensures ChildrenOk(t)
  {
    forall q: nat, c: nat ensures ChildWait(t, q, c) && ExitOk(t, q, c) {
      assert ChildWait(s, q, c) && ExitOk(s, q, c) && ChildRows(t, p, q) && ChildRows(t, p, c);
    }
  }

  lemma ChildrenFrame(s: Sys, t: Sys, p: nat)
    requires ProcsOk(s) && ChildrenOk(s) && Moves(s, t, p) && t.waitlock == s.waitlock && t.parent == s.parent
    requires WaitPlain(s.pc[p]) && WaitPlain(t.pc[p]) && (s.st[p] == ZOMBIE <==> t.st[p] == ZOMBIE)
    ensures ChildrenOk(t)
  {
    assert ProcOk(s, p);
    forall q: nat, c: nat ensures ChildWait(t, q, c) && ExitOk(t, q, c) {
      assert ChildWait(s, q, c) && ExitOk(s, q, c);
    }
  }

  // ---------------------------------------------------------------- each step keeps it

  /** acquiresleep takes the lock's spin lock. */
  lemma AcquireSpinKeeps(s: Sys, p: nat, l: nat)
    requires Inv(s) && Enabled(s, AcquireSpin(p, l))
    ensures Inv(Next(s, AcquireSpin(p, l)))
  {
    var t := Next(s, AcquireSpin(p, l));
    assert ProcOk(s, p);
    ProcsFrame(s, t, p);
    forall q: nat, m: nat ensures LkOk(t, q, m) && HolderOk(t, q, m) && LockWait(t, m, q) {
      assert LkOk(s, q, m) && HolderOk(s, q, m) && LockWait(s, m, q) && LkOk(s, p, m);
    }
    ChildrenFrame(s, t, p);
  }

  /** sleep takes the process's own lock. */
  lemma SleepLockKeeps(s: Sys, p: nat)
    requires Inv(s) && Enabled(s, SleepLock(p))
    ensures Inv(Next(s, SleepLock(p)))
  {
    var t := Next(s, SleepLock(p));
    assert ProcOk(s, p);
    ProcsFrame(s, t, p);
    if s.pc[p].ch.LockChan? {
      ChildrenFrame(s, t, p);
      forall q: nat, m: nat ensures LkOk(t, q, m) && HolderOk(t, q, m) && LockWait(t, m, q) {
        assert LkOk(s, q, m) && HolderOk(s, q, m) && LockWait(s, m, q) && LkOk(s, p, m);
      }
    } else {
      LocksFrame(s, t, p);
      forall c: nat ensures ChildRows(t, p, c) {
        assert ChildWait(s, p, c) && ExitOk(s, p, c) && ChildWait(s, c, p) && ExitOk(s, c, p) && ProcOk(s, c);
      }
      ChildrenStep(s, t, p);
    }
  }

  /** sleep releases the condition lock: from here on p counts as waiting. */
  lemma SleepUnlockKeeps(s: Sys, p: nat)
    requires Inv(s) && Enabled(s, SleepUnlock(p))
    ensures Inv(Next(s, SleepUnlock(p)))
  {
    var t := Next(s, SleepUnlock(p));
    assert ProcOk(s, p);
    ProcsFrame(s, t, p);
    if s.pc[p].ch.LockChan? {
      ChildrenFrame(s, t, p);
      SleepUnlockLocks(s, p);
    } else {
      LocksFrame(s, t, p);
      SleepUnlockChildren(s, p);
    }
  }

  lemma SleepUnlockLocks(s: Sys, p: nat)
    requires Inv(s) && p < |s.pc| && s.pc[p].Sleep2? && s.pc[p].ch.LockChan?
    ensures LocksOk(At(SetCond(s, s.pc[p].ch, -1), p, Sleep3(s.pc[p].ch)))
  {
    var t := At(SetCond(s, s.pc[p].ch, -1), p, Sleep3(s.pc[p].ch));
    assert ProcOk(s, p);
    forall q: nat, m: nat ensures LkOk(t, q, m) && HolderOk(t, q, m) && LockWait(t, m, q) {
      assert LkOk(s, q, m) && HolderOk(s, q, m) && LockWait(s, m, q) && LkOk(s, p, m);
    }
  }

  lemma SleepUnlockChildren(s: Sys, p: nat)
    requires Inv(s) && p < |s.pc| && s.pc[p].Sleep2? && s.pc[p].ch.ProcChan?
    ensures ChildrenOk(At(SetCond(s, s.pc[p].ch, -1), p, Sleep3(s.pc[p].ch)))
  {
    var t := At(SetCond(s, s.pc[p].ch, -1), p, Sleep3(s.pc[p].ch));
    assert ProcOk(s, p);
    forall c: nat ensures ChildRows(t, p, c) {
      assert ChildWait(s, p, c) && ExitOk(s, p, c) && ChildWait(s, c, p) && ExitOk(s, c, p) && ProcOk(s, c);
    }
    ChildrenStep(s, t, p);
  }

  /** sleep marks the process asleep and gives up the processor. */
  lemma SleepSwitchKeeps(s: Sys, p: nat)
    requires Inv(s) && Enabled(s, SleepSwitch(p))
    ensures Inv(Next(s, SleepSwitch(p)))
  {
    var t := Next(s, SleepSwitch(p));
    assert ProcOk(s, p);
    ProcsFrame(s, t, p);
    if s.pc[p].ch.LockChan? {
      ChildrenFrame(s, t, p);
      SleepSwitchLocks(s, p);
    } else {
      LocksFrame(s, t, p);
      SleepSwitchChildren(s, p);
    }
  }

  lemma SleepSwitchLocks(s: Sys, p: nat)
    requires Inv(s) && p < |s.pc| && s.pc[p].Sleep3? && s.pc[p].ch.LockChan?
    ensures LocksOk(At(s, p, Asleep(s.pc[p].ch)).(st := s.st[p := SLEEPING], chan := s.chan[p := s.pc[p].ch], plock := s.plock[p := false]))
  {
    var t := At(s, p, Asleep(s.pc[p].ch)).(st := s.st[p := SLEEPING], chan := s.chan[p := s.pc[p].ch], plock := s.plock[p := false]);
    assert ProcOk(s, p);
    forall q: nat, m: nat ensures LkOk(t, q, m) && HolderOk(t, q, m) && LockWait(t, m, q) {
      assert LkOk(s, q, m) && HolderOk(s, q, m) && LockWait(s, m, q) && LkOk(s, p, m);
    }
  }

  lemma SleepSwitchChildren(s: Sys, p: nat)
    requires Inv(s) && p < |s.pc| && s.pc[p].Sleep3? && s.pc[p].ch.ProcChan?
    ensures ChildrenOk(At(s, p, Asleep(s.pc[p].ch)).(st := s.st[p := SLEEPING], chan := s.chan[p := s.pc[p].ch], plock := s.plock[p := false]))
  {
    var t := At(s, p, Asleep(s.pc[p].ch)).(st := s.st[p := SLEEPING], chan := s.chan[p := s.pc[p].ch], plock := s.plock[p := false]);
    assert ProcOk(s, p);
    forall c: nat ensures ChildRows(t, p, c) {
      assert ChildWait(s, p, c) && ExitOk(s, p, c) && ChildWait(s, c, p) && ExitOk(s, c, p) && ProcOk(s, c);
    }
    ChildrenStep(s, t, p);
  }

  /** Awake again, sleep clears the channel and releases the process's own lock. */
  lemma TidyKeeps(s: Sys, p: nat)
    requires Inv(s) && Enabled(s, Tidy(p))
    ensures Inv(Next(s, Tidy(p)))
  {
    var t := Next(s, Tidy(p));
    assert ProcOk(s, p);
    ProcsFrame(s, t, p);
    LocksFrame(s, t, p);
    ChildrenFrame(s, t, p);
  }

  /** At the end of sleep, the condition lock is taken again. */
  lemma ReacquireKeeps(s: Sys, p: nat)
    requires Inv(s) && Enabled(s, Reacquire(p))
    ensures Inv(Next(s, Reacquire(p)))
  {
    assert ProcOk(s, p);
    if s.pc[p].ch.LockChan? {
      ReacquireLkKeeps(s, p, s.pc[p].ch.l);
    } else {
      ReacquireWaitKeeps(s, p);
    }
  }

  lemma ReacquireLkKeeps(s: Sys, p: nat, l: nat)
    requires Inv(s) && p < |s.pc| && s.st[p] == RUNNING && s.pc[p] == Reacquiring(LockChan(l)) && l < |s.lk| && s.lk[l] == -1
    ensures Inv(At(SetLk(s, l, p), p, Testing(l)))
  {
    var t := At(SetLk(s, l, p), p, Testing(l));
    assert ProcOk(s, p);
    ProcsFrame(s, t, p);
    forall q: nat, m: nat ensures LkOk(t, q, m) && HolderOk(t, q, m) && LockWait(t, m, q) {
      assert LkOk(s, q, m) && HolderOk(s, q, m) && LockWait(s, m, q) && LkOk(s, p, m);
    }
    ChildrenFrame(s, t, p);
  }

  lemma ReacquireWaitKeeps(s: Sys, p: nat)
    requires Inv(s) && p < |s.pc| && s.st[p] == RUNNING && s.pc[p] == Reacquiring(ProcChan(p)) && s.waitlock == -1
    ensures Inv(At(s, p, Scanning(0, false)).(waitlock := p))
  {
    var t := At(s, p, Scanning(0, false)).(waitlock := p);
    assert ProcOk(s, p);
    ProcsFrame(s, t, p);
    LocksFrame(s, t, p);
    forall c: nat ensures ChildRows(t, p, c) {
      assert ChildWait(s, p, c) && ExitOk(s, p, c) && ChildWait(s, c, p) && ExitOk(s, c, p) && ProcOk(s, c);
    }
    ChildrenStep(s, t, p);
  }

  /** releasesleep takes the lock's spin lock. */
  lemma ReleaseSpinKeeps(s: Sys, p: nat, l: nat)
    requires Inv(s) && Enabled(s, ReleaseSpin(p, l))
    ensures Inv(Next(s, ReleaseSpin(p, l)))
  {
    var t := Next(s, ReleaseSpin(p, l));
    assert ProcOk(s, p);
    ProcsFrame(s, t, p);
    forall q: nat, m: nat ensures LkOk(t, q, m) && HolderOk(t, q, m) && LockWait(t, m, q) {
      assert LkOk(s, q, m) && HolderOk(s, q, m) && LockWait(s, m, q) && LkOk(s, p, m);
    }
    ChildrenFrame(s, t, p);
  }

  /** releasesleep gives the lock up. */
  lemma ClearKeeps(s: Sys, p: nat)
    requires Inv(s) && Enabled(s, Clear(p))
    ensures Inv(Next(s, Clear(p)))
  {
    var t := Next(s, Clear(p));
    assert ProcOk(s, p);
    ProcsFrame(s, t, p);
    forall q: nat, m: nat ensures LkOk(t, q, m) && HolderOk(t, q, m) && LockWait(t, m, q) {
      assert LkOk(s, q, m) && HolderOk(s, q, m) && LockWait(s, m, q) && LkOk(s, p, m) && HolderOk(s, p, m);
    }
    ChildrenFrame(s, t, p);
  }

  /** releasesleep lets go of the spin lock: every waiter has been woken. */
  lemma ReleaseDoneKeeps(s: Sys, p: nat)
    requires Inv(s) && Enabled(s, ReleaseDone(p))
    ensures Inv(Next(s, ReleaseDone(p)))
  {
    var t := Next(s, ReleaseDone(p));
    assert ProcOk(s, p);
    ProcsFrame(s, t, p);
    forall q: nat, m: nat ensures LkOk(t, q, m) && HolderOk(t, q, m) && LockWait(t, m, q) {
      assert LkOk(s, q, m) && HolderOk(s, q, m) && LockWait(s, m, q) && LkOk(s, p, m);
    }
    ChildrenFrame(s, t, p);
  }

  /** kexit takes wait_lock. */
  lemma ExitSpinKeeps(s: Sys, p: nat)
    requires Inv(s) && Enabled(s, ExitSpin(p))
    ensures Inv(Next(s, ExitSpin(p)))
  {
    var t := Next(s, ExitSpin(p));
    assert ProcOk(s, p);
    ProcsFrame(s, t, p);
    LocksFrame(s, t, p);
    forall c: nat ensures ChildRows(t, p, c) {
      assert ChildWait(s, p, c) && ExitOk(s, p, c) && ChildWait(s, c, p) && ExitOk(s, c, p) && ProcOk(s, c);
    }
    ChildrenStep(s, t, p);
  }

  /** kexit takes the process's own lock. */
  lemma ExitLockKeeps(s: Sys, p: nat)
    requires Inv(s) && Enabled(s, ExitLock(p))
    ensures Inv(Next(s, ExitLock(p)))
  {
    var t := Next(s, ExitLock(p));
    assert ProcOk(s, p);
    ProcsFrame(s, t, p);
    LocksFrame(s, t, p);
    forall c: nat ensures ChildRows(t, p, c) {
      assert ChildWait(s, p, c) && ExitOk(s, p, c) && ChildWait(s, c, p) && ExitOk(s, c, p) && ProcOk(s, c);
    }
    ChildrenStep(s, t, p);
  }

  /** kexit makes the process a zombie: the parent is not waiting. */
  lemma ExitZombieKeeps(s: Sys, p: nat)
    requires Inv(s) && Enabled(s, ExitZombie(p))
    ensures Inv(Next(s, ExitZombie(p)))
  {
    var t := Next(s, ExitZombie(p));
    assert ProcOk(s, p);
    ProcsFrame(s, t, p);
    LocksFrame(s, t, p);
    ExitZombieChildren(s, p);
  }

  lemma ExitZombieChildren(s: Sys, p: nat)
    requires ProcsOk(s) && ChildrenOk(s) && p < |s.pc| && s.pc[p] == Exiting1
    ensures ChildrenOk(At(s, p, Exiting2).(st := s.st[p := ZOMBIE]))
  {
    var t := At(s, p, Exiting2).(st := s.st[p := ZOMBIE]);
    assert ProcOk(s, p);
    forall c: nat ensures ChildRows(t, p, c) {
      assert ChildWait(s, p, c) && ExitOk(s, p, c) && ChildWait(s, c, p) && ExitOk(s, c, p) && ProcOk(s, c);
    }
    ChildrenStep(s, t, p);
  }

  /** kexit releases wait_lock. */
  lemma ExitUnlockKeeps(s: Sys, p: nat)
    requires Inv(s) && Enabled(s, ExitUnlock(p))
    ensures Inv(Next(s, ExitUnlock(p)))
  {
    var t := Next(s, ExitUnlock(p));
    assert ProcOk(s, p);
    ProcsFrame(s, t, p);
    LocksFrame(s, t, p);
    forall c: nat ensures ChildRows(t, p, c) {
      assert ChildWait(s, p, c) && ExitOk(s, p, c) && ChildWait(s, c, p) && ExitOk(s, c, p) && ProcOk(s, c);
    }
    ChildrenStep(s, t, p);
  }

  /** The last sched. */
  lemma ExitSwitchKeeps(s: Sys, p: nat)
    requires Inv(s) && Enabled(s, ExitSwitch(p))
    ensures Inv(Next(s, ExitSwitch(p)))
  {
    var t := Next(s, ExitSwitch(p));
    assert ProcOk(s, p);
    ProcsFrame(s, t, p);
    LocksFrame(s, t, p);
    ChildrenFrame(s, t, p);
  }

  /** kwait takes wait_lock. */
  lemma WaitSpinKeeps(s: Sys, p: nat)
    requires Inv(s) && Enabled(s, WaitSpin(p))
    ensures Inv(Next(s, WaitSpin(p)))
  {
    var t := Next(s, WaitSpin(p));
    assert ProcOk(s, p);
    ProcsFrame(s, t, p);
    LocksFrame(s, t, p);
    forall c: nat ensures ChildRows(t, p, c) {
      assert ChildWait(s, p, c) && ExitOk(s, p, c) && ChildWait(s, c, p) && ExitOk(s, c, p) && ProcOk(s, c);
    }
    ChildrenStep(s, t, p);
  }

  /** The end of the scan: leave, or sleep with no zombie child. */
  lemma WaitEndKeeps(s: Sys, p: nat, killed: bool)
    requires Inv(s) && Enabled(s, WaitEnd(p, killed))
    ensures Inv(Next(s, WaitEnd(p, killed)))
  {
    if !s.pc[p].kids || killed {
      LeaveKeeps(s, p);
    } else {
      WaitSleepKeeps(s, p);
    }
  }

  lemma WaitSleepKeeps(s: Sys, p: nat)
    requires Inv(s) && p < |s.pc| && s.st[p] == RUNNING && s.pc[p].Scanning? && s.pc[p].j == |s.pc|
    ensures Inv(At(s, p, Sleep1(ProcChan(p))))
  {
    var t := At(s, p, Sleep1(ProcChan(p)));
    assert ProcOk(s, p);
    ProcsFrame(s, t, p);
    LocksFrame(s, t, p);
    forall c: nat ensures ChildRows(t, p, c) {
      assert ChildWait(s, p, c) && ExitOk(s, p, c) && ChildWait(s, c, p) && ExitOk(s, c, p) && ProcOk(s, c);
    }
    ChildrenStep(s, t, p);
  }

  /** kfork records the parent, under wait_lock. */
  lemma ForkParentKeeps(s: Sys, p: nat)
    requires Inv(s) && Enabled(s, ForkParent(p))
    ensures Inv(Next(s, ForkParent(p)))
  {
    var t, c := Next(s, ForkParent(p)), s.pc[p].c;
    assert ProcOk(s, p) && ForkOk(s, p, c);
    ProcsFrame(s, t, p);
    LocksFrame(s, t, p);
    ForkParentChildren(s, p, c);
  }

  lemma ForkParentChildren(s: Sys, p: nat, np: nat)
    requires ProcsOk(s) && ChildrenOk(s) && p < |s.pc| && s.pc[p] == Forking1(np) && np < |s.pc| && s.waitlock == -1 && s.st[np] == USED
    ensures ChildrenOk(At(s, p, Forking2(np)).(parent := s.parent[np := p]))
  {
    var t := At(s, p, Forking2(np)).(parent := s.parent[np := p]);
    forall q: nat, c: nat ensures ChildWait(t, q, c) && ExitOk(t, q, c) {
      assert ChildWait(s, q, c) && ExitOk(s, q, c) && ProcOk(s, q) && ProcOk(s, c);
    }
  }

  /** allocproc in kfork. */
  lemma ForkAllocKeeps(s: Sys, p: nat, c: nat)
    requires Inv(s) && Enabled(s, ForkAlloc(p, c))
    ensures Inv(Next(s, ForkAlloc(p, c)))
  {
    var t := Next(s, ForkAlloc(p, c));
    assert ProcOk(s, p);
    forall q: nat ensures ProcOk(t, q) { assert ProcOk(s, q); }
    forall q: nat, r: nat ensures ForkOk(t, q, r) { assert ForkOk(s, q, r) && ProcOk(s, q) && ForkOk(s, q, c) && ForkOk(s, r, c); }
    LocksFrame(s, t, p);
    ChildrenFrame(s, t, p);
  }

  /** kkill, which also ends a sleep. */
  lemma KillKeeps(s: Sys, p: nat, i: nat)
    requires Inv(s) && Enabled(s, Kill(p, i))
    ensures Inv(Next(s, Kill(p, i)))
  {
    var t := Next(s, Kill(p, i));
    assert ProcOk(s, p);
    forall q: nat ensures ProcOk(t, q) { assert ProcOk(s, q); }
    forall q: nat, r: nat ensures ForkOk(t, q, r) { assert ForkOk(s, q, r) && ProcOk(s, q); }
    LocksFrame(s, t, p);
    ChildrenFrame(s, t, p);
  }

  /** yield, from a timer interrupt. */
  lemma PreemptKeeps(s: Sys, p: nat)
    requires Inv(s) && Enabled(s, Preempt(p))
    ensures Inv(Next(s, Preempt(p)))
  {
    var t := Next(s, Preempt(p));
    assert ProcOk(s, p);
    ProcsFrame(s, t, p);
    LocksFrame(s, t, p);
    ChildrenFrame(s, t, p);
  }

  /** The scheduler picks p. */
  lemma ResumeKeeps(s: Sys, p: nat)
    requires Inv(s) && Enabled(s, Resume(p))
    ensures Inv(Next(s, Resume(p)))
  {
    var t := Next(s, Resume(p));
    assert ProcOk(s, p);
    if s.pc[p].Asleep? {
      ResumeAsleepKeeps(s, p);
    } else {
      ProcsFrame(s, t, p);
      LocksFrame(s, t, p);
      ChildrenFrame(s, t, p);
    }
  }

  lemma ResumeAsleepKeeps(s: Sys, p: nat)
    requires Inv(s) && p < |s.pc| && s.pc[p].Asleep? && s.st[p] == RUNNABLE && !s.plock[p]
    ensures Inv(At(s, p, Woken(s.pc[p].ch)).(st := s.st[p := RUNNING], plock := s.plock[p := true]))
  {
    var t := At(s, p, Woken(s.pc[p].ch)).(st := s.st[p := RUNNING], plock := s.plock[p := true]);
    assert ProcOk(s, p);
    ProcsFrame(s, t, p);
    if s.pc[p].ch.LockChan? {
      ChildrenFrame(s, t, p);
      forall q: nat, m: nat ensures LkOk(t, q, m) && HolderOk(t, q, m) && LockWait(t, m, q) {
        assert LkOk(s, q, m) && HolderOk(s, q, m) && LockWait(s, m, q) && LkOk(s, p, m);
      }
    } else {
      LocksFrame(s, t, p);
      forall c: nat ensures ChildRows(t, p, c) {
        assert ChildWait(s, p, c) && ExitOk(s, p, c) && ChildWait(s, c, p) && ExitOk(s, c, p) && ProcOk(s, c);
      }
      ChildrenStep(s, t, p);
    }
  }

  /** One slot of wakeup: slot k no longer waits on ch. */
  lemma WokeKeeps(s: Sys, p: nat, k: nat, ch: Chan)
    requires Inv(s) && p < |s.pc| && k < |s.pc| && (k == p || !s.plock[k])
    ensures Inv(Woke(s, p, k, ch)) && (k != p ==> !WaitsOn(s.pc[k], Woke(s, p, k, ch).st[k], ch))
  {
    var t := Woke(s, p, k, ch);
    assert ProcOk(s, k);
    forall q: nat ensures ProcOk(t, q) { assert ProcOk(s, q); }
    forall q: nat, r: nat ensures ForkOk(t, q, r) { assert ForkOk(s, q, r); }
    forall q: nat, m: nat ensures LkOk(t, q, m) && HolderOk(t, q, m) && LockWait(t, m, q) {
      assert LkOk(s, q, m) && HolderOk(s, q, m) && LockWait(s, m, q);
    }
    forall q: nat, c: nat ensures ChildWait(t, q, c) && ExitOk(t, q, c) {
      assert ChildWait(s, q, c) && ExitOk(s, q, c);
    }
  }

  /** One slot of wakeup(lk). */
  lemma WakeKeeps(s: Sys, p: nat)
    requires Inv(s) && Enabled(s, Wake(p))
    ensures Inv(Next(s, Wake(p)))
  {
    var l, k := s.pc[p].l, s.pc[p].k;
    WokeKeeps(s, p, k, LockChan(l));
    WakeOnKeeps(Woke(s, p, k, LockChan(l)), p);
  }

  lemma WakeOnKeeps(s: Sys, p: nat)
    requires Inv(s) && p < |s.pc| && s.pc[p].Waking? && s.pc[p].k < |s.pc|
    requires s.pc[p].k != p ==> !WaitsOn(s.pc[s.pc[p].k], s.st[s.pc[p].k], LockChan(s.pc[p].l))
    ensures Inv(At(s, p, Waking(s.pc[p].l, s.pc[p].k + 1)))
  {
    var t := At(s, p, Waking(s.pc[p].l, s.pc[p].k + 1));
    assert ProcOk(s, p);
    ProcsFrame(s, t, p);
    forall q: nat, m: nat ensures LkOk(t, q, m) && HolderOk(t, q, m) && LockWait(t, m, q) {
      assert LkOk(s, q, m) && HolderOk(s, q, m) && LockWait(s, m, q) && LkOk(s, p, m);
    }
    ChildrenFrame(s, t, p);
  }

  /** One slot of wakeup(initproc), or the next slot of reparent. */
  lemma WakeInitKeeps(s: Sys, p: nat)
    requires Inv(s) && Enabled(s, WakeInit(p))
    ensures Inv(Next(s, WakeInit(p)))
  {
    var j, k := s.pc[p].j, s.pc[p].k;
    if k < |s.pc| {
      WokeKeeps(s, p, k, ProcChan(INIT));
      WakeInitOnKeeps(Woke(s, p, k, ProcChan(INIT)), p, WakingInit(j, k + 1));
    } else {
      WakeInitOnKeeps(s, p, Reparenting(j + 1));
    }
  }

  lemma WakeInitOnKeeps(s: Sys, p: nat, pc: Pc)
    requires Inv(s) && p < |s.pc| && s.pc[p].WakingInit?
    requires if s.pc[p].k < |s.pc| then pc == WakingInit(s.pc[p].j, s.pc[p].k + 1) else pc == Reparenting(s.pc[p].j + 1)
    requires s.pc[p].k == INIT != p ==> !WaitsOn(s.pc[INIT], s.st[INIT], ProcChan(INIT))
    ensures Inv(At(s, p, pc))
  {
    var t := At(s, p, pc);
    assert ExitOk(s, p, INIT);
    assert ProcOk(s, p);
    ProcsFrame(s, t, p);
    LocksFrame(s, t, p);
    forall q: nat, c: nat ensures ChildWait(t, q, c) && ExitOk(t, q, c) {
      assert ChildWait(s, q, c) && ExitOk(s, q, c) && ExitOk(s, p, c) && ExitOk(s, p, q) && ProcOk(s, q) && ProcOk(s, c);
    }
  }

  /** One slot of the wakeup of the parent. */
  lemma WakeParentKeeps(s: Sys, p: nat)
    requires Inv(s) && Enabled(s, WakeParent(p))
    ensures Inv(Next(s, WakeParent(p)))
  {
    var k := s.pc[p].k;
    if s.parent[p] >= 0 {
      WokeKeeps(s, p, k, ProcChan(s.parent[p]));
      WakeParentOnKeeps(Woke(s, p, k, ProcChan(s.parent[p])), p);
    } else {
      WakeParentOnKeeps(s, p);
    }
  }

  lemma WakeParentOnKeeps(s: Sys, p: nat)
    requires Inv(s) && p < |s.pc| && s.pc[p].WakingParent? && s.pc[p].k < |s.pc|
    requires s.parent[p] == s.pc[p].k != p ==> !WaitsOn(s.pc[s.pc[p].k], s.st[s.pc[p].k], ProcChan(s.pc[p].k))
    ensures Inv(At(s, p, WakingParent(s.pc[p].k + 1)))
  {
    var t := At(s, p, WakingParent(s.pc[p].k + 1));
    assert ProcOk(s, p);
    ProcsFrame(s, t, p);
    LocksFrame(s, t, p);
    forall c: nat ensures ChildRows(t, p, c) {
      assert ChildWait(s, p, c) && ExitOk(s, p, c) && ChildWait(s, c, p) && ExitOk(s, c, p) && ProcOk(s, c);
    }
    ChildrenStep(s, t, p);
  }

  /** One slot of reparent. */
  lemma ReparentKeeps(s: Sys, p: nat)
    requires Inv(s) && Enabled(s, Reparent(p))
    ensures Inv(Next(s, Reparent(p)))
  {
    var j := s.pc[p].j;
    if j >= |s.pc| {
      ReparentOnKeeps(s, p, WakingParent(0));
    } else if s.parent[j] == p {
      AdoptKeeps(s, p);
    } else {
      ReparentOnKeeps(s, p, Reparenting(j + 1));
    }
  }

  lemma ReparentOnKeeps(s: Sys, p: nat, pc: Pc)
    requires Inv(s) && p < |s.pc| && s.pc[p].Reparenting? && (pc == WakingParent(0) || pc.Reparenting?)
    ensures Inv(At(s, p, pc))
  {
    var t := At(s, p, pc);
    assert ProcOk(s, p);
    ProcsFrame(s, t, p);
    LocksFrame(s, t, p);
    forall c: nat ensures ChildRows(t, p, c) {
      assert ChildWait(s, p, c) && ExitOk(s, p, c) && ChildWait(s, c, p) && ExitOk(s, c, p) && ProcOk(s, c);
    }
    ChildrenStep(s, t, p);
  }

  /** A child goes to init, which may be waiting: its wakeup comes next. */
  lemma AdoptKeeps(s: Sys, p: nat)
    requires Inv(s) && p < |s.pc| && s.pc[p].Reparenting? && s.pc[p].j < |s.pc|
    ensures Inv(At(s, p, WakingInit(s.pc[p].j, 0)).(parent := s.parent[s.pc[p].j := INIT]))
  {
    var t := At(s, p, WakingInit(s.pc[p].j, 0)).(parent := s.parent[s.pc[p].j := INIT]);
    assert ProcOk(s, p);
    ProcsFrame(s, t, p);
    LocksFrame(s, t, p);
    AdoptChildren(s, p);
  }

  lemma AdoptChildren(s: Sys, p: nat)
    requires ProcsOk(s) && ChildrenOk(s) && p < |s.pc| && s.pc[p].Reparenting? && s.pc[p].j < |s.pc|
    ensures ChildrenOk(At(s, p, WakingInit(s.pc[p].j, 0)).(parent := s.parent[s.pc[p].j := INIT]))
  {
    var t := At(s, p, WakingInit(s.pc[p].j, 0)).(parent := s.parent[s.pc[p].j := INIT]);
    assert ProcOk(s, p);
    forall q: nat, c: nat ensures ChildWait(t, q, c) && ExitOk(t, q, c) {
      assert ChildWait(s, q, c) && ExitOk(s, q, c) && ProcOk(s, q) && ProcOk(s, c);
    }
  }

  /** acquiresleep tests the lock, and takes it if it is free. */
  lemma TestKeeps(s: Sys, p: nat)
    requires Inv(s) && Enabled(s, Test(p))
    ensures Inv(Next(s, Test(p)))
  {
    var l := s.pc[p].l;
    assert ProcOk(s, p);
    if s.locked[l] {
      var t := At(s, p, Sleep1(LockChan(l)));
      assert ProcOk(s, p);
      ProcsFrame(s, t, p);
      forall q: nat, m: nat ensures LkOk(t, q, m) && HolderOk(t, q, m) && LockWait(t, m, q) {
        assert LkOk(s, q, m) && HolderOk(s, q, m) && LockWait(s, m, q) && LkOk(s, p, m);
      }
      ChildrenFrame(s, t, p);
    } else {
      TakeKeeps(s, p, l);
    }
  }

  lemma TakeKeeps(s: Sys, p: nat, l: nat)
    requires Inv(s) && p < |s.pc| && s.pc[p] == Testing(l) && l < |s.lk| && !s.locked[l]
    ensures Inv(At(SetLk(s, l, -1), p, Idle).(
                  locked := s.locked[l := true], owner := s.owner[l := p], holds := s.holds[p := s.holds[p] + {l}]))
  {
    var t := At(SetLk(s, l, -1), p, Idle).(
      locked := s.locked[l := true], owner := s.owner[l := p], holds := s.holds[p := s.holds[p] + {l}]);
    assert ProcOk(s, p);
    ProcsFrame(s, t, p);
    forall q: nat, m: nat ensures LkOk(t, q, m) && HolderOk(t, q, m) && LockWait(t, m, q) {
      assert LkOk(s, q, m) && HolderOk(s, q, m) && LockWait(s, m, q) && LkOk(s, p, m);
    }
    ChildrenFrame(s, t, p);
  }

  /** freeproc of a zombie takes away a child, and nothing else. */
  lemma ReapedKeeps(s: Sys, c: nat)
    requires Inv(s) && c < |s.pc| && s.pc[c] == Dead
    ensures Inv(Reaped(s, c))
  {
    var t := Reaped(s, c);
    assert ProcOk(s, c);
    forall q: nat ensures ProcOk(t, q) { assert ProcOk(s, q); }
    forall q: nat, r: nat ensures ForkOk(t, q, r) { assert ForkOk(s, q, r) && ForkOk(s, q, c); }
    LocksFrame(s, t, c);
    forall q: nat, d: nat ensures ChildWait(t, q, d) && ExitOk(t, q, d) {
      assert ChildWait(s, q, d) && ExitOk(s, q, d) && ProcOk(s, q);
    }
  }

  /** The end of kwait for a process that leaves. */
  lemma LeaveKeeps(s: Sys, p: nat)
    requires Inv(s) && p < |s.pc| && s.pc[p].Scanning?
    ensures Inv(At(s, p, Idle).(waitlock := -1))
  {
    var t := At(s, p, Idle).(waitlock := -1);
    assert ProcOk(s, p);
    ProcsFrame(s, t, p);
    LocksFrame(s, t, p);
    forall c: nat ensures ChildRows(t, p, c) {
      assert ChildWait(s, p, c) && ExitOk(s, p, c) && ChildWait(s, c, p) && ExitOk(s, c, p) && ProcOk(s, c);
    }
    ChildrenStep(s, t, p);
  }

  /** One slot of the scan in kwait. */
  lemma WaitScanKeeps(s: Sys, p: nat, bad: bool)
    requires Inv(s) && Enabled(s, WaitScan(p, bad))
    ensures Inv(Next(s, WaitScan(p, bad)))
  {
    var j := s.pc[p].j;
    if s.parent[j] == p && s.st[j] == ZOMBIE {
      assert ProcOk(s, j) && ProcOk(s, p);
      LeaveKeeps(s, p);
      if !bad {
        ReapedKeeps(At(s, p, Idle).(waitlock := -1), j);
      }
    } else {
      ScanOnKeeps(s, p, s.pc[p].kids || s.parent[j] == p);
    }
  }

  lemma ScanOnKeeps(s: Sys, p: nat, kids: bool)
    requires Inv(s) && p < |s.pc| && s.pc[p].Scanning? && s.pc[p].j < |s.pc|
    requires s.parent[s.pc[p].j] == p ==> s.st[s.pc[p].j] != ZOMBIE
    ensures Inv(At(s, p, Scanning(s.pc[p].j + 1, kids)))
  {
    var t := At(s, p, Scanning(s.pc[p].j + 1, kids));
    assert ProcOk(s, p);
    ProcsFrame(s, t, p);
    LocksFrame(s, t, p);
    ScanOnChildren(s, p, kids);
  }

  lemma ScanOnChildren(s: Sys, p: nat, kids: bool)
    requires Inv(s) && p < |s.pc| && s.pc[p].Scanning? && s.pc[p].j < |s.pc|
    requires s.parent[s.pc[p].j] == p ==> s.st[s.pc[p].j] != ZOMBIE
    ensures ChildrenOk(At(s, p, Scanning(s.pc[p].j + 1, kids)))
  {
    var t := At(s, p, Scanning(s.pc[p].j + 1, kids));
    forall c: nat ensures ChildRows(t, p, c) {
      assert ChildWait(s, p, c) && ExitOk(s, p, c) && ChildWait(s, c, p) && ExitOk(s, c, p) && ProcOk(s, c);
    }
    ChildrenStep(s, t, p);
  }

  /** kfork makes the child runnable. */
  lemma ForkRunKeeps(s: Sys, p: nat)
    requires Inv(s) && Enabled(s, ForkRun(p))
    ensures Inv(Next(s, ForkRun(p)))
  {
    var c := s.pc[p].c;
    assert ProcOk(s, p) && ProcOk(s, c) && ForkOk(s, p, c);
    ForkedKeeps(s, p);
    var m := At(s, p, Idle);
    forall q | 0 <= q < |m.pc| ensures !(Forks(m.pc[q]) && m.pc[q].c == c) {
      assert ForkOk(s, p, q);
    }
    StartedKeeps(m, c);
    assert At(m, c, Idle).pc == At(At(s, c, Idle), p, Idle).pc;
  }

  /** A new process starts: nobody is making it any more. */
  lemma StartedKeeps(s: Sys, p: nat)
    requires Inv(s) && p < |s.pc| && s.pc[p] == Off && forall q :: 0 <= q < |s.pc| ==> !(Forks(s.pc[q]) && s.pc[q].c == p)
    ensures Inv(At(s, p, Idle).(st := s.st[p := RUNNABLE]))
  {
    var t := At(s, p, Idle).(st := s.st[p := RUNNABLE]);
    assert ProcOk(s, p);
    forall q: nat ensures ProcOk(t, q) { assert ProcOk(s, q); }
    forall q: nat, r: nat ensures ForkOk(t, q, r) { assert ForkOk(s, q, r); }
    LocksFrame(s, t, p);
    ChildrenFrame(s, t, p);
  }

  /** The parent is done with fork, but for the child's state. */
  lemma ForkedKeeps(s: Sys, p: nat)
    requires Inv(s) && p < |s.pc| && s.pc[p].Forking2?
    ensures Inv(At(s, p, Idle))
  {
    var t := At(s, p, Idle);
    assert ProcOk(s, p);
    ProcsFrame(s, t, p);
    LocksFrame(s, t, p);
    ChildrenFrame(s, t, p);
  }

  // ---------------------------------------------------------------- every run

  predicate IsSleepStep(step: Step) {
    step.AcquireSpin? || step.Test? || step.SleepLock? || step.SleepUnlock? || step.SleepSwitch? || step.Resume? || step.Tidy? || step.Reacquire? || step.ReleaseSpin? || step.Clear? || step.Wake? || step.ReleaseDone?
  }

  predicate IsExitStep(step: Step) {
    step.ExitSpin? || step.Reparent? || step.WakeInit? || step.WakeParent? || step.ExitLock? || step.ExitZombie? || step.ExitUnlock? || step.ExitSwitch?
  }

  /** sleep, and sleep locks. */
  lemma SleepStepKeeps(s: Sys, step: Step)
    requires Inv(s) && Enabled(s, step) && IsSleepStep(step)
    ensures Inv(Next(s, step))
  {
    match step
    case AcquireSpin(p, l) => AcquireSpinKeeps(s, p, l);
    case Test(p) => TestKeeps(s, p);
    case SleepLock(p) => SleepLockKeeps(s, p);
    case SleepUnlock(p) => SleepUnlockKeeps(s, p);
    case SleepSwitch(p) => SleepSwitchKeeps(s, p);
    case Resume(p) => ResumeKeeps(s, p);
    case Tidy(p) => TidyKeeps(s, p);
    case Reacquire(p) => ReacquireKeeps(s, p);
    case ReleaseSpin(p, l) => ReleaseSpinKeeps(s, p, l);
    case Clear(p) => ClearKeeps(s, p);
    case Wake(p) => WakeKeeps(s, p);
    case ReleaseDone(p) => ReleaseDoneKeeps(s, p);
  }

  /** kexit. */
  lemma ExitStepKeeps(s: Sys, step: Step)
    requires Inv(s) && Enabled(s, step) && IsExitStep(step)
    ensures Inv(Next(s, step))
  {
    match step
    case ExitSpin(p) => ExitSpinKeeps(s, p);
    case Reparent(p) => ReparentKeeps(s, p);
    case WakeInit(p) => WakeInitKeeps(s, p);
    case WakeParent(p) => WakeParentKeeps(s, p);
    case ExitLock(p) => ExitLockKeeps(s, p);
    case ExitZombie(p) => ExitZombieKeeps(s, p);
    case ExitUnlock(p) => ExitUnlockKeeps(s, p);
    case ExitSwitch(p) => ExitSwitchKeeps(s, p);
  }

  /** kwait, kfork, kkill and the scheduler. */
  lemma WaitStepKeeps(s: Sys, step: Step)
    requires Inv(s) && Enabled(s, step) && !IsSleepStep(step) && !IsExitStep(step)
    ensures Inv(Next(s, step))
  {
    match step
    case WaitSpin(p) => WaitSpinKeeps(s, p);
    case WaitScan(p, bad) => WaitScanKeeps(s, p, bad);
    case WaitEnd(p, killed) => WaitEndKeeps(s, p, killed);
    case ForkAlloc(p, c) => ForkAllocKeeps(s, p, c);
    case ForkParent(p) => ForkParentKeeps(s, p);
    case ForkRun(p) => ForkRunKeeps(s, p);
    case Preempt(p) => PreemptKeeps(s, p);
    case Kill(p, i) => KillKeeps(s, p, i);
  }

  lemma StepKeeps(s: Sys, step: Step)
    requires Inv(s) && Enabled(s, step)
    ensures Inv(Next(s, step))
  {
    if IsSleepStep(step) {
      SleepStepKeeps(s, step);
    } else if IsExitStep(step) {
      ExitStepKeeps(s, step);
    } else {
      WaitStepKeeps(s, step);
    }
  }

  /** Init alone, with every lock free. */
  ghost predicate Initial(s: Sys) {
    && Sized(s) && s.waitlock == -1
    && (forall p :: 0 <= p < |s.pc| ==>
          && s.pc[p] == (if p == INIT then Idle else Off) && s.st[p] == (if p == INIT then RUNNABLE else UNUSED)
          && s.parent[p] == -1 && !s.plock[p] && s.holds[p] == {})
    && (forall l :: 0 <= l < |s.lk| ==> s.lk[l] == -1 && !s.locked[l])
  }

  /** Any number of processes and sleep locks, in any interleaving. */
  ghost predicate IsRun(trace: seq<Sys>, steps: seq<Step>) {
    && |trace| == |steps| + 1 && Initial(trace[0])
    && forall k :: 0 <= k < |steps| ==> Follows(trace[k], steps[k], trace[k + 1])
  }

  ghost predicate Follows(s: Sys, step: Step, t: Sys) {
    Sized(s) && Enabled(s, step) && t == Next(s, step)
  }

  lemma InitialInv(s: Sys)
    requires Initial(s)
    ensures Inv(s)
  {
    forall p: nat ensures ProcOk(s, p) {}
    forall p: nat, q: nat ensures ForkOk(s, p, q) {}
    forall p: nat, l: nat ensures LkOk(s, p, l) && HolderOk(s, p, l) && LockWait(s, l, p) {}
    forall p: nat, c: nat ensures ChildWait(s, p, c) && ExitOk(s, p, c) {}
  }

  lemma {:induction false} RunInv(trace: seq<Sys>, steps: seq<Step>, k: nat)
    requires IsRun(trace, steps) && k < |trace|
    ensures Inv(trace[k])
  {
    if k == 0 {
      InitialInv(trace[0]);
    } else {
      RunInv(trace, steps, k - 1);
      assert Follows(trace[k - 1], steps[k - 1], trace[k]);
      StepKeeps(trace[k - 1], steps[k - 1]);
    }
  }

  /** While wait_lock is free, no process sleeps in kwait with a zombie child, adopted or its own. */
  lemma NoLostExit(trace: seq<Sys>, steps: seq<Step>, k: nat, p: nat, c: nat)
    requires IsRun(trace, steps) && k < |trace| && Sized(trace[k]) && p < |trace[k].pc| && c < |trace[k].pc|
    requires trace[k].waitlock == -1 && trace[k].st[p] == SLEEPING && trace[k].chan[p] == ProcChan(p) && trace[k].parent[c] == p
    ensures trace[k].st[c] != ZOMBIE
  {
    RunInv(trace, steps, k);
    assert ProcOk(trace[k], p) && ChildWait(trace[k], p, c);
  }

  /** While a sleep lock's spin lock is free, no process sleeps on it unless it is locked. */
  lemma NoLostRelease(trace: seq<Sys>, steps: seq<Step>, k: nat, i: nat, l: nat)
    requires IsRun(trace, steps) && k < |trace| && Sized(trace[k]) && i < |trace[k].pc| && l < |trace[k].lk|
    requires trace[k].lk[l] == -1 && trace[k].st[i] == SLEEPING && trace[k].chan[i] == LockChan(l)
    ensures trace[k].locked[l]
  {
    RunInv(trace, steps, k);
    assert ProcOk(trace[k], i) && LockWait(trace[k], l, i);
  }

  /** At most one process holds a sleep lock, and it is the one that holdingsleep names. */
  lemma OneHolder(trace: seq<Sys>, steps: seq<Step>, k: nat, p: nat, q: nat, l: nat)
    requires IsRun(trace, steps) && k < |trace| && Sized(trace[k]) && p < |trace[k].pc| && q < |trace[k].pc| && l < |trace[k].lk|
    ensures l in trace[k].holds[p] <==> trace[k].locked[l] && trace[k].owner[l] == p
    ensures l in trace[k].holds[p] && l in trace[k].holds[q] ==> p == q
  {
    RunInv(trace, steps, k);
    assert HolderOk(trace[k], p, l) && HolderOk(trace[k], q, l);
  }

  /** Spin locks exclude: at most one process is between acquire and release of wait_lock, or of a sleep lock's lock. */
  lemma OneInside(trace: seq<Sys>, steps: seq<Step>, k: nat, p: nat, q: nat, l: nat)
    requires IsRun(trace, steps) && k < |trace| && Sized(trace[k]) && p < |trace[k].pc| && q < |trace[k].pc| && l < |trace[k].lk|
    ensures HoldsWait(trace[k].pc[p]) && HoldsWait(trace[k].pc[q]) ==> p == q
    ensures HoldsLk(trace[k].pc[p], l) && HoldsLk(trace[k].pc[q], l) ==> p == q
  {
    RunInv(trace, steps, k);
    assert ProcOk(trace[k], p) && ProcOk(trace[k], q) && LkOk(trace[k], p, l) && LkOk(trace[k], q, l);
  }
}
