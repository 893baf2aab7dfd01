/** Processes and the pages they hold: every physical page is free, or serves one process in one way. */
module ProcSpec {
  import opened PageSpec
  import opened PageSteps
  import opened PageRanges
  import opened PageViews
  import opened UserImage
  import opened Pager

  /** The part of struct proc that holds memory; 0 is a null pointer. */
  datatype Proc = Proc(pagetable: nat, sz: nat, trapframe: nat)

  const UNUSED: Proc := Proc(0, 0, 0)

  /** The entries for the trampoline, whose code lies outside the managed pages, and for the trapframe. */
  function TrampPte(tramp: nat): Pte {
    Pte(tramp, true, true, false, true, false)
  }

  function FramePte(frame: nat): Pte {
    Pte(frame, true, true, true, false, false)
  }

  /** A page table of a process: user pages below sz, and the two pages for the kernel. */
  ghost predicate TableOk(s: Vm, tramp: nat, frame: nat, r: nat, sz: nat) {
    Proper(s, r, sz) && Lookup(s.mem, r, TRAMP_IDX) == TrampPte(tramp) && Lookup(s.mem, r, TRAP_IDX) == FramePte(frame)
  }

  ghost predicate ProcOk(s: Vm, procs: seq<Proc>, tramp: nat, i: nat)
    requires i < |procs|
  {
    procs[i] != UNUSED ==>
      && procs[i].trapframe in s.own && s.own[procs[i].trapframe] == Frame(i)
      && TableOk(s, tramp, procs[i].trapframe, procs[i].pagetable, procs[i].sz)
  }

  /** Page p is free, or some process has it. */
  ghost predicate OwnedOk(s: Vm, procs: seq<Proc>, p: nat) {
    p in s.own ==>
      && s.own[p] != Held
      && (s.own[p].Frame? ==> s.own[p].owner < |procs| && procs[s.own[p].owner].trapframe == p)
      && (s.own[p] == Top ==> exists i :: 0 <= i < |procs| && procs[i].pagetable == p)
  }

  ghost predicate KInv(s: Vm, procs: seq<Proc>, tramp: nat) {
    && Inv(s)
    && (forall i {:trigger ProcOk(s, procs, tramp, i)} :: 0 <= i < |procs| ==> ProcOk(s, procs, tramp, i))
    && (forall p: nat {:trigger OwnedOk(s, procs, p)} :: OwnedOk(s, procs, p))
    && (forall i, j :: 0 <= i < |procs| && 0 <= j < |procs| && i != j && procs[i].pagetable != 0 ==>
          procs[i].pagetable != procs[j].pagetable)
  }

  // ---------------------------------------------------------------- the free set comes back

  /** The same pages are free, every other page has the use it had, and all tables show what they did. */
  ghost predicate Restored(s: Vm, t: Vm) {
    && t.own == s.own && t.lo == s.lo && |t.mem| == |s.mem| && Inv(t)
    && (forall p :: p in s.own && s.own[p].Frame? && p < |s.mem| && p < |t.mem| ==> t.mem[p] == s.mem[p])
    && forall r: nat, y: Idx {:trigger ShownSame(s, t, r, y)} :: ShownSame(s, t, r, y)
  }

  ghost predicate ShownSame(s: Vm, t: Vm, r: nat, y: Idx) {
    IsTop(s, r) ==> (IdxOk(y) ==> Lookup(t.mem, r, y) == Lookup(s.mem, r, y)) && (UserIdx(y) ==> At(t, r, y) == At(s, r, y))
  }

  /** A tree that was built and then torn down leaves no trace. */
  lemma TornDown(s: Vm, t: Vm, r: nat)
    requires Inv(s) && Gone(s, t, r) && r in s.own && s.own[r] == Free
    ensures Restored(s, t)
  {
    forall p | p in s.own ensures p in t.own && t.own[p] == s.own[p] && (s.own[p].Frame? && p < |s.mem| && p < |t.mem| ==> t.mem[p] == s.mem[p]) {
      NobodysYet(s, r, p);
      assert ChangeAt(s, t, r, p);
    }
    assert t.own.Keys == s.own.Keys;
    forall q: nat, y: Idx ensures ShownSame(s, t, q, y) {
      assert OtherAt(s, t, r, q, y);
    }
  }

  /** While page r is free, no page belongs to a tree with root r. */
  lemma NobodysYet(s: Vm, r: nat, p: nat)
    requires Inv(s) && r in s.own && s.own[r] == Free && p in s.own
    ensures !Mine(s.own[p], p, r)
  {
    assert PageOk(s, p);
  }

  /** A table that is not touched stays as it is for its process. */
  lemma TableStays(s: Vm, t: Vm, r: nat, tramp: nat, frame: nat, q: nat, sz: nat)
    requires Did(s, t, r) && q != r && TableOk(s, tramp, frame, q, sz)
    ensures TableOk(t, tramp, frame, q, sz) && Image(t, q, sz) == Image(s, q, sz)
  {
    assert OtherAt(s, t, r, q, TRAMP_IDX) && OtherAt(s, t, r, q, TRAP_IDX);
    forall y | IdxOk(y) && Lookup(t.mem, q, y) != NO_PTE
      ensures if Special(y) then !Lookup(t.mem, q, y).u else InRange(y, 0, Up(sz))
    {
      assert OtherAt(s, t, r, q, y);
    }
    var a, b := Image(t, q, sz), Image(s, q, sz);
    forall v | 0 <= v < |a| ensures a[v] == b[v] {
      PageBelow(v, sz);
      assert OtherAt(s, t, r, q, IdxOf(v));
    }
  }

  /** Restored tables too. */
  lemma TableBack(s: Vm, t: Vm, tramp: nat, frame: nat, q: nat, sz: nat)
    requires Restored(s, t) && TableOk(s, tramp, frame, q, sz)
    ensures TableOk(t, tramp, frame, q, sz) && Image(t, q, sz) == Image(s, q, sz)
  {
    assert ShownSame(s, t, q, TRAMP_IDX) && ShownSame(s, t, q, TRAP_IDX);
    forall y | IdxOk(y) && Lookup(t.mem, q, y) != NO_PTE
      ensures if Special(y) then !Lookup(t.mem, q, y).u else InRange(y, 0, Up(sz))
    {
      assert ShownSame(s, t, q, y);
    }
    var a, b := Image(t, q, sz), Image(s, q, sz);
    forall v | 0 <= v < |a| ensures a[v] == b[v] {
      PageBelow(v, sz);
      assert ShownSame(s, t, q, IdxOf(v));
    }
  }

  /** A failed operation keeps the promise about pages. */
  lemma RestoredKeeps(s: Vm, t: Vm, procs: seq<Proc>, tramp: nat)
    requires KInv(s, procs, tramp) && Restored(s, t)
    ensures KInv(t, procs, tramp)
  {
    forall i | 0 <= i < |procs| ensures ProcOk(t, procs, tramp, i) {
      assert ProcOk(s, procs, tramp, i);
      if procs[i] != UNUSED {
        TableBack(s, t, tramp, procs[i].trapframe, procs[i].pagetable, procs[i].sz);
      }
    }
    forall p: nat ensures OwnedOk(t, procs, p) { assert OwnedOk(s, procs, p); }
  }

  // ---------------------------------------------------------------- the kernel's two pages

  /** mappages of a page for the kernel: no page changes hands. */
  lemma SpecialMapped(s: Vm, t: Vm, r: nat, x: Idx, v: nat, e: Pte)
    requires Inv(s) && Inv(t) && IsTop(s, r) && Special(x) && x == IdxOf(v) && IdxOk(x) && Vpn(x) == v
    requires RangeSet(s, t, r, v, 1, e) && UsesSet(s, t, r, v, 1, e)
    ensures Did(s, t, r) && MapsSet(s, t, r, x, e) && (forall y :: UserIdx(y) && At(s, r, y) == None ==> At(t, r, y) == None)
  {
    OneSet(s, t, r, v, e, x);
    forall p: nat ensures ChangeAt(s, t, r, p) {
      assert UseSetAt(s, t, r, x, e, p);
    }
    forall r': nat, y: Idx ensures SameFor(s, t, r, r', y) {
      assert SetAt(s, t, r, x, e, r', y) && SetAt(s, t, r, x, e, r', TRAMP_IDX);
    }
    OthersFollow(s, t, r);
    forall y | UserIdx(y) && At(s, r, y) == None ensures At(t, r, y) == None {
      assert SetAt(s, t, r, x, e, r, y);
    }
  }

  /** uvmunmap of a page for the kernel, without freeing. */
  lemma SpecialUnmapped(s: Vm, t: Vm, r: nat, x: Idx, v: nat)
    requires Inv(t) && Special(x) && IdxOk(x) && Vpn(x) == v && Unmapped(s, t, r, v, 1, Held)
    ensures Did(s, t, r) && MapsSet(s, t, r, x, NO_PTE)
  {
    forall p: nat ensures ChangeAt(s, t, r, p) {
      assert KeptAt(s, t, p) && PageOk(s, p);
      if p in s.own && s.own[p].User? && Vpn(s.own[p].idx) == v { VpnInjective(s.own[p].idx, x); }
    }
    forall r': nat, y: Idx ensures SetAt(s, t, r, x, NO_PTE, r', y) {
      assert ClearAt(s, t, r, v, 1, r', y);
      if IdxOk(y) && Vpn(y) == v { VpnInjective(y, x); }
    }
    forall r': nat, y: Idx ensures SameFor(s, t, r, r', y) {
      assert SetAt(s, t, r, x, NO_PTE, r', y) && SetAt(s, t, r, x, NO_PTE, r', TRAMP_IDX);
    }
    OthersFollow(s, t, r);
  }

  // ---------------------------------------------------------------- a process in the making

  /** Since s, process j has got trapframe f and the tree r, and nothing else has changed. */
  ghost predicate Made(s: Vm, t: Vm, r: nat, f: nat, j: nat) {
    && Inv(s) && Inv(t) && t.lo == s.lo && |t.mem| == |s.mem| && r != f
    && f in s.own && s.own[f] == Free && f in t.own && t.own[f] == Frame(j)
    && (forall p: nat {:trigger ChangeAt(s, t, r, p)} :: p != f ==> ChangeAt(s, t, r, p))
    && OthersSame(s, t, r)
  }

  lemma MadeMore(s: Vm, t: Vm, u: Vm, r: nat, f: nat, j: nat)
    requires Made(s, t, r, f, j) && Did(t, u, r)
    ensures Made(s, u, r, f, j)
  {
    forall p: nat | p != f ensures ChangeAt(s, u, r, p) {
      assert ChangeAt(s, t, r, p) && ChangeAt(t, u, r, p);
    }
    assert ChangeAt(t, u, r, f);
    forall r': nat, y: Idx ensures OtherAt(s, u, r, r', y) {
      assert OtherAt(s, t, r, r', y) && OtherAt(t, u, r, r', y);
    }
  }

  /** kalloc of a trapframe page, for any tree that does not exist yet. */
  lemma FrameMade(s: Vm, junk: Page, j: nat, r: nat)
    requires Inv(s) && s.freelist != [] && junk.Bytes? && |junk.bytes| == PGSIZE
    ensures s.freelist[0] < |s.mem| && s.freelist[0] in s.own
    ensures var t := Reused(Taken(s, junk), s.freelist[0], junk, Frame(j));
            Inv(t) && SameMaps(s, t) && (r != s.freelist[0] && !IsTop(s, r) ==> Made(s, t, r, s.freelist[0], j))
  {
    var f := s.freelist[0];
    TakenKeeps(s, junk);
    var t := Reused(Taken(s, junk), f, junk, Frame(j));
    ReusedKeeps(Taken(s, junk), f, junk, Frame(j));
    SameMore(s, Taken(s, junk), t);
    if r != f && !IsTop(s, r) {
      forall p: nat | p != f ensures ChangeAt(s, t, r, p) {
        assert PageOk(s, p);
        if p in s.own { NotMine(s, r, p); }
      }
      forall r': nat, y: Idx ensures OtherAt(s, t, r, r', y) {
        assert SameAt(s, t, r', y) && SameAt(s, t, r', TRAMP_IDX);
        if IsTop(s, r') && UserIdx(y) && Lookup(s.mem, r', y) != NO_PTE {
          Mapped(s, r', y);
        }
      }
    }
  }

  lemma NotMine(s: Vm, r: nat, p: nat)
    requires Inv(s) && !IsTop(s, r) && p in s.own
    ensures !Mine(s.own[p], p, r)
  {
    assert PageOk(s, p);
  }

  /** When the process is undone, trapframe first and then tree, the free set is what it was. */
  lemma Unmade(s: Vm, t: Vm, u: Vm, r: nat, f: nat, j: nat, junk: Page)
    requires Made(s, t, r, f, j) && r in s.own && s.own[r] == Free && f < |t.mem| && Gone(Given(t, f, junk), u, r)
    ensures Restored(s, u)
  {
    var g := Given(t, f, junk);
    GivenKeeps(t, f, junk);
    forall p | p in s.own
      ensures p in u.own && u.own[p] == s.own[p] && (s.own[p].Frame? && p < |s.mem| && p < |u.mem| ==> u.mem[p] == s.mem[p])
    {
      NobodysYet(s, r, p);
      assert ChangeAt(g, u, r, p);
      if p != f { assert ChangeAt(s, t, r, p); }
    }
    assert u.own.Keys == s.own.Keys;
    forall q: nat, y: Idx ensures ShownSame(s, u, q, y) {
      assert OtherAt(s, t, r, q, y) && OtherAt(g, u, r, q, y) && SameAt(t, g, q, y) && SameAt(t, g, q, TRAMP_IDX);
      if IsTop(s, q) && UserIdx(y) && Lookup(t.mem, q, y) != NO_PTE {
        Mapped(t, q, y);
      }
    }
  }

  /** A process that is complete joins the others. */
  lemma Joins(s: Vm, t: Vm, procs: seq<Proc>, tramp: nat, j: nat, r: nat, f: nat, sz: nat)
    requires KInv(s, procs, tramp) && j < |procs| && procs[j] == UNUSED && r in s.own && s.own[r] == Free && r != 0
    requires Made(s, t, r, f, j) && TableOk(t, tramp, f, r, sz)
    ensures KInv(t, procs[j := Proc(r, sz, f)], tramp)
  {
    var procs' := procs[j := Proc(r, sz, f)];
    forall i | 0 <= i < |procs'| ensures ProcOk(t, procs', tramp, i) {
      assert ProcOk(s, procs, tramp, i);
      if i != j && procs[i] != UNUSED {
        TableStaysMade(s, t, r, f, j, tramp, procs[i].trapframe, procs[i].pagetable, procs[i].sz);
        assert ChangeAt(s, t, r, procs[i].trapframe);
      }
    }
    forall p: nat ensures OwnedOk(t, procs', p) {
      assert OwnedOk(s, procs, p);
      if p in s.own { NobodysYet(s, r, p); }
      if p != f { assert ChangeAt(s, t, r, p); }
      if p in t.own && t.own[p] == Top {
        if p == r {
          assert procs'[j].pagetable == p;
        } else {
          var i :| 0 <= i < |procs| && procs[i].pagetable == p;
          assert procs'[i].pagetable == p;
        }
      }
    }
    forall i, k | 0 <= i < |procs'| && 0 <= k < |procs'| && i != k && procs'[i].pagetable != 0
      ensures procs'[i].pagetable != procs'[k].pagetable
    {
      assert ProcOk(s, procs, tramp, i) && ProcOk(s, procs, tramp, k);
    }
  }

  lemma TableStaysMade(s: Vm, t: Vm, r: nat, f: nat, j: nat, tramp: nat, frame: nat, q: nat, sz: nat)
    requires Made(s, t, r, f, j) && q != r && TableOk(s, tramp, frame, q, sz)
    ensures TableOk(t, tramp, frame, q, sz) && Image(t, q, sz) == Image(s, q, sz)
  {
    assert OtherAt(s, t, r, q, TRAMP_IDX) && OtherAt(s, t, r, q, TRAP_IDX);
    forall y | IdxOk(y) && Lookup(t.mem, q, y) != NO_PTE
      ensures if Special(y) then !Lookup(t.mem, q, y).u else InRange(y, 0, Up(sz))
    {
      assert OtherAt(s, t, r, q, y);
    }
    var a, b := Image(t, q, sz), Image(s, q, sz);
    forall v | 0 <= v < |a| ensures a[v] == b[v] {
      PageBelow(v, sz);
      assert OtherAt(s, t, r, q, IdxOf(v));
    }
  }

  /** An operation on the table of process i. */
  lemma Serves(s: Vm, t: Vm, procs: seq<Proc>, tramp: nat, i: nat, sz: nat)
    requires KInv(s, procs, tramp) && i < |procs| && procs[i] != UNUSED && Did(s, t, procs[i].pagetable)
    requires Proper(t, procs[i].pagetable, sz) && KernelSame(s, t, procs[i].pagetable)
    ensures KInv(t, procs[i := procs[i].(sz := sz)], tramp)
  {
    var r := procs[i].pagetable;
    var procs' := procs[i := procs[i].(sz := sz)];
    assert ProcOk(s, procs, tramp, i);
    assert PageOk(s, r) && PageOk(s, procs[i].trapframe);
    forall k | 0 <= k < |procs'| ensures ProcOk(t, procs', tramp, k) {
      assert ProcOk(s, procs, tramp, k);
      if procs[k] != UNUSED {
        assert ChangeAt(s, t, r, procs[k].trapframe);
        if k != i { TableStays(s, t, r, tramp, procs[k].trapframe, procs[k].pagetable, procs[k].sz); }
      }
    }
    forall p: nat ensures OwnedOk(t, procs', p) {
      assert OwnedOk(s, procs, p) && ChangeAt(s, t, r, p) && PageOk(t, p);
      if p in t.own && t.own[p] == Top {
        var k :| 0 <= k < |procs| && procs[k].pagetable == p;
        assert procs'[k].pagetable == p;
      }
    }
  }

  /** Process i is freed: trapframe first, then tree. */
  lemma Leaves(s: Vm, u: Vm, procs: seq<Proc>, tramp: nat, i: nat, junk: Page)
    requires KInv(s, procs, tramp) && i < |procs| && procs[i] != UNUSED && procs[i].trapframe < |s.mem|
    requires Gone(Given(s, procs[i].trapframe, junk), u, procs[i].pagetable)
    ensures KInv(u, procs[i := UNUSED], tramp)
  {
    var r, f := procs[i].pagetable, procs[i].trapframe;
    assert ProcOk(s, procs, tramp, i);
    GivenKeeps(s, f, junk);
    var g := Given(s, f, junk);
    var procs' := procs[i := UNUSED];
    forall k | 0 <= k < |procs'| ensures ProcOk(u, procs', tramp, k) {
      assert ProcOk(s, procs, tramp, k);
      if k != i && procs[k] != UNUSED {
        assert ChangeAt(g, u, r, procs[k].trapframe);
        TableGiven(s, f, junk, tramp, procs[k].trapframe, procs[k].pagetable, procs[k].sz);
        TableStays(g, u, r, tramp, procs[k].trapframe, procs[k].pagetable, procs[k].sz);
      }
    }
    forall p: nat ensures OwnedOk(u, procs', p) {
      assert OwnedOk(s, procs, p) && ChangeAt(g, u, r, p);
      if p in u.own && u.own[p] == Top {
        var k :| 0 <= k < |procs| && procs[k].pagetable == p;
        assert procs'[k].pagetable == p;
      }
    }
  }

  lemma TableGiven(s: Vm, f: nat, junk: Page, tramp: nat, frame: nat, q: nat, sz: nat)
    requires Inv(s) && f in s.own && s.own[f].Frame? && f < |s.mem| && TableOk(s, tramp, frame, q, sz)
    ensures TableOk(Given(s, f, junk), tramp, frame, q, sz)
  {
    GivenKeeps(s, f, junk);
    var g := Given(s, f, junk);
    assert SameAt(s, g, q, TRAMP_IDX) && SameAt(s, g, q, TRAP_IDX);
    forall y | IdxOk(y) && Lookup(g.mem, q, y) != NO_PTE
      ensures if Special(y) then !Lookup(g.mem, q, y).u else InRange(y, 0, Up(sz))
    {
      assert SameAt(s, g, q, y);
    }
  }

  // ---------------------------------------------------------------- what it comes to

  /** Process i holds page p: as trapframe, as a table on some level, or as a user page. */
  ghost predicate Holds(s: Vm, procs: seq<Proc>, i: nat, p: nat) {
    && i < |procs| && procs[i] != UNUSED
    && (|| p == procs[i].trapframe
        || p == procs[i].pagetable
        || (exists a :: 0 <= a < NPTE && Child(s.mem, procs[i].pagetable, a) == p)
        || (exists a, b :: 0 <= a < NPTE && 0 <= b < NPTE && LowTable(s.mem, procs[i].pagetable, a, b) == p)
        || (exists x :: UserIdx(x) && Lookup(s.mem, procs[i].pagetable, x).v && Lookup(s.mem, procs[i].pagetable, x).ppn == p))
  }

  /** No page is lost: each is free, or some process holds it. */
  lemma Accounted(s: Vm, procs: seq<Proc>, tramp: nat, p: nat)
    requires KInv(s, procs, tramp) && s.lo <= p < |s.mem|
    ensures p in s.freelist || exists i :: Holds(s, procs, i, p)
  {
    assert OwnedOk(s, procs, p) && PageOk(s, p);
    match s.own[p]
    case Free =>
    case Frame(i) => assert ProcOk(s, procs, tramp, i) && Holds(s, procs, i, p);
    case Top =>
      var i :| 0 <= i < |procs| && procs[i].pagetable == p;
      assert Holds(s, procs, i, p);
    case Mid(r, a) =>
      assert OwnedOk(s, procs, r);
      var i :| 0 <= i < |procs| && procs[i].pagetable == r;
      assert PageOk(s, r) && Holds(s, procs, i, p);
    case Low(r, a, b) =>
      assert OwnedOk(s, procs, r);
      var i :| 0 <= i < |procs| && procs[i].pagetable == r;
      assert PageOk(s, r) && Holds(s, procs, i, p);
    case User(r, x) =>
      assert OwnedOk(s, procs, r);
      var i :| 0 <= i < |procs| && procs[i].pagetable == r;
      assert PageOk(s, r) && Holds(s, procs, i, p);
  }

  /** No page is shared: a process holds only pages that are its own. */
  lemma HeldIs(s: Vm, procs: seq<Proc>, tramp: nat, i: nat, p: nat)
    requires KInv(s, procs, tramp) && Holds(s, procs, i, p) && p != 0
    ensures p in s.own && (s.own[p] == Frame(i) || Mine(s.own[p], p, procs[i].pagetable))
  {
    assert ProcOk(s, procs, tramp, i);
    var r := procs[i].pagetable;
    if a :| 0 <= a < NPTE && Child(s.mem, r, a) == p {
      Down1(s, r, a);
    } else if a, b :| 0 <= a < NPTE && 0 <= b < NPTE && LowTable(s.mem, r, a, b) == p {
      Down0(s, r, a, b);
    } else if x :| UserIdx(x) && Lookup(s.mem, r, x).v && Lookup(s.mem, r, x).ppn == p {
      Mapped(s, r, x);
    }
  }

  lemma NotShared(s: Vm, procs: seq<Proc>, tramp: nat, i: nat, j: nat, p: nat)
    requires KInv(s, procs, tramp) && Holds(s, procs, i, p) && p != 0
    ensures p !in s.freelist && (Holds(s, procs, j, p) ==> i == j)
  {
    HeldIs(s, procs, tramp, i, p);
    if Holds(s, procs, j, p) {
      HeldIs(s, procs, tramp, j, p);
      assert ProcOk(s, procs, tramp, i) && ProcOk(s, procs, tramp, j);
      assert PageOk(s, procs[i].pagetable) && PageOk(s, procs[j].pagetable);
    }
  }
}
