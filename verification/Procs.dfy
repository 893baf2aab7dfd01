/** The memory side of kernel/proc.c and kernel/sysproc.c: page tables of processes, growth, fork and teardown. */
module Procs {
  import opened PageSpec
  import opened PageSteps
  import opened PageRanges
  import opened PageViews
  import opened UserImage
  import opened Pager
  import opened ProcSpec

  /** A tree with at most the kernel's two pages. */
  ghost predicate OnlyKernel(s: Vm, r: nat, a: Pte, b: Pte) {
    && IsTop(s, r)
    && forall y :: IdxOk(y) ==> Lookup(s.mem, r, y) == if y == TRAMP_IDX then a else if y == TRAP_IDX then b else NO_PTE
  }

  lemma KernelIndices()
    ensures TRAMPOLINE % PGSIZE == 0 && TRAPFRAME % PGSIZE == 0 && PGSIZE / PGSIZE == 1
    ensures IdxOf(TRAMPOLINE / PGSIZE) == TRAMP_IDX && Vpn(TRAMP_IDX) == TRAMPOLINE / PGSIZE
    ensures IdxOf(TRAPFRAME / PGSIZE) == TRAP_IDX && Vpn(TRAP_IDX) == TRAPFRAME / PGSIZE && Up(0) == 0
  {
  }

  lemma PxIs(va: nat, x: Idx)
    requires va in {TRAMPOLINE, TRAPFRAME} && x == IdxOf(va / PGSIZE)
    ensures Px(va) == x
  {
    SpecialPages(va);
    KernelIndices();
  }

  lemma OnlyKernelSet(s: Vm, t: Vm, r: nat, a: Pte, b: Pte, x: Idx, e: Pte)
    requires OnlyKernel(s, r, a, b) && MapsSet(s, t, r, x, e) && Special(x)
    ensures OnlyKernel(t, r, if x == TRAMP_IDX then e else a, if x == TRAP_IDX then e else b)
  {
    assert SetAt(s, t, r, x, e, r, x);
    forall y | IdxOk(y)
      ensures Lookup(t.mem, r, y) == if y == TRAMP_IDX then (if x == TRAMP_IDX then e else a)
                                     else if y == TRAP_IDX then (if x == TRAP_IDX then e else b) else NO_PTE
    {
      assert SetAt(s, t, r, x, e, r, y);
    }
  }

  lemma OnlyKernelSame(s: Vm, t: Vm, r: nat, a: Pte, b: Pte)
    requires OnlyKernel(s, r, a, b) && SameMaps(s, t)
    ensures OnlyKernel(t, r, a, b)
  {
    assert SameAt(s, t, r, TRAMP_IDX);
    forall y | IdxOk(y) ensures Lookup(t.mem, r, y) == if y == TRAMP_IDX then a else if y == TRAP_IDX then b else NO_PTE {
      assert SameAt(s, t, r, y);
    }
  }

  class Kernel {
    const vm: Memory
    const tramp: nat
    var procs: seq<Proc>

    ghost predicate Valid()
      reads this, vm
    {
      KInv(vm.S(), procs, tramp)
    }

    /** Before the first process: every page is free. */
    constructor (vm: Memory, nproc: nat, tramp: nat)
      requires vm.Valid() && forall p :: p in vm.own ==> vm.own[p] == Free
      ensures this.vm == vm && Valid() && procs == seq(nproc, _ => UNUSED)
    {
      this.vm, this.tramp := vm, tramp;
      procs := seq(nproc, _ => UNUSED);
      new;
      forall p: nat ensures OwnedOk(vm.S(), procs, p) {}
    }

    /** mappages of one page for the kernel. */
    method MapKernel(r: nat, va: nat, e: Pte, ghost x: Idx, ghost a: Pte, ghost b: Pte) returns (ok: bool)
      requires vm.Valid() && OnlyKernel(vm.S(), r, a, b) && va in {TRAMPOLINE, TRAPFRAME} && x == IdxOf(va / PGSIZE)
      requires (if x == TRAMP_IDX then a else b) == NO_PTE && e.v && Leaf(e)
      modifies vm
      ensures vm.Valid() && Did(old(vm.S()), vm.S(), r)
      ensures if ok then OnlyKernel(vm.S(), r, if x == TRAMP_IDX then e else a, if x == TRAP_IDX then e else b)
              else OnlyKernel(vm.S(), r, a, b)
      ensures Costs(old(vm.S()), vm.S(), Missing(old(vm.mem), r, x), ok)
    {
      ghost var s := vm.S();
      KernelIndices();
      PxIs(va, x);
      forall y | IdxOk(y) && InRange(y, va / PGSIZE, PGSIZE / PGSIZE) ensures Lookup(vm.mem, r, y) == NO_PTE {
        VpnInjective(x, y);
      }
      forall j | 0 <= j < PGSIZE / PGSIZE ensures Supplied(s, e, va / PGSIZE, j) {
        assert j == 0;
      }
      ghost var k;
      ok, k := vm.Mappages(r, va, PGSIZE, e);
      if ok {
        SpecialMapped(s, vm.S(), r, x, va / PGSIZE, e);
        OnlyKernelSet(s, vm.S(), r, a, b, x, e);
      } else {
        NoneMapped(s, vm.S(), r, va / PGSIZE, e);
        GrewShows(s, vm.S(), r, 0, None);
        OnlyKernelSame(s, vm.S(), r, a, b);
      }
    }

    /** uvmunmap of one page for the kernel. */
    method UnmapKernel(r: nat, va: nat, ghost x: Idx)
      requires vm.Valid() && IsTop(vm.S(), r) && va in {TRAMPOLINE, TRAPFRAME} && x == IdxOf(va / PGSIZE)
      modifies vm
      ensures vm.Valid() && IsTop(vm.S(), r) && Did(old(vm.S()), vm.S(), r) && MapsSet(old(vm.S()), vm.S(), r, x, NO_PTE)
    {
      ghost var s := vm.S();
      KernelIndices();
      vm.Uvmunmap(r, va, 1, false);
      SpecialUnmapped(s, vm.S(), r, x, va / PGSIZE);
      assert SetAt(s, vm.S(), r, x, NO_PTE, r, x);
    }

    /** proc_pagetable: a page table with the trampoline and the trapframe; 0, and no trace, when fewer than three pages are free.
        The trapframe's entry lies in the trampoline's table, so once that is made the second mappages cannot fail. */
    method ProcPagetable(frame: nat) returns (r: nat)
      requires vm.Valid()
      modifies vm
      ensures vm.Valid()
      ensures r == 0 ==> Restored(old(vm.S()), vm.S())
      ensures r != 0 ==>
                && r in old(vm.own) && old(vm.own)[r] == Free && Did(old(vm.S()), vm.S(), r)
                && TableOk(vm.S(), tramp, frame, r, 0)
      ensures r != 0 <==> |old(vm.freelist)| >= 3
      ensures r != 0 ==> |vm.freelist| == |old(vm.freelist)| - 3
    {
      ghost var s := vm.S();
      r := vm.Uvmcreate();
      if r == 0 {
        forall q: nat, y: Idx ensures ShownSame(s, s, q, y) {}
        return;
      }
      ghost var t := vm.S();
      var ok := MapKernel(r, TRAMPOLINE, TrampPte(tramp), TRAMP_IDX, NO_PTE, NO_PTE);
      DidMore(s, t, vm.S(), r);
      if !ok {
        Discard(r, s);
        return 0;
      }
      t := vm.S();
      assert Lookup(t.mem, r, TRAMP_IDX) == TrampPte(tramp) && Missing(t.mem, r, TRAP_IDX) == 0;
      ok := MapKernel(r, TRAPFRAME, FramePte(frame), TRAP_IDX, TrampPte(tramp), NO_PTE);
      DidMore(s, t, vm.S(), r);
      assert ok;
      KernelIndices();
    }

    /** uvmfree of a table that maps nothing, built since s. */
    method Discard(r: nat, ghost s: Vm)
      requires vm.Valid() && OnlyKernel(vm.S(), r, NO_PTE, NO_PTE) && Did(s, vm.S(), r) && r in s.own && s.own[r] == Free
      modifies vm
      ensures vm.Valid() && Restored(s, vm.S())
    {
      ghost var t := vm.S();
      vm.Uvmfree(r, 0);
      GoneAfter(s, t, vm.S(), r);
      TornDown(s, vm.S(), r);
    }

    /** proc_freepagetable: the kernel's two pages are unmapped, then user pages and tables are freed. freewalk meets
        no leaf. */
    method ProcFreepagetable(r: nat, sz: nat)
      requires Proper(vm.S(), r, sz)
      modifies vm
      ensures vm.Valid() && Gone(old(vm.S()), vm.S(), r)
    {
      ghost var s := vm.S();
      KernelIndices();
      UnmapKernel(r, TRAMPOLINE, TRAMP_IDX);
      ghost var t := vm.S();
      UnmapKernel(r, TRAPFRAME, TRAP_IDX);
      ghost var u := vm.S();
      DidMore(s, t, u, r);
      forall y | IdxOk(y) && Lookup(u.mem, r, y) != NO_PTE ensures InRange(y, 0, Up(sz)) {
        assert SetAt(s, t, r, TRAMP_IDX, NO_PTE, r, y) && SetAt(t, u, r, TRAP_IDX, NO_PTE, r, y);
      }
      vm.Uvmfree(r, sz);
      GoneAfter(s, u, vm.S(), r);
    }

    /** freeproc: the trapframe, then the page table; the slot is unused again. */
    method Freeproc(i: nat)
      requires Valid() && i < |procs| && procs[i] != UNUSED
      modifies this, vm
      ensures Valid() && procs == old(procs)[i := UNUSED]
      ensures exists g :: GivenBack(old(vm.S()), g, old(procs)[i].trapframe) && Gone(g, vm.S(), old(procs)[i].pagetable)
    {
      ghost var s := vm.S();
      assert ProcOk(s, procs, tramp, i);
      assert PageOk(s, procs[i].trapframe);
      TableGiven(s, procs[i].trapframe, Bytes(seq(PGSIZE, _ => 1)), tramp, procs[i].trapframe, procs[i].pagetable, procs[i].sz);
      vm.Kfree(procs[i].trapframe);
      ghost var g := vm.S();
      ProcFreepagetable(procs[i].pagetable, procs[i].sz);
      Leaves(s, vm.S(), procs, tramp, i, Bytes(seq(PGSIZE, _ => 1)));
      procs := procs[i := UNUSED];
      assert GivenBack(s, g, old(procs)[i].trapframe);
    }

    /** allocproc for slot j: a trapframe and a page table; when fewer than four pages are free, no trace is left. */
    method Allocproc(j: nat) returns (ok: bool)
      requires Valid() && j < |procs| && procs[j] == UNUSED
      modifies this, vm
      ensures Valid()
      ensures !ok ==> procs == old(procs) && Restored(old(vm.S()), vm.S())
      ensures ok ==>
                && |procs| == |old(procs)| && procs == old(procs)[j := procs[j]] && procs[j] != UNUSED && procs[j].sz == 0
                && procs[j].pagetable in old(vm.own) && old(vm.own)[procs[j].pagetable] == Free
                && Made(old(vm.S()), vm.S(), procs[j].pagetable, procs[j].trapframe, j)
      ensures ok <==> |old(vm.freelist)| >= 4
      ensures ok ==> |vm.freelist| == |old(vm.freelist)| - 4
    {
      ghost var s := vm.S();
      var f := vm.Kalloc();
      if f == 0 {
        forall q: nat, y: Idx ensures ShownSame(s, s, q, y) {}
        return false;
      }
      FrameMade(s, Bytes(seq(PGSIZE, _ => 5)), j, 0);
      vm.Tag(f, j);
      ghost var t := vm.S();
      var r := ProcPagetable(f);
      if r == 0 {
        FrameBack(s, t, vm.S(), f, j, Bytes(seq(PGSIZE, _ => 5)), Bytes(seq(PGSIZE, _ => 1)));
        vm.Kfree(f);
        RestoredKeeps(s, vm.S(), procs, tramp);
        return false;
      }
      FrameMade(s, Bytes(seq(PGSIZE, _ => 5)), j, r);
      MadeMore(s, t, vm.S(), r, f, j);
      Joins(s, vm.S(), procs, tramp, j, r, f, 0);
      procs := procs[j := Proc(r, 0, f)];
      ok := true;
    }

    /** allocproc's scan for an unused slot. */
    method FindUnused() returns (j: nat)
      ensures j <= |procs| && (j < |procs| ==> procs[j] == UNUSED)
      ensures j == |procs| ==> forall k :: 0 <= k < |procs| ==> procs[k] != UNUSED
    {
      j := 0;
      while j < |procs| && procs[j] != UNUSED
        invariant j <= |procs| && forall k :: 0 <= k < j ==> procs[k] != UNUSED
      {
        j := j + 1;
      }
    }

    /** kfork: a child whose memory looks like the parent's. A failure gives back exactly the pages it took. */
    method Kfork(i: nat) returns (j: nat, ok: bool)
      requires Valid() && i < |procs| && procs[i] != UNUSED
      modifies this, vm
      ensures Valid() && |procs| == |old(procs)| && procs[i] == old(procs)[i]
      ensures !ok ==> procs == old(procs) && Restored(old(vm.S()), vm.S())
      ensures ok ==> j < |procs| && old(procs)[j] == UNUSED && procs == old(procs)[j := procs[j]] && procs[j].sz == procs[i].sz
      ensures ok ==> Image(vm.S(), procs[j].pagetable, procs[j].sz) == Image(old(vm.S()), procs[i].pagetable, procs[i].sz)
      ensures Image(vm.S(), procs[i].pagetable, procs[i].sz) == Image(old(vm.S()), procs[i].pagetable, procs[i].sz)
      ensures !ok ==> (forall k :: 0 <= k < |procs| ==> procs[k] != UNUSED) || |old(vm.freelist)| < 4 + 3 * Up(procs[i].sz)
      ensures ok ==> procs[j] != UNUSED && AllSeeSame(old(vm.S()), vm.S(), old(procs)) && |old(vm.freelist)| <= |vm.freelist| + 4 + 3 * Up(procs[i].sz)
    {
      ghost var s := vm.S();
      ghost var before := procs;
      assert ProcOk(s, procs, tramp, i);
      j := FindUnused();
      if j == |procs| {
        forall q: nat, y: Idx ensures ShownSame(s, s, q, y) {}
        return j, false;
      }
      ok := Allocproc(j);
      if !ok {
        TableBack(s, vm.S(), tramp, procs[i].trapframe, procs[i].pagetable, procs[i].sz);
        return;
      }
      ok := CopyParent(i, j, s, before);
    }

    /** kfork after allocproc. */
    method CopyParent(i: nat, j: nat, ghost s: Vm, ghost before: seq<Proc>) returns (ok: bool)
      requires KInv(s, before, tramp) && i < |before| == |procs| && before[i] != UNUSED && j < |procs| && before[j] == UNUSED
      requires Valid() && procs == before[j := procs[j]] && procs[j] != UNUSED && procs[j].sz == 0
      requires procs[j].pagetable in s.own && s.own[procs[j].pagetable] == Free
      requires Made(s, vm.S(), procs[j].pagetable, procs[j].trapframe, j)
      modifies this, vm
      ensures Valid() && |procs| == |before|
      ensures if ok then procs == before[j := procs[j]] && procs[j].sz == before[i].sz
                         && Image(vm.S(), procs[j].pagetable, procs[j].sz) == Image(s, before[i].pagetable, before[i].sz)
              else procs == before && Restored(s, vm.S())
      ensures Image(vm.S(), before[i].pagetable, before[i].sz) == Image(s, before[i].pagetable, before[i].sz)
      ensures !ok ==> |old(vm.freelist)| < 3 * Up(before[i].sz)
      ensures ok ==> procs[j] != UNUSED && AllSeeSame(s, vm.S(), before) && |old(vm.freelist)| <= |vm.freelist| + 3 * Up(before[i].sz)
    {
      var r, n, f, sz := procs[i].pagetable, procs[j].pagetable, procs[j].trapframe, procs[i].sz;
      ghost var t := vm.S();
      assert ProcOk(s, before, tramp, i) && ProcOk(t, procs, tramp, j) && ProcOk(t, procs, tramp, i);
      TableStaysMade(s, t, n, f, j, tramp, before[i].trapframe, r, sz);
      VacantAfter(t, n, 0, Up(sz));
      ok := vm.Uvmcopy(r, n, sz);
      ghost var u := vm.S();
      TableStays(t, u, n, tramp, before[i].trapframe, r, sz);
      if ok {
        CopySeen(t, u, r, n, sz);
        MadeMore(s, t, u, n, f, j);
        Joins(s, u, before, tramp, j, n, f, sz);
        procs := procs[j := procs[j].(sz := sz)];
        assert procs == before[j := Proc(n, sz, f)];
        MadeUnseen(s, t, u, before, tramp, j, n, f);
      } else {
        ForkUndo(i, j, s, before, t);
      }
    }

    /** kfork's way out: freeproc of the child, whose size is still 0. */
    method ForkUndo(i: nat, j: nat, ghost s: Vm, ghost before: seq<Proc>, ghost t: Vm)
      requires KInv(s, before, tramp) && i < |before| == |procs| && before[i] != UNUSED && j < |procs| && before[j] == UNUSED
      requires KInv(t, procs, tramp) && procs == before[j := procs[j]] && procs[j] != UNUSED && procs[j].sz == 0
      requires procs[j].pagetable in s.own && s.own[procs[j].pagetable] == Free
      requires Made(s, t, procs[j].pagetable, procs[j].trapframe, j)
      requires Did(t, vm.S(), procs[j].pagetable) && Shows(t, vm.S(), procs[j].pagetable, 0, 0, None)
      modifies this, vm
      ensures Valid() && procs == before && Restored(s, vm.S())
      ensures Image(vm.S(), before[i].pagetable, before[i].sz) == Image(s, before[i].pagetable, before[i].sz)
    {
      ghost var u, n, f := vm.S(), procs[j].pagetable, procs[j].trapframe;
      assert ProcOk(t, procs, tramp, j) && ProcOk(s, before, tramp, i);
      StillSeen(t, u, n, 0, 0, None);
      Serves(t, u, procs, tramp, j, 0);
      assert procs[j := procs[j].(sz := 0)] == procs;
      MadeMore(s, t, u, n, f, j);
      Freeproc(j);
      ghost var g :| GivenBack(u, g, f) && Gone(g, vm.S(), n);
      Unmade(s, u, vm.S(), n, f, j, Bytes(seq(PGSIZE, _ => 1)));
      TableBack(s, vm.S(), tramp, before[i].trapframe, before[i].pagetable, before[i].sz);
      assert procs == before;
    }

    /** growproc: -1, and no change to see, when there is no room. A request to shrink below zero does nothing. */
    method Growproc(i: nat, n: int) returns (ok: bool, ghost short: bool)
      requires Valid() && i < |procs| && procs[i] != UNUSED && n > -0x1_0000_0000
      modifies this, vm
      ensures Valid() && |procs| == |old(procs)| && procs == old(procs)[i := old(procs)[i].(sz := procs[i].sz)]
      ensures Seen(old(vm.S()), vm.S(), old(procs)[i], procs[i].sz, if ok then n else TOO_MUCH, short)
      ensures ok <==> !short && (n > 0 ==> old(procs)[i].sz + n <= TRAPFRAME)
      ensures Spends(old(vm.S()), vm.S(), 3 * PagesFor(n), short) && (short ==> n > 0) && Did(old(vm.S()), vm.S(), old(procs)[i].pagetable)
    {
      ghost var s := vm.S();
      var p := procs[i];
      assert ProcOk(s, procs, tramp, i);
      DidNothing(s, p.pagetable);
      short := false;
      if n > 0 {
        if p.sz + n > TRAPFRAME {
          return false, false;
        }
        ok, short := Grow(i, n);
      } else {
        ok := true;
        if n < 0 {
          Shrink(i, n);
        } else {
          assert Image(s, p.pagetable, p.sz) + FreshPages(0) == Image(s, p.pagetable, p.sz);
        }
      }
    }

    method Grow(i: nat, n: nat) returns (ok: bool, ghost short: bool)
      requires Valid() && i < |procs| && procs[i] != UNUSED && n > 0 && procs[i].sz + n <= TRAPFRAME
      modifies this, vm
      ensures Valid() && |procs| == |old(procs)| && procs == old(procs)[i := old(procs)[i].(sz := procs[i].sz)]
      ensures Seen(old(vm.S()), vm.S(), old(procs)[i], procs[i].sz, if ok then n else TOO_MUCH, short) && (ok <==> !short)
      ensures Spends(old(vm.S()), vm.S(), 3 * PagesFor(n), short) && Did(old(vm.S()), vm.S(), old(procs)[i].pagetable)
    {
      ghost var s := vm.S();
      var p := procs[i];
      assert ProcOk(s, procs, tramp, i);
      UpGrows(p.sz, p.sz + n);
      UpSum(p.sz, n);
      VacantAfter(s, p.pagetable, p.sz, Up(p.sz + n) - Up(p.sz));
      var sz;
      ghost var done;
      sz, done := vm.Uvmalloc(p.pagetable, p.sz, p.sz + n, true, false);
      ok, short := sz != 0, !done;
      if sz == 0 {
        StillSeen(s, vm.S(), p.pagetable, p.sz, Up(p.sz), FreshPage());
        Serves(s, vm.S(), procs, tramp, i, p.sz);
        assert procs[i := procs[i].(sz := p.sz)] == procs;
        return;
      }
      EagerGrowth(s, vm.S(), p.pagetable, p.sz, p.sz + n);
      Serves(s, vm.S(), procs, tramp, i, p.sz + n);
      procs := procs[i := procs[i].(sz := sz)];
    }

    method Shrink(i: nat, n: int)
      requires Valid() && i < |procs| && procs[i] != UNUSED && -0x1_0000_0000 < n < 0
      modifies this, vm
      ensures Valid() && |procs| == |old(procs)| && procs == old(procs)[i := old(procs)[i].(sz := procs[i].sz)]
      ensures Seen(old(vm.S()), vm.S(), old(procs)[i], procs[i].sz, n, false) && |vm.freelist| >= |old(vm.freelist)| && Did(old(vm.S()), vm.S(), old(procs)[i].pagetable)
    {
      ghost var s := vm.S();
      var p := procs[i];
      assert ProcOk(s, procs, tramp, i);
      var newsz: nat := if p.sz + n < 0 then 0x1_0000_0000_0000_0000 + p.sz + n else p.sz + n;
      var sz := vm.Uvmdealloc(p.pagetable, p.sz, newsz);
      UpGrows(sz, p.sz);
      Shrinking(s, vm.S(), p.pagetable, p.sz, sz);
      Serves(s, vm.S(), procs, tramp, i, sz);
      procs := procs[i := procs[i].(sz := sz)];
      assert Image(s, p.pagetable, p.sz)[..Up(p.sz)] == Image(s, p.pagetable, p.sz);
    }

    /** sys_sbrk: what it returns and what the user sees do not depend on whether it is lazy. */
    method SysSbrk(i: nat, n: int, lazy: bool) returns (addr: int, ghost short: bool)
      requires Valid() && i < |procs| && procs[i] != UNUSED && -0x8000_0000 <= n < 0x8000_0000
      modifies this, vm
      ensures Valid() && |procs| == |old(procs)| && procs == old(procs)[i := old(procs)[i].(sz := procs[i].sz)]
      ensures var img := Image(old(vm.S()), procs[i].pagetable, old(procs)[i].sz);
              !short ==> (addr, Image(vm.S(), procs[i].pagetable, procs[i].sz), procs[i].sz) == Sbrk(img, old(procs)[i].sz, n)
      ensures lazy && n >= 0 ==> !short && vm.S() == old(vm.S())
      ensures short ==> addr == -1 && procs == old(procs)
                        && Image(vm.S(), procs[i].pagetable, procs[i].sz) == Image(old(vm.S()), procs[i].pagetable, procs[i].sz)
      ensures Spends(old(vm.S()), vm.S(), 3 * PagesOf(Resize(n, lazy)), short) && Did(old(vm.S()), vm.S(), old(procs)[i].pagetable)
    {
      ghost var s := vm.S();
      var p := procs[i];
      assert ProcOk(s, procs, tramp, i);
      addr, short := p.sz, false;
      DidNothing(s, p.pagetable);
      if !lazy || n < 0 {
        var ok;
        ok, short := Growproc(i, n);
        if !ok {
          return -1, short;
        }
      } else {
        if p.sz + n > TRAPFRAME {
          return -1, false;
        }
        LazyGrowth(s, p.pagetable, p.sz, p.sz + n);
        Serves(s, s, procs, tramp, i, p.sz + n);
        procs := procs[i := procs[i].(sz := p.sz + n)];
      }
    }

    /** One thing a process does to its memory. */
    method Do(i: nat, op: UserOp) returns (out: Out, ghost short: bool)
      requires Valid() && i < |procs| && procs[i] != UNUSED && OpOk(op)
      modifies this, vm
      ensures Valid() && |procs| == |old(procs)| && procs == old(procs)[i := old(procs)[i].(sz := procs[i].sz)]
      ensures procs[i] != UNUSED
      ensures !short ==> (out, Image(vm.S(), procs[i].pagetable, procs[i].sz), procs[i].sz)
                         == Step(Image(old(vm.S()), old(procs)[i].pagetable, old(procs)[i].sz), old(procs)[i].sz, op)
      ensures short ==> Failed(out)
      ensures Spends(old(vm.S()), vm.S(), 3 * PagesOf(op), short) && Did(old(vm.S()), vm.S(), old(procs)[i].pagetable)
    {
      ghost var s := vm.S();
      assert ProcOk(s, procs, tramp, i);
      var r, sz := procs[i].pagetable, procs[i].sz;
      assert PageOk(s, r);
      match op
      case Resize(n, lazy) =>
        var addr;
        addr, short := SysSbrk(i, n, lazy);
        out := Addr(addr);
      case Load(va, len) =>
        var ok, bytes;
        ok, bytes, short := vm.Copyin(r, sz, va, len);
        out := Loaded(ok, bytes);
        AlikeIff(s, vm.S(), r, sz);
        Serves(s, vm.S(), procs, tramp, i, sz);
        assert procs[i := procs[i].(sz := sz)] == procs;
      case Save(va, src) =>
        var ok;
        ok, short := vm.Copyout(r, sz, va, src);
        out := Saved(ok);
        Serves(s, vm.S(), procs, tramp, i, sz);
        assert procs[i := procs[i].(sz := sz)] == procs;
    }

    /** Any sequence of growth, shrinking and access gives what the image gives, whichever requests are lazy, when three pages are
        free for each page that it may need. */
    method Run(i: nat, ops: seq<UserOp>) returns (outs: seq<Out>, ghost short: bool)
      requires Valid() && i < |procs| && procs[i] != UNUSED && forall op :: op in ops ==> OpOk(op)
      modifies this, vm
      ensures Valid()
      ensures !short ==> outs == Outcomes(Image(old(vm.S()), old(procs)[i].pagetable, old(procs)[i].sz), old(procs)[i].sz, ops)
      ensures |old(vm.freelist)| >= 3 * PagesOfAll(ops) ==> !short
      ensures |outs| == |ops| && (short ==> exists k :: 0 <= k < |ops| && Failed(outs[k]))
    {
      ghost var img, sz, s := Image(vm.S(), procs[i].pagetable, procs[i].sz), procs[i].sz, vm.S();
      outs, short := [], false;
      var n := 0;
      assert ops[0..] == ops;
      while n < |ops|
        invariant n == |outs| <= |ops| && Valid() && i < |procs| && procs[i] != UNUSED && Spends(s, vm.S(), 3 * PagesOfAll(ops[..n]), short)
        invariant !short ==> Outcomes(img, sz, ops)
                             == outs + Outcomes(Image(vm.S(), procs[i].pagetable, procs[i].sz), procs[i].sz, ops[n..])
        invariant short ==> exists k :: 0 <= k < n && Failed(outs[k])
      {
        ghost var now, size, rest, t := Image(vm.S(), procs[i].pagetable, procs[i].sz), procs[i].sz, ops[n..], vm.S();
        var out;
        ghost var short';
        out, short' := Do(i, ops[n]);
        SpendsMore(s, t, vm.S(), ops, n, short, short');
        OutcomesStep(now, size, rest, outs);
        assert rest[0] == ops[n] && rest[1..] == ops[n + 1..];
        ghost var before := outs;
        outs := outs + [out];
        assert short' ==> Failed(outs[n]);
        assert forall k :: 0 <= k < n ==> outs[k] == before[k];
        short := short || short';
        n := n + 1;
      }
      assert ops[..n] == ops;
    }

    /** Any run of process creation, fork, growth, shrinking, access and teardown accounts for every page. */
    method RunAll(events: seq<Event>)
      requires Valid()
      modifies this, vm
      ensures Valid()
      ensures forall p :: vm.lo <= p < |vm.mem| ==> p in vm.freelist || exists i :: Holds(vm.S(), procs, i, p)
    {
      var n := 0;
      while n < |events|
        invariant n <= |events| && Valid()
      {
        match events[n] {
        case Spawn =>
          var j := FindUnused();
          if j < |procs| {
            var ok := Allocproc(j);
          }
        case Fork(i) =>
          if i < |procs| && procs[i] != UNUSED {
            var j, ok := Kfork(i);
          }
        case Exit(i) =>
          if i < |procs| && procs[i] != UNUSED {
            Freeproc(i);
          }
        case Act(i, op) =>
          if i < |procs| && procs[i] != UNUSED && OpOk(op) {
            ghost var short;
            var out;
            out, short := Do(i, op);
          }
        }
        n := n + 1;
      }
      forall p | vm.lo <= p < |vm.mem| ensures p in vm.freelist || exists i :: Holds(vm.S(), procs, i, p) {
        Accounted(vm.S(), procs, tramp, p);
      }
    }
  }

  datatype Event = Spawn | Fork(i: nat) | Exit(i: nat) | Act(i: nat, op: UserOp)

  datatype UserOp = Resize(n: int, lazy: bool) | Load(va: nat, len: nat) | Save(va: nat, src: seq<Byte>)
  datatype Out = Addr(addr: int) | Loaded(ok: bool, bytes: seq<Byte>) | Saved(ok: bool) | Forked(ok: bool)

  /** sbrk takes an int. */
  predicate OpOk(op: UserOp) {
    op.Resize? ==> -0x8000_0000 <= op.n < 0x8000_0000
  }

  /** The most pages that growing by n may need. */
  function PagesFor(n: int): nat {
    if n > 0 then Up(n) else 0
  }

  lemma UpSum(sz: nat, n: nat)
    ensures Up(sz + n) <= Up(sz) + Up(n)
  {
  }

  /** The most pages that an operation may need; each may need two tables on top of itself. */
  function PagesOf(op: UserOp): nat {
    match op
    case Resize(n, lazy) => if lazy then 0 else PagesFor(n)
    case Load(va, len) => Span(va, len)
    case Save(va, src) => Span(va, |src|)
  }

  function PagesOfAll(ops: seq<UserOp>): nat {
    if ops == [] then 0 else PagesOfAll(ops[..|ops| - 1]) + PagesOf(ops[|ops| - 1])
  }

  predicate Failed(out: Out) {
    match out
    case Addr(addr) => addr == -1
    case Loaded(ok, _) => !ok
    case Saved(ok) => !ok
    case Forked(ok) => !ok
  }

  lemma SpendsMore(s: Vm, t: Vm, u: Vm, ops: seq<UserOp>, n: nat, short: bool, short': bool)
    requires n < |ops| && Spends(s, t, 3 * PagesOfAll(ops[..n]), short) && Spends(t, u, 3 * PagesOf(ops[n]), short')
    ensures Spends(s, u, 3 * PagesOfAll(ops[..n + 1]), short || short')
  {
    assert ops[..n + 1][..n] == ops[..n];
  }

  /** What an operation means: laziness plays no part. */
  function Step(img: seq<Mapping>, sz: nat, op: UserOp): (Out, seq<Mapping>, nat) {
    match op
    case Resize(n, _) => var (addr, img', sz') := Sbrk(img, sz, n); (Addr(addr), img', sz')
    case Load(va, len) => var (ok, bytes) := CopyIn(img, va, len); (Loaded(ok, bytes), img, sz)
    case Save(va, src) => var (ok, img') := CopyOut(img, va, src); (Saved(ok), img', sz)
  }

  function Outcomes(img: seq<Mapping>, sz: nat, ops: seq<UserOp>): seq<Out>
    decreases ops
  {
    if ops == [] then []
    else var (out, img', sz') := Step(img, sz, ops[0]); [out] + Outcomes(img', sz', ops[1..])
  }

  lemma OutcomesStep(img: seq<Mapping>, sz: nat, ops: seq<UserOp>, outs: seq<Out>)
    requires ops != []
    ensures var (out, img', sz') := Step(img, sz, ops[0]);
            outs + Outcomes(img, sz, ops) == (outs + [out]) + Outcomes(img', sz', ops[1..])
  {
    var (out, img', sz') := Step(img, sz, ops[0]);
    assert outs + ([out] + Outcomes(img', sz', ops[1..])) == (outs + [out]) + Outcomes(img', sz', ops[1..]);
  }

  /** Two runs that differ only in which requests are lazy have the same outcomes. */
  lemma {:induction false} LazinessUnseen(img: seq<Mapping>, sz: nat, ops: seq<UserOp>, ops': seq<UserOp>)
    requires |ops| == |ops'| && forall k :: 0 <= k < |ops| ==> SameRequest(ops[k], ops'[k])
    ensures Outcomes(img, sz, ops) == Outcomes(img, sz, ops')
    decreases ops
  {
    if ops != [] {
      assert SameRequest(ops[0], ops'[0]);
      var (out, img', sz') := Step(img, sz, ops[0]);
      forall k | 0 <= k < |ops[1..]| ensures SameRequest(ops[1..][k], ops'[1..][k]) {
        assert SameRequest(ops[k + 1], ops'[k + 1]);
      }
      LazinessUnseen(img', sz', ops[1..], ops'[1..]);
    }
  }

  /** Two processes of two kernels that look alike, and ask for the same with different laziness, see the same, when each has three
      pages free for each page that it may need. */
  method RunBoth(a: Kernel, i: nat, ops: seq<UserOp>, b: Kernel, j: nat, ops': seq<UserOp>) returns (outs: seq<Out>, outs': seq<Out>)
    requires a != b && a.vm != b.vm && a.Valid() && b.Valid()
    requires i < |a.procs| && a.procs[i] != UNUSED && j < |b.procs| && b.procs[j] != UNUSED && a.procs[i].sz == b.procs[j].sz
    requires Image(a.vm.S(), a.procs[i].pagetable, a.procs[i].sz) == Image(b.vm.S(), b.procs[j].pagetable, b.procs[j].sz)
    requires (forall op :: op in ops ==> OpOk(op)) && (forall op :: op in ops' ==> OpOk(op))
    requires |ops| == |ops'| && forall k :: 0 <= k < |ops| ==> SameRequest(ops[k], ops'[k])
    requires |a.vm.freelist| >= 3 * PagesOfAll(ops) && |b.vm.freelist| >= 3 * PagesOfAll(ops')
    modifies a, a.vm, b, b.vm
    ensures outs == outs' && a.Valid() && b.Valid()
  {
    LazinessUnseen(Image(a.vm.S(), a.procs[i].pagetable, a.procs[i].sz), a.procs[i].sz, ops, ops');
    ghost var short, short';
    outs, short := a.Run(i, ops);
    outs', short' := b.Run(j, ops');
  }

  predicate SameRequest(a: UserOp, b: UserOp) {
    if a.Resize? then b.Resize? && b.n == a.n else a == b
  }

  /** More than any process may grow. */
  const TOO_MUCH: int := TRAPFRAME + 1

  /** What the user of process p sees after sbrk by n; nothing new when memory ran short. */
  ghost predicate Seen(s: Vm, t: Vm, p: Proc, sz: nat, n: int, short: bool) {
    var img := Image(s, p.pagetable, p.sz);
    if short then sz == p.sz && Image(t, p.pagetable, sz) == img
    else (Image(t, p.pagetable, sz), sz) == (Sbrk(img, p.sz, n).1, Sbrk(img, p.sz, n).2)
  }

  /** The user of process p sees the same. */
  ghost predicate SameTo(s: Vm, t: Vm, p: Proc) {
    p != UNUSED ==> Image(t, p.pagetable, p.sz) == Image(s, p.pagetable, p.sz)
  }

  /** All users see the same. */
  ghost predicate AllSeeSame(s: Vm, t: Vm, procs: seq<Proc>) {
    forall k {:trigger SameTo(s, t, procs[k])} :: 0 <= k < |procs| ==> SameTo(s, t, procs[k])
  }

  /** No process sees a new page table being made and filled. */
  lemma MadeUnseen(s: Vm, t: Vm, u: Vm, procs: seq<Proc>, tramp: nat, j: nat, n: nat, f: nat)
    requires KInv(s, procs, tramp) && j < |procs| && procs[j] == UNUSED && n in s.own && s.own[n] == Free
    requires Made(s, t, n, f, j) && Did(t, u, n)
    ensures AllSeeSame(s, u, procs)
  {
    forall k | 0 <= k < |procs| ensures SameTo(s, u, procs[k]) {
      if procs[k] != UNUSED {
        var p := procs[k];
        assert ProcOk(s, procs, tramp, k);
        TableStaysMade(s, t, n, f, j, tramp, p.trapframe, p.pagetable, p.sz);
        TableStays(t, u, n, tramp, p.trapframe, p.pagetable, p.sz);
      }
    }
  }

  /** What process i does, no other process sees. */
  lemma DidUnseen(s: Vm, t: Vm, procs: seq<Proc>, tramp: nat, i: nat, k: nat)
    requires KInv(s, procs, tramp) && i < |procs| && k < |procs| && i != k && procs[i] != UNUSED && Did(s, t, procs[i].pagetable)
    ensures SameTo(s, t, procs[k])
  {
    if procs[k] != UNUSED {
      var p := procs[k];
      assert ProcOk(s, procs, tramp, k) && ProcOk(s, procs, tramp, i);
      TableStays(s, t, procs[i].pagetable, tramp, p.trapframe, p.pagetable, p.sz);
    }
  }

  /** kfree of page f leads from s to g. */
  ghost predicate GivenBack(s: Vm, g: Vm, f: nat) {
    f < |s.mem| && g == Given(s, f, Bytes(seq(PGSIZE, _ => 1)))
  }

  /** A trapframe that is given back, after a page table could not be made. */
  lemma FrameBack(s: Vm, t: Vm, u: Vm, f: nat, j: nat, junk: Page, junk': Page)
    requires Inv(s) && s.freelist != [] && f == s.freelist[0] && f < |s.mem| && junk.Bytes? && |junk.bytes| == PGSIZE
    requires t == Reused(Taken(s, junk), f, junk, Frame(j)) && Restored(t, u)
    ensures f in u.own && u.own[f].Frame? && f < |u.mem| && Restored(s, Given(u, f, junk'))
  {
    FrameMade(s, junk, j, 0);
    TakenKeeps(s, junk);
    GivenKeeps(u, f, junk');
    var g := Given(u, f, junk');
    assert g.own == s.own;
    forall q: nat, y: Idx ensures ShownSame(s, g, q, y) {
      FrameUnseen(s, t, u, g, f, q, y);
    }
  }

  /** No table shows a trapframe page to a user. */
  lemma FrameUnseen(s: Vm, t: Vm, u: Vm, g: Vm, f: nat, q: nat, y: Idx)
    requires Inv(s) && Inv(u) && SameMaps(s, t) && Restored(t, u) && SameMaps(u, g) && f in s.own && s.own[f] == Free
    requires |t.mem| == |s.mem| == |g.mem| == |u.mem| && f in u.own && u.own == s.own[f := u.own[f]]
    requires forall p :: 0 <= p < |s.mem| && p != f ==> t.mem[p] == s.mem[p] && g.mem[p] == u.mem[p]
    ensures ShownSame(s, g, q, y)
  {
    assert SameAt(s, t, q, y) && SameAt(s, t, q, TRAMP_IDX) && ShownSame(t, u, q, y) && SameAt(u, g, q, y);
    if IsTop(s, q) && UserIdx(y) && Lookup(s.mem, q, y) != NO_PTE {
      Mapped(s, q, y);
    }
  }
}
