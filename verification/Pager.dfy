/** kernel/kalloc.c and kernel/vm.c in their own form. A page is named by its number; a page table by the number
    of its root page. */
module Pager {
  import opened Common
  import opened PageSpec
  import opened PageSteps
  import opened PageRanges
  import opened PageViews
  import opened UserImage

  class Memory {
    const lo: nat
    var mem: seq<Page>
    var freelist: seq<nat>
    ghost var own: map<nat, Use>

    ghost function S(): Vm
      reads this
    {
      Vm(lo, mem, freelist, own)
    }

    ghost predicate Valid()
      reads this
    {
      Inv(S())
    }

    /** kinit and freerange: all pages [lo, hi) go to the free list. */
    constructor (lo: nat, hi: nat)
      requires 0 < lo <= hi
      ensures Valid() && this.lo == lo && |mem| == hi && forall p :: p in own ==> own[p] == Free
    {
      this.lo := lo;
      mem := seq(hi, _ => Bytes(seq(PGSIZE, _ => 1)));
      freelist := [];
      own := map[];
      new;
      var p := lo;
      while p < hi
        invariant lo <= p <= hi && |mem| == hi
        invariant forall q :: q in own <==> lo <= q < p
        invariant forall q :: q in own ==> own[q] == Free
        invariant forall q :: q in freelist <==> lo <= q < p
        invariant Distinct(freelist)
      {
        PushDistinct(freelist, p);
        freelist := [p] + freelist;
        own := own[p := Free];
        p := p + 1;
      }
      forall q: nat ensures PageOk(S(), q) {}
      forall q: nat, i: nat ensures EntryOk(S(), q, i) {}
    }

    /** kalloc: the page on top of the free list, filled with junk; 0 when there is none. */
    method Kalloc() returns (p: nat)
      requires Valid()
      modifies this`mem, this`freelist, this`own
      ensures Valid()
      ensures p == 0 <==> old(freelist) == []
      ensures p == 0 ==> S() == old(S())
      ensures p != 0 ==> p == old(freelist)[0] && lo <= p < |mem| == old(|mem|) && S() == Taken(old(S()), Bytes(seq(PGSIZE, _ => 5)))
    {
      if freelist == [] {
        return 0;
      }
      TakenKeeps(S(), Bytes(seq(PGSIZE, _ => 5)));
      p := freelist[0];
      freelist := freelist[1..];
      mem := mem[p := Bytes(seq(PGSIZE, _ => 5))];
      own := own[p := Held];
    }

    /** kfree of a page that nothing uses any more. */
    method Kfree(p: nat)
      requires Valid() && p in own && (own[p] == Held || own[p].Frame?)
      modifies this`mem, this`freelist, this`own
      ensures Valid() && p < |old(mem)| && S() == Given(old(S()), p, Bytes(seq(PGSIZE, _ => 1)))
    {
      GivenKeeps(S(), p, Bytes(seq(PGSIZE, _ => 1)));
      mem := mem[p := Bytes(seq(PGSIZE, _ => 1))];
      freelist := [p] + freelist;
      own := own[p := Free];
    }

    /** A held page is now process i's trapframe. */
    ghost method Tag(p: nat, i: nat)
      requires Valid() && p in own && own[p] == Held && p < |mem| && BytesPage(S(), p)
      modifies this`own
      ensures Valid() && S() == Reused(old(S()), p, old(mem)[p], Frame(i)) && SameMaps(old(S()), S())
    {
      ReusedKeeps(S(), p, mem[p], Frame(i));
      own := own[p := Frame(i)];
      assert mem[p := mem[p]] == mem;
    }

    /** One level of walk: the table below slot i of p, made if alloc says so; 0 if there is none. */
    method Below(p: nat, i: nat, alloc: bool) returns (c: nat)
      requires Valid() && p in own && (own[p].Top? || own[p].Mid?) && i < NPTE
      modifies this`mem, this`freelist, this`own
      ensures Valid() && Grew(old(S()), S(), RootOf(old(own[p]), p)) && SameMaps(old(S()), S()) && p in own && own[p] == old(own[p])
      ensures c == Child(mem, p, i) && (c != 0 ==> c in own && own[c] == PageSteps.Below(own[p], p, i))
      ensures !alloc || Child(old(mem), p, i) != 0 ==> S() == old(S())
      ensures alloc && c == 0 ==> freelist == old(freelist) == []
      ensures alloc && c != 0 && Child(old(mem), p, i) == 0 ==> |freelist| == |old(freelist)| - 1 && c < |mem| && mem[c] == ZeroTable()
    {
      ghost var s := S();
      GrewSelf(s, RootOf(own[p], p));
      SlotFound(s, p, i);
      assert EntryOk(s, p, i);
      if mem[p].ptes[i].v {
        return mem[p].ptes[i].ppn;
      }
      c := 0;
      if alloc {
        c := Kalloc();
        if c != 0 {
          NewTableGrew(s, Bytes(seq(PGSIZE, _ => 5)), p, i);
          ghost var t := NewTable(S(), p, i, c);
          mem := mem[c := ZeroTable()];
          mem := mem[p := Table(mem[p].ptes[i := Pointer(c)])];
          own := own[c := PageSteps.Below(own[p], p, i)];
          assert S() == t;
        }
      }
    }

    /** walk: the lowest table for va, and with it the slot PX(0, va); 0 if it is missing or cannot be made. */
    method Walk(r: nat, va: nat, alloc: bool) returns (t: nat)
      requires Valid() && IsTop(S(), r) && va < MAXVA
      modifies this`mem, this`freelist, this`own
      ensures Valid() && IsTop(S(), r) && Grew(old(S()), S(), r) && SameMaps(old(S()), S())
      ensures t == LowTable(mem, r, Px(va).i2, Px(va).i1)
      ensures t != 0 ==> t in own && own[t] == Low(r, Px(va).i2, Px(va).i1) && LeafAt(S(), t, Px(va).i0, r, Px(va))
      ensures !alloc ==> S() == old(S())
      ensures alloc ==> (t == 0 <==> |old(freelist)| < Missing(old(mem), r, Px(va)))
      ensures alloc ==> |freelist| == if t == 0 then 0 else |old(freelist)| - Missing(old(mem), r, Px(va))
    {
      ghost var s := S();
      PxVpn(va);
      t := Below(r, Px(va).i2, alloc);
      if t != 0 {
        ghost var m := S();
        var mid := t;
        t := Below(mid, Px(va).i1, alloc);
        GrewMore(s, m, S(), r);
        SameMore(s, m, S());
        assert GrewAt(m, S(), r, r);
        if t != 0 { SlotFound(S(), t, Px(va).i0); }
        StillThere(m, S(), r, Px(va).i2);
      }
    }

    /** The body of mappages' loop: page va of r is mapped by e. Fails when walk cannot make a table. */
    method MapOne(r: nat, va: nat, e: Pte) returns (ok: bool)
      requires Valid() && IsTop(S(), r) && va < MAXVA && Lookup(mem, r, Px(va)) == NO_PTE && e.v && Leaf(e)
      requires !Special(Px(va)) ==> e.ppn in own && own[e.ppn] == Held && e.ppn < |mem| && BytesPage(S(), e.ppn)
      modifies this`mem, this`freelist, this`own
      ensures Valid() && IsTop(S(), r)
      ensures ok ==> MapsSet(old(S()), S(), r, Px(va), e) && UseSet(old(S()), S(), r, Px(va), e)
      ensures !ok ==> Grew(old(S()), S(), r) && SameMaps(old(S()), S())
      ensures Costs(old(S()), S(), Missing(old(mem), r, Px(va)), ok)
    {
      ghost var s := S();
      var t := Walk(r, va, true);
      if t == 0 {
        return false;
      }
      ghost var w := S();
      assert SameAt(s, w, r, Px(va)) && GrewAt(s, w, r, e.ppn);
      MapPageUses(s, w, t, Px(va).i0, e, r, Px(va));
      ghost var u := MapPage(w, t, Px(va).i0, e, Px(va));
      mem := mem[t := Table(mem[t].ptes[Px(va).i0 := e])];
      own := if Special(Px(va)) then own else own[e.ppn := User(r, Px(va))];
      assert S() == u;
      assert SetAt(s, u, r, Px(va), e, r, Px(va));
      ok := true;
    }

    /** One turn of mappages: the page at off. */
    method MapNext(r: nat, ghost va: nat, ghost size: nat, a: nat, off: nat, e: Pte, ghost s: Vm) returns (ok: bool)
      requires Valid() && Inv(s) && IsTop(s, r) && IsTop(S(), r) && e.v && Leaf(e) && va % PGSIZE == 0 && size % PGSIZE == 0 && va + size <= MAXVA
      requires off < size / PGSIZE && a == va + off * PGSIZE
      requires forall y :: IdxOk(y) && InRange(y, va / PGSIZE, size / PGSIZE) ==> Lookup(s.mem, r, y) == NO_PTE
      requires forall j :: 0 <= j < size / PGSIZE ==> Supplied(s, e, va / PGSIZE, j)
      requires RangeSet(s, S(), r, va / PGSIZE, off, e) && UsesSet(s, S(), r, va / PGSIZE, off, e)
      modifies this`mem, this`freelist, this`own
      ensures Valid() && IsTop(S(), r) && Costs(old(S()), S(), Missing(old(mem), r, Px(a)), ok)
      ensures a == va + size - PGSIZE <==> off + 1 == size / PGSIZE
      ensures var k := if ok then off + 1 else off;
              RangeSet(s, S(), r, va / PGSIZE, k, e) && UsesSet(s, S(), r, va / PGSIZE, k, e)
    {
      ghost var t, v := S(), va / PGSIZE;
      NextPage(s, t, r, va, size, off, e);
      ok := MapOne(r, a, Offset(e, off));
      if ok {
        RangeMore(s, t, S(), r, v, off, e, Px(a));
        UsesMore(s, t, S(), r, v, off, e);
      } else {
        RangeSame(s, t, S(), r, v, off, e);
        UsesGrew(s, t, S(), r, v, off, e);
      }
    }

    /** mappages: pages [va, va + size) of r are mapped by e and the pages after it, in order. When a table cannot
        be made, the k pages before it stay mapped. Remapping is a panic. */
    method Mappages(r: nat, va: nat, size: nat, e: Pte) returns (ok: bool, ghost k: nat)
      requires Valid() && IsTop(S(), r) && e.v && Leaf(e)
      requires va % PGSIZE == 0 && size % PGSIZE == 0 && size > 0 && va + size <= MAXVA
      requires forall y :: IdxOk(y) && InRange(y, va / PGSIZE, size / PGSIZE) ==> Lookup(mem, r, y) == NO_PTE
      requires forall j :: 0 <= j < size / PGSIZE ==> Supplied(S(), e, va / PGSIZE, j)
      modifies this`mem, this`freelist, this`own
      ensures Valid() && IsTop(S(), r) && k <= size / PGSIZE && (ok <==> k == size / PGSIZE)
      ensures RangeSet(old(S()), S(), r, va / PGSIZE, k, e) && UsesSet(old(S()), S(), r, va / PGSIZE, k, e)
      ensures !ok ==> freelist == [] && |old(freelist)| < 2 * (size / PGSIZE)
      ensures ok ==> |old(freelist)| <= |freelist| + 2 * (size / PGSIZE)
      ensures size == PGSIZE ==> Costs(old(S()), S(), Missing(old(mem), r, Px(va)), ok)
    {
      ghost var s := S();
      ghost var v, n := va / PGSIZE, size / PGSIZE;
      var a, last := va, va + size - PGSIZE;
      var off := 0;
      k := 0;
      GrewSelf(s, r);
      RangeNone(s, s, r, v, e);
      UsesNone(s, s, r, v, e);
      while true
        invariant Valid() && IsTop(S(), r) && k < n && off == k && a == va + k * PGSIZE
        invariant RangeSet(s, S(), r, v, k, e) && UsesSet(s, S(), r, v, k, e)
        invariant (k == 0 ==> S() == s) && |s.freelist| <= |freelist| + 2 * k
        decreases n - k
      {
        ok := MapNext(r, va, size, a, off, e, s);
        if !ok {
          return;
        }
        k := k + 1;
        if a == last {
          break;
        }
        a, off := a + PGSIZE, off + 1;
      }
    }

    /** The body of uvmunmap's loop on a valid entry: kfree if asked, then the entry is zero. */
    method UnmapOne(t: nat, i: nat, free: bool, ghost r: nat, ghost x: Idx)
      requires Valid() && Unmappable(S(), t, i, r, x) && (free ==> !Special(x))
      modifies this`mem, this`freelist, this`own
      ensures Valid() && MapsSet(old(S()), S(), r, x, NO_PTE) && BytesKept(old(S()), S())
      ensures var c := Entry(old(mem), t, i).ppn;
              if Special(x) then own == old(own)
              else c in old(own) && old(own)[c] == User(r, x) && own == old(own)[c := if free then Free else Held]
      ensures |freelist| >= |old(freelist)|
    {
      ghost var s := S();
      UnmapPageKeeps(s, t, i, r, x);
      ghost var u := UnmapPage(s, t, i, x);
      var c := mem[t].ptes[i].ppn;
      if free {
        assert PageOk(s, c);
        ghost var w := Given(u, c, Bytes(seq(PGSIZE, _ => 1)));
        GivenKeeps(u, c, Bytes(seq(PGSIZE, _ => 1)));
        SetThenSame(s, u, w, r, x, NO_PTE);
        mem := mem[c := Bytes(seq(PGSIZE, _ => 1))];
        freelist := [c] + freelist;
        mem := mem[t := Table(mem[t].ptes[i := NO_PTE])];
        own := own[c := Free];
        assert mem == w.mem;
        assert S() == w;
      } else {
        mem := mem[t := Table(mem[t].ptes[i := NO_PTE])];
        own := if Special(x) then own else own[c := Held];
        assert S() == u;
      }
      forall p: nat ensures KeptAt(s, S(), p) {}
    }

    /** One turn of uvmunmap's loop. */
    method UnmapAt(r: nat, a: nat, free: bool, ghost s: Vm, ghost v: nat, ghost k: nat)
      requires Valid() && Unmapped(s, S(), r, v, k, if free then Free else Held) && a < MAXVA && Vpn(Px(a)) == v + k
      requires free ==> !Special(Px(a))
      modifies this`mem, this`freelist, this`own
      ensures Valid() && Unmapped(s, S(), r, v, k + 1, if free then Free else Held) && |freelist| >= |old(freelist)|
    {
      ghost var w, u := S(), if free then Free else Held;
      PxVpn(a);
      var t := Walk(r, a, false);
      assert ClearAt(s, w, r, v, k, r, Px(a));
      if t == 0 || !mem[t].ptes[Px(a).i0].v {
        if t != 0 { assert EntryOk(w, t, Px(a).i0); }
        ClearSkip(s, w, r, v, k, Px(a));
        ReleasedSkip(s, r, v, k, u, Px(a));
      } else {
        UnmapOne(t, Px(a).i0, free, r, Px(a));
        UnmapStep(s, w, S(), r, v, k, u, Px(a));
      }
    }

    /** uvmunmap: pages [va, va + npages * PGSIZE) of r are unmapped, and freed if asked; pages that were not mapped
        are skipped. */
    method Uvmunmap(r: nat, va: nat, npages: nat, free: bool)
      requires Valid() && IsTop(S(), r) && va % PGSIZE == 0 && va + npages * PGSIZE <= MAXVA
      requires free ==> forall y :: IdxOk(y) && InRange(y, va / PGSIZE, npages) ==> !Special(y)
      modifies this`mem, this`freelist, this`own
      ensures Valid() && Unmapped(old(S()), S(), r, va / PGSIZE, npages, if free then Free else Held) && |freelist| >= |old(freelist)|
    {
      ghost var s := S();
      ghost var v, u := va / PGSIZE, if free then Free else Held;
      var a := va;
      ghost var k := 0;
      ClearNone(s, r, v);
      assert own == Released(s.own, r, v, 0, u);
      while a < va + npages * PGSIZE
        invariant 0 <= k <= npages && a == va + k * PGSIZE && Valid() && Unmapped(s, S(), r, v, k, u) && |freelist| >= |s.freelist|
      {
        AtPage(va, k);
        UnmapAt(r, a, free, s, v, k);
        k := k + 1;
        a := a + PGSIZE;
      }
    }

    /** kalloc, fill and mappages of one page, with kfree when the mapping fails: the steps that uvmalloc, uvmcopy
        and vmfault share. */
    method MapNew(r: nat, a: nat, page: Page, perm: Pte) returns (c: nat)
      requires Valid() && IsTop(S(), r) && a % PGSIZE == 0 && a < TRAPFRAME && Lookup(mem, r, Px(a)) == NO_PTE
      requires perm == Perm(perm) && perm.v && Leaf(perm) && page.Bytes? && |page.bytes| == PGSIZE
      modifies this`mem, this`freelist, this`own
      ensures Valid() && Did(old(S()), S(), r)
      ensures Shows(old(S()), S(), r, a / PGSIZE, if c != 0 then 1 else 0, Some(perm, page))
      ensures if c != 0 then Lookup(mem, r, Px(a)) == perm.(ppn := c) else Starved(S())
      ensures c != 0 <==> |old(freelist)| >= 1 + Missing(old(mem), r, Px(a))
      ensures |freelist| == if c != 0 then |old(freelist)| - 1 - Missing(old(mem), r, Px(a)) else if old(freelist) == [] then 0 else 1
    {
      ghost var s := S();
      BelowTrapframe(a);
      c := Kalloc();
      if c == 0 {
        DidNothing(s, r);
        ShowsNone(s, r, a / PGSIZE, Some(perm, page));
        return;
      }
      FilledKeeps(s, Bytes(seq(PGSIZE, _ => 5)), page);
      mem := mem[c := page];
      var ok := MapFilled(r, a, page, perm, c, s);
      if !ok {
        return 0;
      }
    }

    method MapFilled(r: nat, a: nat, page: Page, perm: Pte, c: nat, ghost s: Vm) returns (ok: bool)
      requires Filled(s, S(), c, page) && IsTop(s, r) && a % PGSIZE == 0 && a < TRAPFRAME && Lookup(s.mem, r, Px(a)) == NO_PTE
      requires perm == Perm(perm) && perm.v && Leaf(perm) && page.Bytes? && |page.bytes| == PGSIZE
      modifies this`mem, this`freelist, this`own
      ensures Valid() && Did(s, S(), r) && Shows(s, S(), r, a / PGSIZE, if ok then 1 else 0, Some(perm, page))
      ensures if ok then Lookup(mem, r, Px(a)) == perm.(ppn := c) else Starved(S())
      ensures ok <==> |old(freelist)| >= Missing(s.mem, r, Px(a))
      ensures |freelist| == if ok then |old(freelist)| - Missing(s.mem, r, Px(a)) else 1
    {
      ghost var t := S();
      MissingFilled(s, t, c, page, r, Px(a));
      ghost var e := perm.(ppn := c);
      BelowTrapframe(a);
      OnlyPage(s, t, r, a, e, page);
      ghost var k;
      ok, k := Mappages(r, a, PGSIZE, perm.(ppn := c));
      ghost var u := S();
      if ok {
        OneSet(t, u, r, a / PGSIZE, e, Px(a));
        MapNewDid(s, t, u, r, Px(a), e, page);
        MapNewShows(s, t, u, r, Px(a), a / PGSIZE, e, page);
        assert SetAt(t, u, r, Px(a), e, r, Px(a));
      } else {
        NoneMapped(t, u, r, a / PGSIZE, e);
        assert GrewAt(t, u, r, c);
        MapNewFails(s, t, u, r, a / PGSIZE, e, page, Bytes(seq(PGSIZE, _ => 1)), Some(perm, page));
        Kfree(c);
      }
    }

    /** uvmcreate: an empty page table; 0 when there is no page for it. */
    method Uvmcreate() returns (r: nat)
      requires Valid()
      modifies this`mem, this`freelist, this`own
      ensures Valid() && (r == 0 <==> old(freelist) == []) && (r == 0 ==> S() == old(S()))
      ensures r != 0 ==> r in old(own) && old(own)[r] == Free && IsTop(S(), r) && Did(old(S()), S(), r)
      ensures r != 0 ==> forall x :: Lookup(mem, r, x) == NO_PTE && Missing(mem, r, x) == 2
      ensures r != 0 ==> |freelist| == |old(freelist)| - 1
    {
      ghost var s := S();
      r := Kalloc();
      if r != 0 {
        TakenKeeps(s, Bytes(seq(PGSIZE, _ => 5)));
        NewRootKeeps(S(), r);
        SameMore(s, S(), Reused(S(), r, ZeroTable(), Top));
        mem := mem[r := ZeroTable()];
        own := own[r := Top];
        NewRootDid(s, S(), r);
      }
    }

    /** uvmdealloc: pages [PGROUNDUP(newsz), PGROUNDUP(oldsz)) are unmapped and freed. */
    method Uvmdealloc(r: nat, oldsz: nat, newsz: nat) returns (sz: nat)
      requires Valid() && IsTop(S(), r) && oldsz <= TRAPFRAME
      modifies this`mem, this`freelist, this`own
      ensures Valid() && Did(old(S()), S(), r) && sz == if newsz >= oldsz then oldsz else newsz
      ensures Shows(old(S()), S(), r, Up(sz), Up(oldsz) - Up(sz), None) && |freelist| >= |old(freelist)|
    {
      ghost var s := S();
      DidNothing(s, r);
      ShowsNone(s, r, Up(oldsz), None);
      if newsz >= oldsz {
        return oldsz;
      }
      ShowsNone(s, r, Up(newsz), None);
      if Up(newsz) < Up(oldsz) {
        OrdinaryRange(Up(newsz), Up(oldsz) - Up(newsz));
        Uvmunmap(r, Up(newsz) * PGSIZE, Up(oldsz) - Up(newsz), true);
        UnmapShows(s, S(), r, Up(newsz), Up(oldsz) - Up(newsz));
      }
      return newsz;
    }

    /** uvmalloc: zeroed pages for [PGROUNDUP(oldsz), newsz). 0 when memory runs out, and then all pages it had
        mapped are gone again. */
    method Uvmalloc(r: nat, oldsz: nat, newsz: nat, w: bool, x: bool) returns (sz: nat, ghost ok: bool)
      requires Valid() && IsTop(S(), r) && oldsz <= TRAPFRAME && newsz <= TRAPFRAME
      requires newsz >= oldsz ==> Vacant(S(), r, Up(oldsz), Up(newsz) - Up(oldsz))
      modifies this`mem, this`freelist, this`own
      ensures Valid() && Did(old(S()), S(), r) && sz == if !ok then 0 else if newsz < oldsz then oldsz else newsz
      ensures Shows(old(S()), S(), r, Up(oldsz), if ok && newsz >= oldsz then Up(newsz) - Up(oldsz) else 0,
                    Some(Pte(0, true, true, w, x, true), ZeroPage()))
      ensures Spends(old(S()), S(), if newsz >= oldsz then 3 * (Up(newsz) - Up(oldsz)) else 0, !ok)
    {
      ghost var s := S();
      ok := true;
      DidNothing(s, r);
      ShowsNone(s, r, Up(oldsz), Some(Pte(0, true, true, w, x, true), ZeroPage()));
      if newsz < oldsz {
        return oldsz, true;
      }
      sz, ok := AllocRange(r, oldsz, newsz, w, x);
    }

    /** uvmalloc's loop. */
    method AllocRange(r: nat, oldsz: nat, newsz: nat, w: bool, x: bool) returns (sz: nat, ghost ok: bool)
      requires Valid() && IsTop(S(), r) && oldsz <= newsz <= TRAPFRAME && Up(oldsz) <= Up(newsz)
      requires Vacant(S(), r, Up(oldsz), Up(newsz) - Up(oldsz)) && Allocated(S(), S(), r, Up(oldsz), 0, w, x)
      modifies this`mem, this`freelist, this`own
      ensures Valid() && Did(old(S()), S(), r) && sz == if ok then newsz else 0
      ensures Allocated(old(S()), S(), r, Up(oldsz), if ok then Up(newsz) - Up(oldsz) else 0, w, x)
      ensures Spends(old(S()), S(), 3 * (Up(newsz) - Up(oldsz)), !ok)
    {
      ghost var s, v, top := S(), Up(oldsz), Up(newsz);
      var a := Up(oldsz) * PGSIZE;
      ghost var k := 0;
      UpBelow(v, newsz);
      while a < newsz
        invariant Valid() && Allocated(s, S(), r, v, k, w, x) && a == (v + k) * PGSIZE && v + k <= top && (a < newsz <==> v + k < top)
        invariant |s.freelist| <= |freelist| + 3 * k
      {
        VacantPart(s, r, v, k + 1, top - v);
        var mapped := AllocAt(r, a, Up(oldsz) * PGSIZE, w, x, s, v, k);
        if !mapped {
          return 0, false;
        }
        k := k + 1;
        a := a + PGSIZE;
        UpBelow(v + k, newsz);
      }
      return newsz, true;
    }

    /** One turn of uvmalloc's loop, with its way out. */
    method AllocAt(r: nat, a: nat, start: nat, w: bool, x: bool, ghost s: Vm, ghost v: nat, ghost k: nat) returns (mapped: bool)
      requires Valid() && Allocated(s, S(), r, v, k, w, x) && start == v * PGSIZE && a == (v + k) * PGSIZE && a < TRAPFRAME
      requires Vacant(s, r, v, k + 1)
      modifies this`mem, this`freelist, this`own
      ensures Valid() && Did(s, S(), r) && Allocated(s, S(), r, v, if mapped then k + 1 else 0, w, x)
      ensures Spends(old(S()), S(), 3, !mapped)
    {
      NextVacant(s, S(), r, a, v, k, w, x);
      ghost var t := S();
      var c := MapNew(r, a, ZeroPage(), Pte(0, true, true, w, x, true));
      mapped := c != 0;
      DidMore(s, t, S(), r);
      ShowsTwice(s, t, S(), r, v, k, if mapped then 1 else 0, Some(Pte(0, true, true, w, x, true), ZeroPage()));
      if !mapped {
        AllocUndo(r, a, start, w, x, s, v, k);
      }
    }

    method AllocUndo(r: nat, a: nat, start: nat, w: bool, x: bool, ghost s: Vm, ghost v: nat, ghost k: nat)
      requires Valid() && Allocated(s, S(), r, v, k, w, x) && start == v * PGSIZE && a == (v + k) * PGSIZE && a < TRAPFRAME
      requires Vacant(s, r, v, k + 1)
      modifies this`mem, this`freelist, this`own
      ensures Valid() && Did(s, S(), r) && Allocated(s, S(), r, v, 0, w, x)
    {
      ghost var t := S();
      UpOfPages(v);
      UpOfPages(v + k);
      var back := Uvmdealloc(r, a, start);
      DidMore(s, t, S(), r);
      OrdinaryRange(v, k);
      ShowsUndone(s, t, S(), r, v, k, Some(Pte(0, true, true, w, x, true), ZeroPage()));
    }

    /** freewalk without its last kfree: every table below p is freed. No leaf is met, since nothing is mapped. */
    method FreeBelow(p: nat)
      requires Valid() && p in own && IsTable(own[p]) && NoLeaves(S(), p)
      modifies this`mem, this`freelist, this`own
      ensures Valid() && ChildSwept(old(S()), S(), p)
      decreases Rank(own[p]), 1
    {
      ghost var s := S();
      FreeingNone(s, p);
      var i := 0;
      while i < NPTE
        invariant 0 <= i <= NPTE && Freeing(s, S(), p, i)
      {
        FreeTurn(p, i, s);
        i := i + 1;
      }
    }

    /** One turn of freewalk's loop. */
    method FreeTurn(p: nat, i: nat, ghost s: Vm)
      requires Valid() && Freeing(s, S(), p, i) && i < NPTE
      modifies this`mem, this`freelist, this`own
      ensures Freeing(s, S(), p, i + 1)
      decreases Rank(own[p]), 0
    {
      ghost var t := S();
      SlotFound(t, p, i);
      assert EntryOk(t, p, i);
      var e := mem[p].ptes[i];
      if own[p].Low? { LowEmpty(t, p, i); }
      assert !(e.v && Leaf(e));
      if e.v && !Leaf(e) {
        DropChild(t, p, i);
        ChildNoLeaves(t, p, i);
        FreeBelow(e.ppn);
        assert TableAt(t, S(), e.ppn, p) && SweptAt(t.own, own, e.ppn, t.own[e.ppn], NPTE, p);
        FreeSlot(p, i, s, t);
      } else {
        SweptSkip(t, s.own, p, i);
      }
    }

    /** The rest of freewalk for slot i: kfree of the table below, which is empty by now, and the slot is zero. */
    method FreeSlot(p: nat, i: nat, ghost s: Vm, ghost t: Vm)
      requires Valid() && Freeing(s, t, p, i) && i < NPTE && SlotAt(t, p, i) && !t.own[p].Low? && Entry(t.mem, p, i) != NO_PTE
      requires Entry(t.mem, p, i).ppn in t.own && ChildSwept(t, S(), Entry(t.mem, p, i).ppn)
      requires p < |mem| && p < |t.mem| && mem[p] == t.mem[p]
      modifies this`mem, this`freelist, this`own
      ensures Freeing(s, S(), p, i + 1)
    {
      SlotFreedAll(s, t, S(), p, i, Bytes(seq(PGSIZE, _ => 1)));
      DropSlot(p, i);
    }

    /** kfree of the table that slot i of p points to, and the slot is zero. */
    method DropSlot(p: nat, i: nat)
      requires p < |mem| && mem[p].Table? && i < |mem[p].ptes| && mem[p].ptes[i].ppn < |mem| && mem[p].ptes[i].ppn != p
      modifies this`mem, this`freelist, this`own
      ensures S() == Given(DropTable(old(S()), p, i), Entry(old(mem), p, i).ppn, Bytes(seq(PGSIZE, _ => 1)))
    {
      var c := mem[p].ptes[i].ppn;
      mem := mem[c := Bytes(seq(PGSIZE, _ => 1))];
      freelist := [c] + freelist;
      mem := mem[p := Table(mem[p].ptes[i := NO_PTE])];
      own := own[c := Free];
      assert mem == SetEntry(old(mem), p, i, NO_PTE)[c := Bytes(seq(PGSIZE, _ => 1))];
    }

    /** freewalk: all tables of r go back to the free list, once nothing is mapped. */
    method Freewalk(r: nat)
      requires Valid() && IsTop(S(), r) && NoLeaves(S(), r)
      modifies this`mem, this`freelist, this`own
      ensures Valid() && Gone(old(S()), S(), r)
    {
      ghost var s := S();
      FreeBelow(r);
      ghost var u := S();
      FreedRoot(s, u, r, Bytes(seq(PGSIZE, _ => 1)));
      own := own[r := Held];
      Kfree(r);
    }

    /** uvmfree: the user pages below sz, then the tables. */
    method Uvmfree(r: nat, sz: nat)
      requires Valid() && IsTop(S(), r) && sz <= TRAPFRAME
      requires forall y :: IdxOk(y) && Lookup(mem, r, y) != NO_PTE ==> InRange(y, 0, Up(sz))
      modifies this`mem, this`freelist, this`own
      ensures Valid() && Gone(old(S()), S(), r)
    {
      ghost var s := S();
      DidNothing(s, r);
      if sz > 0 {
        OrdinaryRange(0, Up(sz));
        Uvmunmap(r, 0, Up(sz), true);
        UnmapShows(s, S(), r, 0, Up(sz));
        forall x | IdxOk(x) ensures Lookup(mem, r, x) == NO_PTE {
          assert ClearAt(s, S(), r, 0, Up(sz), r, x);
        }
      }
      ghost var t := S();
      Freewalk(r);
      GoneAfter(s, t, S(), r);
    }

    /** ismapped. */
    method Ismapped(r: nat, va: nat) returns (yes: bool)
      requires Valid() && IsTop(S(), r) && va < MAXVA
      modifies this`mem, this`freelist, this`own
      ensures S() == old(S()) && (yes <==> Lookup(mem, r, Px(va)) != NO_PTE)
    {
      var t := Walk(r, va, false);
      PxVpn(va);
      if t == 0 {
        return false;
      }
      assert EntryOk(S(), t, Px(va).i0);
      return mem[t].ptes[Px(va).i0].v;
    }

    /** uvmcopy: what table r shows below sz appears in table n, in pages of its own; on failure nothing does. */
    method Uvmcopy(r: nat, n: nat, sz: nat) returns (ok: bool)
      requires Valid() && IsTop(S(), r) && IsTop(S(), n) && r != n && sz <= TRAPFRAME && Vacant(S(), n, 0, Up(sz))
      modifies this`mem, this`freelist, this`own
      ensures Valid() && Did(old(S()), S(), n)
      ensures ok ==> Copied(old(S()), S(), r, n, Up(sz))
      ensures !ok ==> Shows(old(S()), S(), n, 0, 0, None)
      ensures Spends(old(S()), S(), 3 * Up(sz), !ok)
    {
      ghost var s, top := S(), Up(sz);
      CopiedNone(s, r, n);
      var i := 0;
      ghost var k := 0;
      UpBelow(0, sz);
      while i < sz
        invariant Valid() && Copied(s, S(), r, n, k) && i == k * PGSIZE && k <= top && (i < sz <==> k < top)
        invariant |s.freelist| <= |freelist| + 3 * k
      {
        ok := CopyAt(r, n, i, s, k, top);
        if !ok {
          return;
        }
        i := i + PGSIZE;
        k := k + 1;
        UpBelow(k, sz);
      }
      ok := true;
    }

    /** One turn of uvmcopy's loop, with its way out. */
    method CopyAt(r: nat, n: nat, i: nat, ghost s: Vm, ghost k: nat, ghost top: nat) returns (ok: bool)
      requires Valid() && Copied(s, S(), r, n, k) && i == k * PGSIZE && i < TRAPFRAME && k < top && Vacant(s, n, 0, top)
      modifies this`mem, this`freelist, this`own
      ensures Valid() && Did(s, S(), n) && if ok then Copied(s, S(), r, n, k + 1) else Shows(s, S(), n, 0, 0, None)
      ensures Spends(old(S()), S(), 3, !ok)
    {
      ghost var t := S();
      VacantPart(s, n, 0, k + 1, top);
      NextCopy(s, t, r, n, k, i);
      var low := Walk(r, i, false);
      if low == 0 || !mem[low].ptes[Px(i).i0].v {
        if low != 0 { assert EntryOk(t, low, Px(i).i0); }
        CopiedSkip(s, t, r, n, k, Px(i));
        return true;
      }
      var e := mem[low].ptes[Px(i).i0];
      Mapped(t, r, Px(i));
      assert PageOk(t, e.ppn);
      var c := MapNew(n, i, mem[e.ppn], Perm(e));
      ok := c != 0;
      if ok {
        CopiedMore(s, t, S(), r, n, k, Px(i));
      } else {
        CopyUndo(r, n, i, s, t, k, Some(Perm(e), t.mem[e.ppn]));
      }
    }

    method CopyUndo(r: nat, n: nat, i: nat, ghost s: Vm, ghost t: Vm, ghost k: nat, ghost m: Mapping)
      requires Valid() && Copied(s, t, r, n, k) && i == k * PGSIZE && i < TRAPFRAME && Vacant(s, n, 0, k + 1)
      requires Did(t, S(), n) && Shows(t, S(), n, k, 0, m)
      modifies this`mem, this`freelist, this`own
      ensures Valid() && Did(s, S(), n) && Shows(s, S(), n, 0, 0, None)
    {
      ghost var u := S();
      OrdinaryRange(0, k);
      Uvmunmap(n, 0, i / PGSIZE, true);
      UnmapShows(u, S(), n, 0, k);
      VacantPart(s, n, 0, k, k + 1);
      CopyUndone(s, t, u, S(), r, n, k, m);
    }

    /** vmfault for the process whose page table is r: a zeroed page for va if va is below sz and has none. */
    method Vmfault(r: nat, sz: nat, va: nat) returns (c: nat)
      requires Valid() && IsTop(S(), r) && sz <= TRAPFRAME
      modifies this`mem, this`freelist, this`own
      ensures Valid() && Did(old(S()), S(), r)
      ensures c != 0 ==> va < sz && Lookup(old(mem), r, Px(va)) == NO_PTE && Lookup(mem, r, Px(va)) == FreshPage().perm.(ppn := c)
      ensures Shows(old(S()), S(), r, va / PGSIZE, if c != 0 then 1 else 0, FreshPage())
      ensures c == 0 ==> va >= sz || Lookup(old(mem), r, Px(va)) != NO_PTE || Starved(S())
      ensures c != 0 <==> va < sz && Lookup(old(mem), r, Px(va)) == NO_PTE && |old(freelist)| >= 1 + Missing(old(mem), r, Px(va))
      ensures |old(freelist)| <= |freelist| + 3
    {
      ghost var s := S();
      DidNothing(s, r);
      ShowsNone(s, r, va / PGSIZE, FreshPage());
      if va >= sz {
        return 0;
      }
      var a := va / PGSIZE * PGSIZE;
      RoundDown(va);
      var yes := Ismapped(r, a);
      if yes {
        return 0;
      }
      c := MapNew(r, a, ZeroPage(), Pte(0, true, true, true, false, true));
    }

    /** walkaddr: the page that the user sees at va; 0 if there is none, or it is the kernel's. */
    method Walkaddr(r: nat, va: nat) returns (p: nat)
      requires Valid() && IsTop(S(), r)
      modifies this`mem, this`freelist, this`own
      ensures S() == old(S())
      ensures p == if va < MAXVA && Lookup(mem, r, Px(va)).v && Lookup(mem, r, Px(va)).u then Lookup(mem, r, Px(va)).ppn else 0
    {
      if va >= MAXVA {
        return 0;
      }
      var t := Walk(r, va, false);
      if t == 0 {
        return 0;
      }
      var e := mem[t].ptes[Px(va).i0];
      p := if !e.v then 0 else if !e.u then 0 else e.ppn;
    }

    /** What copyin and copyout do first for page v at va0: walkaddr, and vmfault if it has no page. The user sees no
        change. short says that memory ran out. */
    method Touch(r: nat, sz: nat, va0: nat, ghost v: nat) returns (p: nat, ghost short: bool)
      requires Proper(S(), r, sz) && va0 == v * PGSIZE
      modifies this`mem, this`freelist, this`own
      ensures Touched(old(S()), S(), r, sz, v, p, short)
    {
      DidNothing(S(), r);
      if va0 < MAXVA { UserPage(S(), r, sz, va0, v); }
      p := Walkaddr(r, va0);
      short := false;
      if p == 0 {
        p, short := Fault(r, sz, va0, v);
      }
    }

    method Fault(r: nat, sz: nat, va0: nat, ghost v: nat) returns (p: nat, ghost short: bool)
      requires Proper(S(), r, sz) && va0 == v * PGSIZE
      requires va0 < MAXVA ==> !(Lookup(mem, r, Px(va0)).v && Lookup(mem, r, Px(va0)).u)
      modifies this`mem, this`freelist, this`own
      ensures Touched(old(S()), S(), r, sz, v, p, short)
    {
      ghost var s := S();
      PageBelow(v, sz);
      PageNumber(v);
      p := Vmfault(r, sz, va0);
      short := p == 0 && va0 < sz && Lookup(s.mem, r, Px(va0)) == NO_PTE;
      if p != 0 {
        FaultSeen(s, S(), r, sz, v);
        MappedSeen(S(), r, sz, v);
      } else {
        StillSeen(s, S(), r, sz, v, FreshPage());
        if va0 < sz && !short { MappedSeen(s, r, sz, v); }
      }
    }

    /** copyin: the result depends on the image alone, and does not change it, unless memory runs short. */
    method Copyin(r: nat, sz: nat, srcva: nat, len: nat) returns (ok: bool, bytes: seq<Byte>, ghost short: bool)
      requires Proper(S(), r, sz)
      modifies this`mem, this`freelist, this`own
      ensures Kept(old(S()), S(), r, sz)
      ensures if short then !ok && Starved(S()) else (ok, bytes) == CopyIn(Image(old(S()), r, sz), srcva, len)
      ensures Spends(old(S()), S(), 3 * Span(srcva, len), short)
    {
      ghost var s := S();
      InStart(s, r, sz, srcva, len);
      ok, bytes, short := true, [], false;
      var va: nat, left: nat := srcva, len;
      while left > 0
        invariant ok && !short && InSoFar(s, S(), r, sz, srcva, len, bytes, va, left)
        invariant Span(va, left) <= Span(srcva, len) && |s.freelist| <= |freelist| + 3 * (Span(srcva, len) - Span(va, left))
      {
        SpanNext(va, left);
        ok, bytes, va, left, short := LoadPage(r, sz, va, left, bytes, s, srcva, len);
        if !ok {
          return;
        }
      }
      ReadEnds(Image(s, r, sz), srcva, len, bytes, va, left);
    }

    /** One turn of copyin's loop. */
    method LoadPage(r: nat, sz: nat, va: nat, left: nat, done: seq<Byte>, ghost s: Vm, ghost srcva: nat, ghost len: nat)
      returns (ok: bool, bytes: seq<Byte>, va': nat, left': nat, ghost short: bool)
      requires left > 0 && InSoFar(s, S(), r, sz, srcva, len, done, va, left)
      modifies this`mem, this`freelist, this`own
      ensures Kept(s, S(), r, sz) && (short ==> !ok && Starved(S()))
      ensures ok ==> left' < left && InSoFar(s, S(), r, sz, srcva, len, bytes, va', left')
      ensures ok ==> va' == (va / PGSIZE + 1) * PGSIZE && left' == left - InPage(va, left)
      ensures Spends(old(S()), S(), 3, short)
      ensures !ok && !short ==> CopyIn(Image(s, r, sz), srcva, len) == (false, bytes)
    {
      var p;
      p, short := TouchMore(r, sz, va / PGSIZE * PGSIZE, va / PGSIZE, s);
      if p == 0 {
        if !short { ReadEnds(Image(s, r, sz), srcva, len, done, va, left); }
        return false, done, va, left, short;
      }
      ReadMore(Image(s, r, sz), srcva, len, done, va, left);
      ok, bytes := true, done + mem[p].bytes[va % PGSIZE..va % PGSIZE + InPage(va, left)];
      va', left' := (va / PGSIZE + 1) * PGSIZE, left - InPage(va, left);
    }

    method TouchMore(r: nat, sz: nat, va0: nat, ghost v: nat, ghost s: Vm) returns (p: nat, ghost short: bool)
      requires Kept(s, S(), r, sz) && va0 == v * PGSIZE
      modifies this`mem, this`freelist, this`own
      ensures Kept(s, S(), r, sz)
      ensures p != 0 ==> Readable(PageAt(Image(s, r, sz), v)) && p < |mem| && mem[p] == PageAt(Image(s, r, sz), v).page
      ensures p == 0 && !short ==> !Readable(PageAt(Image(s, r, sz), v))
      ensures short ==> p == 0 && Starved(S())
      ensures Spends(old(S()), S(), 3, short)
    {
      ghost var t := S();
      p, short := Touch(r, sz, va0, v);
      DidMore(s, t, S(), r);
      AlikeIff(t, S(), r, sz);
      AlikeMore(s, t, S(), r, sz);
      AlikeIff(s, S(), r, sz);
    }

    /** memmove into page p, which the user sees at page v. */
    method Store(r: nat, sz: nat, p: nat, at: nat, bytes: seq<Byte>, ghost v: nat)
      requires Proper(S(), r, sz) && SeenIn(S(), r, sz, v, p) && at + |bytes| <= PGSIZE
      modifies this`mem
      ensures Did(old(S()), S(), r) && Proper(S(), r, sz) && KernelSame(old(S()), S(), r)
      ensures var img := Image(old(S()), r, sz);
              Image(S(), r, sz) == img[v := Some(img[v].perm, PatchPage(img[v].page, at, bytes))]
    {
      ghost var s := S();
      PageBelow(v, sz);
      WriteShows(s, r, IdxOf(v), PatchPage(mem[p], at, bytes));
      ghost var t := Reused(s, p, PatchPage(mem[p], at, bytes), User(r, IdxOf(v)));
      mem := mem[p := PatchPage(mem[p], at, bytes)];
      assert own[p := User(r, IdxOf(v))] == own;
      assert S() == t;
      WriteSeen(s, t, r, sz, v, Some(Perm(Lookup(s.mem, r, IdxOf(v))), PatchPage(s.mem[p], at, bytes)));
    }

    /** copyout: the new image and the result depend on the old image alone, unless memory runs short. */
    method Copyout(r: nat, sz: nat, dstva: nat, src: seq<Byte>) returns (ok: bool, ghost short: bool)
      requires Proper(S(), r, sz)
      modifies this`mem, this`freelist, this`own
      ensures Did(old(S()), S(), r) && Proper(S(), r, sz) && KernelSame(old(S()), S(), r)
      ensures if short then !ok && Starved(S())
              else (ok, Image(S(), r, sz)) == CopyOut(Image(old(S()), r, sz), dstva, src)
      ensures Spends(old(S()), S(), 3 * Span(dstva, |src|), short)
    {
      ghost var s := S();
      DidNothing(s, r);
      ok, short := true, false;
      var va: nat, rest := dstva, src;
      while rest != []
        invariant ok && !short && OutSoFar(s, S(), r, sz, dstva, src, va, rest)
        invariant Span(va, |rest|) <= Span(dstva, |src|) && |s.freelist| <= |freelist| + 3 * (Span(dstva, |src|) - Span(va, |rest|))
        decreases |rest|
      {
        ok, short, va, rest := StoreTurn(r, sz, va, rest, s, dstva, src);
        if !ok {
          return;
        }
      }
    }

    /** A turn of copyout, and where the next one starts. */
    method StoreTurn(r: nat, sz: nat, va: nat, rest: seq<Byte>, ghost s: Vm, ghost dstva: nat, ghost src: seq<Byte>)
      returns (ok: bool, ghost short: bool, va': nat, rest': seq<Byte>)
      requires rest != [] && OutSoFar(s, S(), r, sz, dstva, src, va, rest)
      modifies this`mem, this`freelist, this`own
      ensures Did(s, S(), r) && Proper(S(), r, sz) && KernelSame(s, S(), r) && (short ==> !ok && Starved(S()))
      ensures ok ==> OutSoFar(s, S(), r, sz, dstva, src, va', rest') && |rest'| < |rest| && Span(va, |rest|) == 1 + Span(va', |rest'|)
      ensures !ok && !short ==> CopyOut(Image(s, r, sz), dstva, src) == (false, Image(S(), r, sz))
      ensures Spends(old(S()), S(), 3, short) && Span(va, |rest|) >= 1
    {
      SpanNext(va, |rest|);
      ok, short := StorePage(r, sz, va, rest, s, dstva, src);
      rest' := rest[InPage(va, |rest|)..];
      va' := (va / PGSIZE + 1) * PGSIZE;
    }

    /** One turn of copyout's loop. */
    method StorePage(r: nat, sz: nat, va: nat, rest: seq<Byte>, ghost s: Vm, ghost dstva: nat, ghost src: seq<Byte>)
      returns (ok: bool, ghost short: bool)
      requires rest != [] && OutSoFar(s, S(), r, sz, dstva, src, va, rest)
      modifies this`mem, this`freelist, this`own
      ensures Did(s, S(), r) && Proper(S(), r, sz) && KernelSame(s, S(), r) && (short ==> !ok && Starved(S()))
      ensures ok ==> OutSoFar(s, S(), r, sz, dstva, src, (va / PGSIZE + 1) * PGSIZE, rest[InPage(va, |rest|)..])
      ensures !ok && !short ==> CopyOut(Image(s, r, sz), dstva, src) == (false, Image(S(), r, sz))
      ensures Spends(old(S()), S(), 3, short)
    {
      ghost var t, v := S(), va / PGSIZE;
      var p;
      p, short := Touch(r, sz, va / PGSIZE * PGSIZE, v);
      DidMore(s, t, S(), r);
      if p == 0 {
        return false, short;
      }
      PageNumber(v);
      PageBelow(v, sz);
      ok := Writable(r, va / PGSIZE * PGSIZE);
      if ok {
        ghost var u := S();
        WriteMore(Image(u, r, sz), va, rest);
        Store(r, sz, p, va % PGSIZE, rest[..InPage(va, |rest|)], v);
        DidMore(s, u, S(), r);
      }
    }

    /** copyout's test of PTE_W. */
    method Writable(r: nat, va0: nat) returns (w: bool)
      requires Valid() && IsTop(S(), r) && va0 < MAXVA && Lookup(mem, r, Px(va0)) != NO_PTE
      modifies this`mem, this`freelist, this`own
      ensures S() == old(S()) && w == Lookup(mem, r, Px(va0)).w
    {
      var t := Walk(r, va0, false);
      w := mem[t].ptes[Px(va0).i0].w;
    }

    /** copyinstr: it reads only pages that are present, and never allocates. */
    method Copyinstr(r: nat, ghost sz: nat, srcva: nat, max: nat) returns (ok: bool, str: seq<Byte>)
      requires Proper(S(), r, sz)
      modifies this`mem, this`freelist, this`own
      ensures S() == old(S()) && (ok, str) == CopyStr(Present(S(), r, sz), srcva, max)
    {
      ok, str := false, [];
      var va: nat, left: nat := srcva, max;
      var done := false;
      ScanStart(Present(S(), r, sz), va, left);
      while left > 0
        invariant S() == old(S()) && !ok && !done && ScanSoFar(Present(S(), r, sz), srcva, max, str, va, left)
      {
        done, ok, str, va, left := ScanPage(r, sz, srcva, max, str, va, left);
        if done {
          return;
        }
      }
      ScanEnds(Present(S(), r, sz), srcva, max, str, va, left);
    }

    /** Bytes of one page, up to a NUL. */
    method ScanBytes(bytes: seq<Byte>, ghost img: seq<Mapping>, ghost srcva: nat, ghost max: nat, str: seq<Byte>, va: nat, left: nat)
      returns (done: bool, str': seq<Byte>, va': nat, left': nat)
      requires |bytes| == PGSIZE && left > 0 && ScanSoFar(img, srcva, max, str, va, left)
      requires Readable(PageAt(img, va / PGSIZE)) && PageAt(img, va / PGSIZE).page.bytes == bytes
      ensures if done then CopyStr(img, srcva, max) == (true, str') else left' < left && ScanSoFar(img, srcva, max, str', va', left')
    {
      var n := InPage(va, left);
      var k := FindNul(bytes, va % PGSIZE, n);
      ScanMore(img, srcva, max, str, va, left, k);
      str' := str + bytes[va % PGSIZE..va % PGSIZE + k];
      va', left' := va + k, left - k;
      done := k < n;
      if k < n {
        PageStep(va, k);
        ScanEnds(img, srcva, max, str', va', left');
      }
    }

    /** One turn of copyinstr's outer loop. */
    method ScanPage(r: nat, ghost sz: nat, ghost srcva: nat, ghost max: nat, str: seq<Byte>, va: nat, left: nat)
      returns (done: bool, ok: bool, str': seq<Byte>, va': nat, left': nat)
      requires Proper(S(), r, sz) && left > 0 && ScanSoFar(Present(S(), r, sz), srcva, max, str, va, left)
      modifies this`mem, this`freelist, this`own
      ensures S() == old(S())
      ensures if done then (ok, str') == CopyStr(Present(S(), r, sz), srcva, max)
              else !ok && left' < left && ScanSoFar(Present(S(), r, sz), srcva, max, str', va', left')
    {
      ghost var img, v := Present(S(), r, sz), va / PGSIZE;
      PresentPage(S(), r, sz, v * PGSIZE, v);
      var p := Walkaddr(r, va / PGSIZE * PGSIZE);
      if p == 0 {
        ScanEnds(img, srcva, max, str, va, left);
        return true, false, str, va, left;
      }
      assert Readable(PageAt(img, v)) && PageAt(img, v).page.bytes == mem[p].bytes;
      done, str', va', left' := ScanBytes(mem[p].bytes, img, srcva, max, str, va, left);
      ok := done;
    }
  }

  lemma PageStep(va: nat, k: nat)
    requires va % PGSIZE + k < PGSIZE
    ensures (va + k) / PGSIZE == va / PGSIZE && (va + k) % PGSIZE == va % PGSIZE + k
  {
  }

  /** copyinstr's inner loop: how many of n bytes come before a NUL. */
  method FindNul(bytes: seq<Byte>, at: nat, n: nat) returns (k: nat)
    requires at + n <= |bytes|
    ensures k <= n && (forall j :: at <= j < at + k ==> bytes[j] != 0) && (k < n ==> bytes[at + k] == 0)
  {
    k := 0;
    while k < n
      invariant k <= n && forall j :: at <= j < at + k ==> bytes[j] != 0
    {
      if bytes[at + k] == 0 {
        return;
      }
      k := k + 1;
    }
  }

  /** copyout has rest to go from va. */
  ghost predicate OutSoFar(s: Vm, t: Vm, r: nat, sz: nat, dstva: nat, src: seq<Byte>, va: nat, rest: seq<Byte>) {
    Did(s, t, r) && Proper(t, r, sz) && KernelSame(s, t, r) && CopyOut(Image(s, r, sz), dstva, src) == CopyOut(Image(t, r, sz), va, rest)
  }

  /** copyin has read bytes, and has left to go from va. */
  ghost predicate InSoFar(s: Vm, t: Vm, r: nat, sz: nat, srcva: nat, len: nat, bytes: seq<Byte>, va: nat, left: nat) {
    Kept(s, t, r, sz) && ReadSoFar(Image(s, r, sz), srcva, len, bytes, va, left)
  }

  lemma InStart(s: Vm, r: nat, sz: nat, srcva: nat, len: nat)
    requires Proper(s, r, sz)
    ensures InSoFar(s, s, r, sz, srcva, len, [], srcva, len)
  {
    DidNothing(s, r);
    AlikeIff(s, s, r, sz);
    ReadStart(Image(s, r, sz), srcva, len);
  }

  /** Reading leaves the user's image alone. */
  ghost predicate Kept(s: Vm, t: Vm, r: nat, sz: nat) {
    Did(s, t, r) && Proper(t, r, sz) && KernelSame(s, t, r) && Alike(s, t, r, sz)
  }

  /** A page that walkaddr finds is one of the process's own. */
  lemma UserPage(s: Vm, r: nat, sz: nat, va0: nat, v: nat)
    requires Proper(s, r, sz) && va0 == v * PGSIZE && va0 < MAXVA
    ensures var e := Lookup(s.mem, r, Px(va0));
            e.v && e.u ==> e.ppn != 0 && Readable(PageAt(Image(s, r, sz), v)) && SeenIn(s, r, sz, v, e.ppn)
  {
    PageNumber(v);
    PageBelow(v, sz);
    if v >= Up(sz) {
      BeyondEnd(s, r, sz, va0);
    } else if Lookup(s.mem, r, Px(va0)).v {
      MappedSeen(s, r, sz, v);
    }
  }

  lemma PageNumber(v: nat)
    ensures v * PGSIZE / PGSIZE == v && IdxOf(v) == Px(v * PGSIZE)
  {
  }

  /** Page v of r was looked at: p is its page, or 0 if the user may not read it, or memory ran out. */
  ghost predicate Touched(s: Vm, t: Vm, r: nat, sz: nat, v: nat, p: nat, short: bool) {
    && Did(s, t, r) && Proper(t, r, sz) && Image(t, r, sz) == Image(s, r, sz) && KernelSame(s, t, r)
    && (p != 0 ==> Readable(PageAt(Image(t, r, sz), v)) && SeenIn(t, r, sz, v, p))
    && (p == 0 && !short ==> !Readable(PageAt(Image(t, r, sz), v)))
    && (short ==> p == 0 && Starved(t)) && Spends(s, t, 3, short)
  }

  /** Page p is the one the user sees at page v. */
  ghost predicate SeenIn(s: Vm, r: nat, sz: nat, v: nat, p: nat) {
    && v < Up(sz) && Lookup(s.mem, r, IdxOf(v)).v && Lookup(s.mem, r, IdxOf(v)).ppn == p && p < |s.mem| && BytesPage(s, p)
    && UserIdx(IdxOf(v)) && Image(s, r, sz)[v] == Some(Perm(Lookup(s.mem, r, IdxOf(v))), s.mem[p])
  }

  /** A step that needs n pages from the free list: it succeeds exactly when they are there, and takes them. */
  ghost predicate Costs(s: Vm, t: Vm, n: nat, ok: bool) {
    && (ok <==> |s.freelist| >= n)
    && |t.freelist| == if ok then |s.freelist| - n else 0
  }

  /** A page taken from the free list was no table. */
  lemma MissingFilled(s: Vm, t: Vm, c: nat, page: Page, r: nat, x: Idx)
    requires Filled(s, t, c, page) && IsTop(s, r) && IdxOk(x)
    ensures Missing(t.mem, r, x) == Missing(s.mem, r, x)
  {
    Down1(s, r, x.i2);
    Down0(s, r, x.i2, x.i1);
  }

  /** A step that takes at most n pages from the free list, and runs short only when there were fewer. */
  ghost predicate Spends(s: Vm, t: Vm, n: nat, short: bool) {
    if short then |s.freelist| < n else |s.freelist| <= |t.freelist| + n
  }

  /** Memory has run out, but for at most one page that was just given back. */
  ghost predicate Starved(s: Vm) {
    |s.freelist| <= 1
  }

  lemma RoundDown(va: nat)
    ensures var a := va / PGSIZE * PGSIZE; a <= va && a % PGSIZE == 0 && a / PGSIZE == va / PGSIZE && Px(a) == Px(va)
  {
    var a := va / PGSIZE * PGSIZE;
    assert a / 0x1000 == va / 0x1000;
    assert a / 0x20_0000 == a / 0x1000 / 512 && va / 0x20_0000 == va / 0x1000 / 512;
    assert a / 0x4000_0000 == a / 0x20_0000 / 512 && va / 0x4000_0000 == va / 0x20_0000 / 512;
  }

  lemma NextCopy(s: Vm, t: Vm, r: nat, n: nat, k: nat, i: nat)
    requires Inv(t) && Copied(s, t, r, n, k) && i == k * PGSIZE && i < TRAPFRAME && Vacant(s, n, 0, k + 1)
    ensures UserIdx(Px(i)) && Vpn(Px(i)) == k && i / PGSIZE == k && i % PGSIZE == 0 && IsTop(t, r) && IsTop(t, n)
    ensures At(t, r, Px(i)) == At(s, r, Px(i)) && At(s, n, Px(i)) == None && Lookup(t.mem, n, Px(i)) == NO_PTE
  {
    BelowTrapframe(i);
    assert OtherAt(s, t, n, r, Px(i)) && CopiedAt(s, t, r, n, k, Px(i));
    Blank(t, n, Px(i));
  }

  /** The tree of r is gone: its pages are free, and nothing else changed. */
  ghost predicate Gone(s: Vm, t: Vm, r: nat) {
    Did(s, t, r) && forall p :: p in t.own ==> !Mine(t.own[p], p, r)
  }

  lemma GoneAfter(s: Vm, t: Vm, u: Vm, r: nat)
    requires Did(s, t, r) && Gone(t, u, r)
    ensures Gone(s, u, r)
  {
    DidMore(s, t, u, r);
  }

  lemma FreedRoot(s: Vm, u: Vm, r: nat, junk: Page)
    requires Inv(s) && Inv(u) && IsTop(s, r) && NoLeaves(s, r) && ChildSwept(s, u, r)
    ensures r < |u.mem| && Inv(u.(own := u.own[r := Held]))
    ensures Gone(s, Given(u.(own := u.own[r := Held]), r, junk), r)
  {
    DropRootKeeps(u, r);
    var d := u.(own := u.own[r := Held]);
    GivenKeeps(d, r, junk);
    var w := Given(d, r, junk);
    forall p: nat ensures ChangeAt(s, w, r, p) {
      assert PageOk(s, p) && PageOk(u, p) && KeptAt(s, u, p) && SweptAt(s.own, u.own, r, Top, NPTE, p);
      if p in s.own { NotMapped(s, p, r); }
    }
    forall r': nat, y: Idx ensures SameFor(s, w, r, r', y) {
      assert SameAt(s, u, r', y) && SameAt(d, w, r', y) && SameAt(s, u, r', TRAMP_IDX) && SameAt(d, w, r', TRAMP_IDX);
    }
    OthersFollow(s, w, r);
    forall p | p in w.own ensures !Mine(w.own[p], p, r) {
      assert PageOk(s, p) && PageOk(u, p) && SweptAt(s.own, u.own, r, Top, NPTE, p);
      if p in s.own { NotMapped(s, p, r); }
    }
  }

  /** A tree through which nothing is mapped has no user pages. */
  lemma NotMapped(s: Vm, p: nat, r: nat)
    requires Inv(s) && IsTop(s, r) && NoLeaves(s, r) && p in s.own
    ensures !(s.own[p].User? && s.own[p].root == r)
  {
    assert PageOk(s, p);
  }

  function Rank(u: Use): nat {
    if u.Top? then 2 else if u.Mid? then 1 else 0
  }

  lemma FreeingNone(s: Vm, p: nat)
    requires Inv(s) && p in s.own && IsTable(s.own[p]) && NoLeaves(s, p)
    ensures Freeing(s, s, p, 0)
  {
    GrewSelf(s, p);
    ClearNone(s, p, 0);
    forall q: nat ensures SweptAt(s.own, s.own, p, s.own[p], 0, q) {}
    forall q: nat ensures TableAt(s, s, p, q) {}
  }

  /** All below c is free, and c is empty. */
  ghost predicate ChildSwept(t: Vm, u: Vm, c: nat) {
    && c in t.own && SameMaps(t, u) && BytesKept(t, u) && TablesKept(t, u, c)
    && Swept(t.own, u.own, c, t.own[c], NPTE) && c in u.own && u.own[c] == t.own[c] && EmptyTable(u, c)
  }

  /** The tables that are left, other than p, keep their entries. */
  ghost predicate TablesKept(s: Vm, t: Vm, p: nat) {
    |t.mem| == |s.mem| && forall q: nat {:trigger TableAt(s, t, p, q)} :: TableAt(s, t, p, q)
  }

  ghost predicate TableAt(s: Vm, t: Vm, p: nat, q: nat) {
    q != p && q in t.own && IsTable(t.own[q]) && q < |s.mem| && q < |t.mem| ==> t.mem[q] == s.mem[q]
  }

  lemma SlotDroppable(t: Vm, u: Vm, p: nat, i: nat)
    requires Inv(t) && Inv(u) && SlotAt(t, p, i) && !t.own[p].Low? && Entry(t.mem, p, i) != NO_PTE
    requires p < |u.mem| && p < |t.mem| && u.mem[p] == t.mem[p] && Entry(t.mem, p, i).ppn in t.own
    requires ChildSwept(t, u, Entry(t.mem, p, i).ppn)
    ensures Droppable(u, p, i) && u.own[p] == t.own[p] && Entry(u.mem, p, i) == Entry(t.mem, p, i)
  {
    DropChild(t, p, i);
    assert PageOk(t, p) && PageOk(t, Entry(t.mem, p, i).ppn);
    assert SweptAt(t.own, u.own, Entry(t.mem, p, i).ppn, t.own[Entry(t.mem, p, i).ppn], NPTE, p);
  }

  lemma SlotFreed(t: Vm, u: Vm, p: nat, i: nat, junk: Page)
    requires Inv(t) && SlotAt(t, p, i) && !t.own[p].Low? && Entry(t.mem, p, i) != NO_PTE
    requires Inv(u) && Entry(t.mem, p, i).ppn in t.own && ChildSwept(t, u, Entry(t.mem, p, i).ppn)
    requires p < |u.mem| && p < |t.mem| && u.mem[p] == t.mem[p]
    ensures Droppable(u, p, i) && Entry(u.mem, p, i) == Entry(t.mem, p, i) && Entry(u.mem, p, i).ppn != p
    ensures var w := Given(DropTable(u, p, i), Entry(u.mem, p, i).ppn, junk); Inv(w) && SameMaps(u, w)
  {
    var c := Entry(t.mem, p, i).ppn;
    DropChild(t, p, i);
    SlotDroppable(t, u, p, i);
    DropTableKeeps(u, p, i);
    var d := DropTable(u, p, i);
    GivenKeeps(d, c, junk);
    SameMore(u, d, Given(d, c, junk));
  }

  lemma SlotFreedAll(s: Vm, t: Vm, u: Vm, p: nat, i: nat, junk: Page)
    requires Freeing(s, t, p, i) && i < NPTE && SlotAt(t, p, i) && !t.own[p].Low? && Entry(t.mem, p, i) != NO_PTE
    requires Inv(u) && Entry(t.mem, p, i).ppn in t.own && ChildSwept(t, u, Entry(t.mem, p, i).ppn)
    requires p < |u.mem| && p < |t.mem| && u.mem[p] == t.mem[p]
    ensures u.mem[p].Table? && i < |u.mem[p].ptes| && u.mem[p].ptes[i].ppn < |u.mem| && u.mem[p].ptes[i].ppn != p
    ensures Freeing(s, Given(DropTable(u, p, i), Entry(u.mem, p, i).ppn, junk), p, i + 1)
  {
    DropChild(t, p, i);
    SlotFreed(t, u, p, i, junk);
    SlotFreedIs(s, t, u, Given(DropTable(u, p, i), Entry(u.mem, p, i).ppn, junk), p, i, Entry(t.mem, p, i).ppn);
  }

  lemma SlotFreedIs(s: Vm, t: Vm, u: Vm, w: Vm, p: nat, i: nat, c: nat)
    requires Freeing(s, t, p, i) && i < NPTE && SlotAt(t, p, i) && !t.own[p].Low? && Entry(t.mem, p, i) == Pointer(c)
    requires c in t.own && t.own[c] == Below(t.own[p], p, i) && c != 0 && c != p && ChildSwept(t, u, c) && Inv(u) && Inv(w)
    requires SameMaps(u, w) && w.own == u.own[c := Free] && w.lo == u.lo && |w.mem| == |u.mem|
    requires forall q :: 0 <= q < |u.mem| && q != p && q != c ==> w.mem[q] == u.mem[q]
    requires p < |u.mem| && u.mem[p] == t.mem[p] && p < |w.mem|
    requires w.mem[p] == Table(t.mem[p].ptes[i := NO_PTE])
    ensures Freeing(s, w, p, i + 1)
  {
    assert Child(t.mem, p, i) == c;
    SweptMore(t, s.own, u.own, p, i, c);
    SameMore(s, t, u);
    SameMore(s, u, w);
    assert PageOk(t, p) && PageOk(s, p);
    forall q: nat ensures KeptAt(s, w, q) && TableAt(s, w, p, q) {
      assert SweptAt(s.own, t.own, p, s.own[p], i, q) && SweptAt(t.own, u.own, c, t.own[c], NPTE, q) && PageOk(s, q);
      assert KeptAt(s, t, q) && KeptAt(t, u, q) && TableAt(s, t, p, q) && TableAt(t, u, c, q);
    }
    assert SweptAt(t.own, u.own, c, t.own[c], NPTE, p);
    forall x | IdxOk(x) && Through(x, w.own[p]) ensures Lookup(w.mem, RootOf(w.own[p], p), x) == NO_PTE {
      assert SameAt(t, u, RootOf(t.own[p], p), x) && SameAt(u, w, RootOf(t.own[p], p), x);
    }
    forall j | 0 <= j < i + 1 && j < NPTE ensures Entry(w.mem, p, j) == NO_PTE {
      assert j < i ==> Entry(t.mem, p, j) == NO_PTE;
    }
  }

  /** freewalk at slot i of p. */
  ghost predicate Freeing(s: Vm, t: Vm, p: nat, i: nat) {
    && Inv(s) && Inv(t) && SameMaps(s, t) && BytesKept(s, t) && p in s.own && p in t.own && IsTable(s.own[p])
    && Swept(s.own, t.own, p, s.own[p], i) && t.own[p] == s.own[p] && NoLeaves(t, p) && TablesKept(s, t, p)
    && (forall j :: 0 <= j < i && j < NPTE ==> Entry(t.mem, p, j) == NO_PTE)
  }

  lemma ChildNoLeaves(t: Vm, p: nat, i: nat)
    requires SlotAt(t, p, i) && !t.own[p].Low? && Entry(t.mem, p, i) != NO_PTE && NoLeaves(t, p)
    ensures NoLeaves(t, Entry(t.mem, p, i).ppn)
  {
    DropChild(t, p, i);
  }

  lemma UpBelow(v: nat, sz: nat)
    ensures v * PGSIZE < sz <==> v < Up(sz)
  {
  }

  lemma UpOfPages(v: nat)
    ensures Up(v * PGSIZE) == v
  {
  }

  lemma VacantPart(s: Vm, r: nat, v: nat, k: nat, n: nat)
    requires Vacant(s, r, v, n) && k <= n
    ensures Vacant(s, r, v, k)
  {
  }

  /** uvmalloc's loop after k pages. */
  ghost predicate Allocated(s: Vm, t: Vm, r: nat, v: nat, k: nat, w: bool, x: bool) {
    Did(s, t, r) && Shows(s, t, r, v, k, Some(Pte(0, true, true, w, x, true), ZeroPage()))
  }

  lemma NextVacant(s: Vm, t: Vm, r: nat, a: nat, v: nat, k: nat, w: bool, x: bool)
    requires Inv(t) && Allocated(s, t, r, v, k, w, x) && a == (v + k) * PGSIZE && a < TRAPFRAME && Vacant(s, r, v, k + 1)
    ensures IsTop(t, r) && Lookup(t.mem, r, Px(a)) == NO_PTE && a / PGSIZE == v + k && a % PGSIZE == 0
  {
    BelowTrapframe(a);
    assert ShowAt(s, t, r, v, k, Some(Pte(0, true, true, w, x, true), ZeroPage()), Px(a));
    Blank(t, r, Px(a));
  }

  lemma NewRootDid(s: Vm, t: Vm, r: nat)
    requires Inv(s) && Inv(t) && SameMaps(s, t) && r in s.own && s.own[r] == Free && t.own == s.own[r := Top]
    requires t.lo == s.lo && |t.mem| == |s.mem| && (forall p :: 0 <= p < |s.mem| && p != r ==> t.mem[p] == s.mem[p])
    ensures Did(s, t, r)
  {
    forall p: nat ensures ChangeAt(s, t, r, p) { assert PageOk(s, p); }
    forall r': nat, y: Idx ensures SameFor(s, t, r, r', y) { assert SameAt(s, t, r', y); }
    OthersFollow(s, t, r);
  }

  lemma BelowTrapframe(a: nat)
    requires a % PGSIZE == 0 && a < TRAPFRAME
    ensures a + PGSIZE <= MAXVA && IdxOf(a / PGSIZE) == Px(a) && UserIdx(Px(a)) && Vpn(Px(a)) == a / PGSIZE
  {
    assert a / PGSIZE * PGSIZE == a;
    IdxOfVpn(a / PGSIZE);
    SpecialPages(a);
  }

  /** What mappages needs for one filled page. */
  lemma OnlyPage(s: Vm, t: Vm, r: nat, a: nat, e: Pte, page: Page)
    requires Filled(s, t, e.ppn, page) && IsTop(s, r) && a % PGSIZE == 0 && a < TRAPFRAME && Lookup(s.mem, r, Px(a)) == NO_PTE
    requires page.Bytes? && |page.bytes| == PGSIZE
    ensures IsTop(t, r) && forall y :: IdxOk(y) && InRange(y, a / PGSIZE, PGSIZE / PGSIZE) ==> Lookup(t.mem, r, y) == NO_PTE
    ensures forall j :: 0 <= j < PGSIZE / PGSIZE ==> Supplied(t, e, a / PGSIZE, j)
  {
    BelowTrapframe(a);
    assert SameAt(s, t, r, Px(a));
    forall y | IdxOk(y) && InRange(y, a / PGSIZE, PGSIZE / PGSIZE) ensures Lookup(t.mem, r, y) == NO_PTE {
      VpnInjective(y, Px(a));
    }
    forall j | 0 <= j < PGSIZE / PGSIZE ensures Supplied(t, e, a / PGSIZE, j) {
      assert j == 0;
    }
  }

  lemma NoneMapped(t: Vm, u: Vm, r: nat, v: nat, e: Pte)
    requires RangeSet(t, u, r, v, 0, e) && UsesSet(t, u, r, v, 0, e)
    ensures Grew(t, u, r) && SameMaps(t, u)
  {
    forall p: nat ensures GrewAt(t, u, r, p) { assert UsesSetAt(t, u, r, v, 0, e, p); }
    forall r': nat, y: Idx ensures SameAt(t, u, r', y) { assert RangeAt(t, u, r, v, 0, e, r', y); }
  }

  /** The effect of unmapping pages [v, v + n) of r and giving their physical pages use u. */
  ghost predicate Unmapped(s: Vm, t: Vm, r: nat, v: nat, n: nat, u: Use) {
    && Inv(s) && IsTop(s, r) && IsTop(t, r) && !u.User?
    && RangeCleared(s, t, r, v, n) && t.own == Released(s.own, r, v, n, u) && BytesKept(s, t)
  }

  lemma SetThenSame(s: Vm, t: Vm, u: Vm, r: nat, x: Idx, e: Pte)
    requires MapsSet(s, t, r, x, e) && SameMaps(t, u)
    ensures MapsSet(s, u, r, x, e)
  {
    forall r': nat, y: Idx ensures SetAt(s, u, r, x, e, r', y) {
      assert SetAt(s, t, r, x, e, r', y) && SameAt(t, u, r', y);
    }
  }

  lemma ClearNone(s: Vm, r: nat, v: nat)
    requires Inv(s)
    ensures RangeCleared(s, s, r, v, 0) && BytesKept(s, s)
  {
    forall r': nat, y: Idx ensures ClearAt(s, s, r, v, 0, r', y) {}
    forall p: nat ensures KeptAt(s, s, p) {}
  }

  lemma AtPage(va: nat, k: nat)
    requires va % PGSIZE == 0 && va + k * PGSIZE < MAXVA
    ensures IdxOk(Px(va + k * PGSIZE)) && Vpn(Px(va + k * PGSIZE)) == va / PGSIZE + k
  {
    assert va + k * PGSIZE == (va / PGSIZE + k) * PGSIZE;
    IdxOfVpn(va / PGSIZE + k);
  }

  /** One more page unmapped: w is the state before, t the state after. */
  lemma UnmapStep(s: Vm, w: Vm, t: Vm, r: nat, v: nat, k: nat, u: Use, x: Idx)
    requires Inv(s) && Inv(w) && Inv(t) && IsTop(s, r) && IsTop(w, r) && IdxOk(x) && Vpn(x) == v + k
    requires RangeCleared(s, w, r, v, k) && w.own == Released(s.own, r, v, k, u) && BytesKept(s, w) && !u.User?
    requires MapsSet(w, t, r, x, NO_PTE) && BytesKept(w, t) && Lookup(w.mem, r, x) != NO_PTE
    requires if Special(x) then t.own == w.own
             else Lookup(w.mem, r, x).ppn in w.own && t.own == w.own[Lookup(w.mem, r, x).ppn := u]
    ensures RangeCleared(s, t, r, v, k + 1) && t.own == Released(s.own, r, v, k + 1, u) && BytesKept(s, t) && IsTop(t, r)
  {
    ClearMore(s, w, t, r, v, k, x);
    assert SetAt(w, t, r, x, NO_PTE, r, x);
    assert ClearAt(s, w, r, v, k, r, x);
    if Special(x) {
      ReleasedSkip(s, r, v, k, u, x);
    } else {
      Mapped(s, r, x);
      ReleasedMore(s, w.own, r, v, k, u, x, Lookup(w.mem, r, x).ppn);
    }
    forall p: nat ensures KeptAt(s, t, p) {
      assert KeptAt(s, w, p) && KeptAt(w, t, p);
    }
  }

  ghost predicate HeldPage(s: Vm, p: nat) {
    p in s.own && s.own[p] == Held && p < |s.mem| && BytesPage(s, p)
  }

  /** The physical page for page v + j is in the caller's hands, unless it is mapped for the kernel. */
  ghost predicate Supplied(s: Vm, e: Pte, v: nat, j: nat) {
    !Special(IdxOf(v + j)) ==> HeldPage(s, e.ppn + j)
  }

  lemma UsesNone(s: Vm, t: Vm, r: nat, v: nat, e: Pte)
    requires Grew(s, t, r)
    ensures UsesSet(s, t, r, v, 0, e)
  {
    forall p: nat ensures UsesSetAt(s, t, r, v, 0, e, p) { assert GrewAt(s, t, r, p); }
  }

  lemma UsesGrew(s: Vm, t: Vm, u: Vm, r: nat, v: nat, n: nat, e: Pte)
    requires UsesSet(s, t, r, v, n, e) && Grew(t, u, r)
    ensures UsesSet(s, u, r, v, n, e)
  {
    forall p: nat ensures UsesSetAt(s, u, r, v, n, e, p) {
      assert UsesSetAt(s, t, r, v, n, e, p) && GrewAt(t, u, r, p);
    }
  }

  /** The next page of mappages is not mapped yet, and its physical page is still held. */
  lemma NextPage(s: Vm, t: Vm, r: nat, va: nat, size: nat, k: nat, e: Pte)
    requires Inv(s) && Inv(t) && IsTop(s, r) && IsTop(t, r) && k < size / PGSIZE
    requires va % PGSIZE == 0 && size % PGSIZE == 0 && va + size <= MAXVA
    requires RangeSet(s, t, r, va / PGSIZE, k, e) && UsesSet(s, t, r, va / PGSIZE, k, e)
    requires forall y :: IdxOk(y) && InRange(y, va / PGSIZE, size / PGSIZE) ==> Lookup(s.mem, r, y) == NO_PTE
    requires forall j :: 0 <= j < size / PGSIZE ==> Supplied(s, e, va / PGSIZE, j)
    ensures var a := va + k * PGSIZE;
            && a < MAXVA && Px(a) == IdxOf(va / PGSIZE + k) && IdxOk(Px(a)) && Vpn(Px(a)) == va / PGSIZE + k
            && Lookup(t.mem, r, Px(a)) == NO_PTE
            && (!Special(Px(a)) ==> HeldPage(t, e.ppn + k) && e.ppn + k in s.own && s.own[e.ppn + k] == Held)
            && (a == va + size - PGSIZE <==> k + 1 == size / PGSIZE)
  {
    var a := va + k * PGSIZE;
    assert a == (va / PGSIZE + k) * PGSIZE;
    IdxOfVpn(va / PGSIZE + k);
    assert Supplied(s, e, va / PGSIZE, k);
    assert RangeAt(s, t, r, va / PGSIZE, k, e, r, Px(a));
    assert UsesSetAt(s, t, r, va / PGSIZE, k, e, e.ppn + k);
  }

  /** A table that walk has passed is still found the same way. */
  lemma StillThere(s: Vm, t: Vm, r: nat, a: nat)
    requires Inv(s) && Inv(t) && Grew(s, t, r) && IsTop(s, r) && a < NPTE && Child(s.mem, r, a) != 0
    ensures IsTop(t, r) && Child(t.mem, r, a) == Child(s.mem, r, a)
  {
    Down1(s, r, a);
    var m := Child(s.mem, r, a);
    assert GrewAt(s, t, r, r) && GrewAt(s, t, r, m);
    assert PageOk(t, m);
  }
}
