/** What an operation on one page table does, seen through the contents of virtual pages. */
module PageViews {
  import opened PageSpec
  import opened PageSteps
  import opened PageRanges

  /** What a virtual page holds: its permissions and its bytes. */
  datatype Mapping = None | Some(perm: Pte, page: Page)

  /** The entry without its page number. */
  function Perm(e: Pte): Pte {
    e.(ppn := 0)
  }

  ghost function At(s: Vm, r: nat, y: Idx): Mapping {
    var e := Lookup(s.mem, r, y);
    if !e.v then None else Some(Perm(e), if e.ppn < |s.mem| then s.mem[e.ppn] else ZeroPage())
  }

  /** An ordinary user page. */
  predicate UserIdx(y: Idx) {
    IdxOk(y) && !Special(y)
  }

  /** Is page p, with use u, part of the tree of r? */
  predicate Mine(u: Use, p: nat, r: nat) {
    (u == Top && p == r) || TableOf(u, r) || (u.User? && u.root == r)
  }

  /** Pages only move between the free list and the tree of r; all others keep their use and bytes. */
  ghost predicate Changes(s: Vm, t: Vm, r: nat) {
    && t.lo == s.lo && |t.mem| == |s.mem|
    && forall p: nat {:trigger ChangeAt(s, t, r, p)} :: ChangeAt(s, t, r, p)
  }

  ghost predicate ChangeAt(s: Vm, t: Vm, r: nat, p: nat) {
    p in s.own ==>
      && p in t.own && p < |s.mem| && p < |t.mem|
      && if s.own[p] == Free || Mine(s.own[p], p, r) then t.own[p] == Free || Mine(t.own[p], p, r)
         else t.own[p] == s.own[p] && (!IsTable(s.own[p]) ==> t.mem[p] == s.mem[p])
  }

  /** Every other page table shows the same pages. */
  ghost predicate OthersSame(s: Vm, t: Vm, r: nat) {
    forall r': nat, y: Idx {:trigger OtherAt(s, t, r, r', y)} :: OtherAt(s, t, r, r', y)
  }

  ghost predicate OtherAt(s: Vm, t: Vm, r: nat, r': nat, y: Idx) {
    IsTop(s, r') && r' != r ==>
      && IsTop(t, r') && (IdxOk(y) ==> Lookup(t.mem, r', y) == Lookup(s.mem, r', y))
      && (UserIdx(y) ==> At(t, r', y) == At(s, r', y))
  }

  /** An operation on the page table r. */
  ghost predicate Did(s: Vm, t: Vm, r: nat) {
    Inv(s) && Inv(t) && Changes(s, t, r) && OthersSame(s, t, r)
  }

  lemma DidNothing(s: Vm, r: nat)
    requires Inv(s)
    ensures Did(s, s, r)
  {
    forall p: nat ensures ChangeAt(s, s, r, p) { assert PageOk(s, p); }
    forall r': nat, y: Idx ensures OtherAt(s, s, r, r', y) {}
  }

  lemma DidMore(s: Vm, t: Vm, u: Vm, r: nat)
    requires Did(s, t, r) && Did(t, u, r)
    ensures Did(s, u, r)
  {
    forall p: nat ensures ChangeAt(s, u, r, p) {
      assert ChangeAt(s, t, r, p) && ChangeAt(t, u, r, p);
    }
    forall r': nat, y: Idx ensures OtherAt(s, u, r, r', y) {
      assert OtherAt(s, t, r, r', y) && OtherAt(t, u, r, r', y);
    }
  }

  /** If the flat maps of the others stay, and pages change as allowed, so do the contents they show. */
  lemma OthersFollow(s: Vm, t: Vm, r: nat)
    requires Inv(s) && Inv(t) && Changes(s, t, r)
    requires forall r': nat, y: Idx {:trigger SameFor(s, t, r, r', y)} :: SameFor(s, t, r, r', y)
    ensures OthersSame(s, t, r)
  {
    forall r': nat, y: Idx ensures OtherAt(s, t, r, r', y) {
      assert SameFor(s, t, r, r', y);
      if IsTop(s, r') && r' != r && UserIdx(y) && Lookup(s.mem, r', y) != NO_PTE {
        Mapped(s, r', y);
        assert ChangeAt(s, t, r, Lookup(s.mem, r', y).ppn);
      }
    }
  }

  ghost predicate SameFor(s: Vm, t: Vm, r: nat, r': nat, y: Idx) {
    IsTop(s, r') && r' != r ==> IsTop(t, r') && (IdxOk(y) ==> Lookup(t.mem, r', y) == Lookup(s.mem, r', y))
  }

  // ---------------------------------------------------------------- one page table

  /** Table r shows what it did, except that pages [v, v + n) now hold m. */
  ghost predicate Shows(s: Vm, t: Vm, r: nat, v: nat, n: nat, m: Mapping) {
    IsTop(s, r) && IsTop(t, r) && forall y: Idx {:trigger ShowAt(s, t, r, v, n, m, y)} :: ShowAt(s, t, r, v, n, m, y)
  }

  ghost predicate ShowAt(s: Vm, t: Vm, r: nat, v: nat, n: nat, m: Mapping, y: Idx) {
    && (IdxOk(y) && Special(y) ==> Lookup(t.mem, r, y) == if InRange(y, v, n) && m.None? then NO_PTE else Lookup(s.mem, r, y))
    && (UserIdx(y) ==> At(t, r, y) == if InRange(y, v, n) then m else At(s, r, y))
  }

  lemma ShowsNone(s: Vm, r: nat, v: nat, m: Mapping)
    requires IsTop(s, r)
    ensures Shows(s, s, r, v, 0, m)
  {
    forall y: Idx ensures ShowAt(s, s, r, v, 0, m, y) {}
  }

  /** What an unmapping does. */
  lemma UnmapShows(s: Vm, t: Vm, r: nat, v: nat, n: nat)
    requires Inv(s) && Inv(t) && IsTop(s, r) && IsTop(t, r)
    requires RangeCleared(s, t, r, v, n) && t.own == Released(s.own, r, v, n, Free) && BytesKept(s, t)
    ensures Did(s, t, r) && Shows(s, t, r, v, n, None)
  {
    forall p: nat ensures ChangeAt(s, t, r, p) {
      assert PageOk(s, p) && KeptAt(s, t, p);
    }
    forall r': nat, y: Idx ensures SameFor(s, t, r, r', y) {
      assert ClearAt(s, t, r, v, n, r', y);
      if IsTop(s, r') && r' != r { assert ClearAt(s, t, r, v, n, r', TRAMP_IDX); }
    }
    OthersFollow(s, t, r);
    forall y: Idx ensures ShowAt(s, t, r, v, n, None, y) {
      assert ClearAt(s, t, r, v, n, r, y);
      if UserIdx(y) && !InRange(y, v, n) && Lookup(s.mem, r, y) != NO_PTE {
        Mapped(s, r, y);
        assert KeptAt(s, t, Lookup(s.mem, r, y).ppn) && PageOk(s, Lookup(s.mem, r, y).ppn);
      }
    }
  }

  /** Growing the tree alone shows nothing new. */
  lemma GrewShows(s: Vm, t: Vm, r: nat, v: nat, m: Mapping)
    requires Inv(s) && Inv(t) && IsTop(s, r) && Grew(s, t, r) && SameMaps(s, t)
    ensures Did(s, t, r) && Shows(s, t, r, v, 0, m)
  {
    forall p: nat ensures ChangeAt(s, t, r, p) {
      assert GrewAt(s, t, r, p);
    }
    forall r': nat, y: Idx ensures SameFor(s, t, r, r', y) {
      assert SameAt(s, t, r', y) && SameAt(s, t, r', TRAMP_IDX);
    }
    OthersFollow(s, t, r);
    assert SameAt(s, t, r, TRAMP_IDX);
    forall y: Idx ensures ShowAt(s, t, r, v, 0, m, y) {
      assert SameAt(s, t, r, y);
      if UserIdx(y) && Lookup(s.mem, r, y) != NO_PTE {
        Mapped(s, r, y);
        assert GrewAt(s, t, r, Lookup(s.mem, r, y).ppn);
      }
    }
  }

  lemma ShowsTwice(s: Vm, t: Vm, u: Vm, r: nat, v: nat, n: nat, k: nat, m: Mapping)
    requires Shows(s, t, r, v, n, m) && Shows(t, u, r, v + n, k, m)
    ensures Shows(s, u, r, v, n + k, m)
  {
    var nk := n + k;
    forall y: Idx ensures ShowAt(s, u, r, v, nk, m, y) {
      assert ShowAt(s, t, r, v, n, m, y) && ShowAt(t, u, r, v + n, k, m, y);
    }
  }

  /** Clearing pages that were blank before they were filled restores what was shown. */
  lemma ShowsUndone(s: Vm, t: Vm, u: Vm, r: nat, v: nat, n: nat, m: Mapping)
    requires Shows(s, t, r, v, n, m) && Shows(t, u, r, v, n, None)
    requires forall y :: UserIdx(y) && InRange(y, v, n) ==> At(s, r, y) == None
    requires forall y :: IdxOk(y) && Special(y) ==> !InRange(y, v, n)
    ensures Shows(s, u, r, v, 0, m)
  {
    forall y: Idx ensures ShowAt(s, u, r, v, 0, m, y) {
      assert ShowAt(s, t, r, v, n, m, y) && ShowAt(t, u, r, v, n, None, y);
    }
  }

  // ---------------------------------------------------------------- a new page

  /** kalloc, then the page is filled: held, with these contents. */
  ghost predicate Filled(s: Vm, t: Vm, c: nat, page: Page) {
    && Inv(s) && Inv(t) && SameMaps(s, t) && t.lo == s.lo && |t.mem| == |s.mem|
    && c in s.own && s.own[c] == Free && t.own == s.own[c := Held] && c < |s.mem| && t.mem == s.mem[c := page]
  }

  lemma FilledKeeps(s: Vm, junk: Page, page: Page)
    requires Inv(s) && s.freelist != []
    ensures s.freelist[0] < |s.mem| && s.freelist[0] in s.own
    ensures Filled(s, Reused(Taken(s, junk), s.freelist[0], page, Held), s.freelist[0], page)
  {
    var c := s.freelist[0];
    TakenKeeps(s, junk);
    var t := Taken(s, junk);
    ReusedKeeps(t, c, page, Held);
    SameMore(s, t, Reused(t, c, page, Held));
  }

  /** mappages of a single page. */
  lemma OneSet(t: Vm, u: Vm, r: nat, v: nat, e: Pte, x: Idx)
    requires RangeSet(t, u, r, v, 1, e) && UsesSet(t, u, r, v, 1, e) && x == IdxOf(v) && IdxOk(x) && Vpn(x) == v
    ensures MapsSet(t, u, r, x, e) && UseSet(t, u, r, x, e)
  {
    forall r': nat, y: Idx ensures SetAt(t, u, r, x, e, r', y) {
      assert RangeAt(t, u, r, v, 1, e, r', y);
      if IdxOk(y) && Vpn(y) == v { VpnInjective(y, x); }
    }
    forall p: nat ensures UseSetAt(t, u, r, x, e, p) {
      assert UsesSetAt(t, u, r, v, 1, e, p);
    }
  }

  lemma MapNewDid(s: Vm, t: Vm, u: Vm, r: nat, x: Idx, e: Pte, page: Page)
    requires Filled(s, t, e.ppn, page) && Inv(u) && UserIdx(x) && MapsSet(t, u, r, x, e) && UseSet(t, u, r, x, e)
    ensures Did(s, u, r)
  {
    forall p: nat ensures ChangeAt(s, u, r, p) {
      assert UseSetAt(t, u, r, x, e, p) && PageOk(s, p);
    }
    forall r': nat, y: Idx ensures SameFor(s, u, r, r', y) {
      assert SetAt(t, u, r, x, e, r', y) && SameAt(s, t, r', y) && SameAt(s, t, r', TRAMP_IDX);
      assert SetAt(t, u, r, x, e, r', TRAMP_IDX);
    }
    OthersFollow(s, u, r);
  }

  /** A filled page mapped at page x of r: table r shows it there, and nothing else changes. */
  lemma MapNewShows(s: Vm, t: Vm, u: Vm, r: nat, x: Idx, v: nat, e: Pte, page: Page)
    requires Filled(s, t, e.ppn, page) && Inv(u) && IsTop(s, r) && IsTop(u, r) && e.v && UserIdx(x) && Vpn(x) == v
    requires MapsSet(t, u, r, x, e) && UseSet(t, u, r, x, e)
    ensures Shows(s, u, r, v, 1, Some(Perm(e), page))
  {
    assert UseSetAt(t, u, r, x, e, e.ppn);
    forall y: Idx ensures ShowAt(s, u, r, v, 1, Some(Perm(e), page), y) {
      assert SetAt(t, u, r, x, e, r, y) && SameAt(s, t, r, y);
      if IdxOk(y) && Vpn(y) == v { VpnInjective(y, x); }
      if UserIdx(y) && y != x && Lookup(s.mem, r, y) != NO_PTE {
        Mapped(s, r, y);
        assert UseSetAt(t, u, r, x, e, Lookup(s.mem, r, y).ppn) && PageOk(s, Lookup(s.mem, r, y).ppn);
      }
    }
  }

  /** A filled page that could not be mapped is freed again: nothing shows. */
  lemma MapNewFails(s: Vm, t: Vm, u: Vm, r: nat, v: nat, e: Pte, page: Page, junk: Page, m: Mapping)
    requires Filled(s, t, e.ppn, page) && Inv(u) && IsTop(s, r) && IsTop(u, r) && Grew(t, u, r) && SameMaps(t, u)
    requires e.ppn < |u.mem| && e.ppn in u.own && u.own[e.ppn] == Held
    ensures Inv(Given(u, e.ppn, junk)) && Did(s, Given(u, e.ppn, junk), r) && Shows(s, Given(u, e.ppn, junk), r, v, 0, m)
  {
    var c := e.ppn;
    GivenKeeps(u, c, junk);
    var w := Given(u, c, junk);
    SameMore(s, t, u);
    SameMore(s, u, w);
    forall p: nat ensures GrewAt(s, w, r, p) {
      assert GrewAt(t, u, r, p) && PageOk(s, p);
    }
    GrewShows(s, w, r, v, m);
  }

  // ---------------------------------------------------------------- sizes

  /** PGROUNDUP(sz) / PGSIZE. */
  function Up(sz: nat): nat {
    (sz + PGSIZE - 1) / PGSIZE
  }

  /** A page that shows nothing has a zero entry. */
  lemma Blank(s: Vm, r: nat, y: Idx)
    requires Inv(s) && IsTop(s, r) && IdxOk(y) && At(s, r, y) == None
    ensures Lookup(s.mem, r, y) == NO_PTE
  {
    if Lookup(s.mem, r, y) != NO_PTE { Mapped(s, r, y); }
  }

  /** Pages below TRAPFRAME are ordinary ones. */
  lemma OrdinaryRange(v: nat, n: nat)
    requires v + n <= TRAPFRAME / PGSIZE
    ensures forall y :: IdxOk(y) && InRange(y, v, n) ==> !Special(y)
  {
    forall y | IdxOk(y) && InRange(y, v, n) ensures !Special(y) {
      assert Vpn(TRAMP_IDX) == TRAMPOLINE / PGSIZE && Vpn(TRAP_IDX) == TRAPFRAME / PGSIZE;
    }
  }

  /** Does table r show nothing in [v, v + n)? */
  ghost predicate Vacant(s: Vm, r: nat, v: nat, n: nat) {
    forall y :: UserIdx(y) && InRange(y, v, n) ==> At(s, r, y) == None
  }

  // ---------------------------------------------------------------- freeing a tree

  /** The slot of the table with use up under which u lies; NPTE if it does not lie below. */
  function SlotOf(u: Use, p: nat, up: Use): nat {
    match up
    case Top => if u.Mid? && u.root == p then u.i2 else if u.Low? && u.root == p then u.i2 else NPTE
    case Mid(r, a) => if u.Low? && u.root == r && u.i2 == a then u.i1 else NPTE
    case _ => NPTE
  }

  /** Everything below the first i slots of p has become free, and no other use has changed. */
  ghost predicate Swept(own: map<nat, Use>, own': map<nat, Use>, p: nat, up: Use, i: nat) {
    forall q: nat {:trigger SweptAt(own, own', p, up, i, q)} :: SweptAt(own, own', p, up, i, q)
  }

  ghost predicate SweptAt(own: map<nat, Use>, own': map<nat, Use>, p: nat, up: Use, i: nat, q: nat) {
    && (q in own <==> q in own')
    && (q in own ==> own'[q] == if SlotOf(own[q], p, up) < i then Free else own[q])
  }

  /** Is virtual page x mapped through a slot of the table with use up? */
  predicate Through(x: Idx, up: Use) {
    match up
    case Mid(_, a) => x.i2 == a
    case Low(_, a, b) => x.i2 == a && x.i1 == b
    case _ => true
  }

  /** Nothing is mapped through p. */
  ghost predicate NoLeaves(s: Vm, p: nat) {
    p in s.own && forall x :: IdxOk(x) && Through(x, s.own[p]) ==> Lookup(s.mem, RootOf(s.own[p], p), x) == NO_PTE
  }

  /** An empty slot has nothing below it. */
  lemma NothingBelow(s: Vm, p: nat, i: nat, q: nat)
    requires Inv(s) && p in s.own && IsTable(s.own[p]) && i < NPTE && Entry(s.mem, p, i) == NO_PTE && q in s.own
    ensures SlotOf(s.own[q], p, s.own[p]) != i
  {
    assert PageOk(s, q) && PageOk(s, p);
  }

  /** Below slot i of p lies the table c it points to, and what lies below c. */
  lemma BelowSlot(s: Vm, p: nat, i: nat, c: nat, q: nat)
    requires Inv(s) && p in s.own && (s.own[p].Top? || s.own[p].Mid?) && i < NPTE && q in s.own
    requires c in s.own && s.own[c] == Below(s.own[p], p, i) && c == Child(s.mem, p, i)
    ensures SlotOf(s.own[q], p, s.own[p]) == i <==> q == c || SlotOf(s.own[q], c, s.own[c]) < NPTE
  {
    assert PageOk(s, q) && PageOk(s, c) && PageOk(s, p);
  }

  lemma SweptSkip(t: Vm, own: map<nat, Use>, p: nat, i: nat)
    requires Inv(t) && p in own && p in t.own && own[p] == t.own[p] && IsTable(own[p]) && i < NPTE
    requires Swept(own, t.own, p, own[p], i) && Entry(t.mem, p, i) == NO_PTE
    ensures Swept(own, t.own, p, own[p], i + 1)
  {
    var i' := i + 1;
    forall q: nat ensures SweptAt(own, t.own, p, own[p], i', q) {
      assert SweptAt(own, t.own, p, own[p], i, q);
      if q in own {
        NothingBelow(t, p, i, q);
      }
    }
  }

  lemma SweptMore(t: Vm, own: map<nat, Use>, own': map<nat, Use>, p: nat, i: nat, c: nat)
    requires Inv(t) && p in own && p in t.own && own[p] == t.own[p] && (own[p].Top? || own[p].Mid?) && i < NPTE
    requires Swept(own, t.own, p, own[p], i)
    requires c in t.own && t.own[c] == Below(t.own[p], p, i) && c == Child(t.mem, p, i)
    requires Swept(t.own, own', c, t.own[c], NPTE)
    ensures Swept(own, own'[c := Free], p, own[p], i + 1)
  {
    var i', own'' := i + 1, own'[c := Free];
    forall q: nat ensures SweptAt(own, own'', p, own[p], i', q) {
      assert SweptAt(own, t.own, p, own[p], i, q) && SweptAt(t.own, own', c, t.own[c], NPTE, q);
      assert SweptAt(own, t.own, p, own[p], i, c);
      if q in own { BelowSlot(t, p, i, c, q); }
    }
  }

  /** All entries of a low table through which nothing is mapped are zero. */
  lemma LowEmpty(s: Vm, p: nat, i: nat)
    requires Inv(s) && p in s.own && s.own[p].Low? && NoLeaves(s, p) && i < NPTE
    ensures Entry(s.mem, p, i) == NO_PTE
  {
    assert PageOk(s, p) && PageOk(s, 0);
    var x := Idx(s.own[p].i2, s.own[p].i1, i);
    assert IdxOk(x) && Through(x, s.own[p]);
  }

  // ---------------------------------------------------------------- copying a table

  /** Table n shows the first k pages of table r, as they were, and otherwise what it did. */
  ghost predicate Copied(s: Vm, t: Vm, r: nat, n: nat, k: nat) {
    && Did(s, t, n) && IsTop(s, n) && IsTop(t, n) && IsTop(s, r) && r != n
    && forall y: Idx {:trigger CopiedAt(s, t, r, n, k, y)} :: CopiedAt(s, t, r, n, k, y)
  }

  ghost predicate CopiedAt(s: Vm, t: Vm, r: nat, n: nat, k: nat, y: Idx) {
    && (IdxOk(y) && Special(y) ==> Lookup(t.mem, n, y) == Lookup(s.mem, n, y))
    && (UserIdx(y) ==> At(t, n, y) == if InRange(y, 0, k) then At(s, r, y) else At(s, n, y))
  }

  lemma CopiedNone(s: Vm, r: nat, n: nat)
    requires Inv(s) && IsTop(s, r) && IsTop(s, n) && r != n
    ensures Copied(s, s, r, n, 0)
  {
    DidNothing(s, n);
    forall y: Idx ensures CopiedAt(s, s, r, n, 0, y) {}
  }

  /** A page that r does not show needs no copy where n shows nothing. */
  lemma CopiedSkip(s: Vm, t: Vm, r: nat, n: nat, k: nat, x: Idx)
    requires Copied(s, t, r, n, k) && UserIdx(x) && Vpn(x) == k && At(s, r, x) == None == At(s, n, x)
    ensures Copied(s, t, r, n, k + 1)
  {
    var k' := k + 1;
    forall y: Idx ensures CopiedAt(s, t, r, n, k', y) {
      assert CopiedAt(s, t, r, n, k, y);
      if IdxOk(y) && Vpn(y) == k { VpnInjective(x, y); }
    }
  }

  lemma CopiedMore(s: Vm, t: Vm, u: Vm, r: nat, n: nat, k: nat, x: Idx)
    requires Copied(s, t, r, n, k) && UserIdx(x) && Vpn(x) == k && At(s, r, x).Some?
    requires Did(t, u, n) && Shows(t, u, n, k, 1, At(s, r, x))
    ensures Copied(s, u, r, n, k + 1)
  {
    DidMore(s, t, u, n);
    var k' := k + 1;
    forall y: Idx ensures CopiedAt(s, u, r, n, k', y) {
      assert CopiedAt(s, t, r, n, k, y) && ShowAt(t, u, n, k, 1, At(s, r, x), y);
      if IdxOk(y) && Vpn(y) == k { VpnInjective(x, y); }
    }
  }

  /** A failed copy leaves n as it was. */
  lemma CopyUndone(s: Vm, t: Vm, u: Vm, w: Vm, r: nat, n: nat, k: nat, m: Mapping)
    requires Copied(s, t, r, n, k) && Did(t, u, n) && Shows(t, u, n, k, 0, m) && Did(u, w, n) && Shows(u, w, n, 0, k, None)
    requires Vacant(s, n, 0, k) && k <= TRAPFRAME / PGSIZE
    ensures Did(s, w, n) && Shows(s, w, n, 0, 0, None)
  {
    DidMore(s, t, u, n);
    DidMore(s, u, w, n);
    OrdinaryRange(0, k);
    forall y: Idx ensures ShowAt(s, w, n, 0, 0, None, y) {
      assert CopiedAt(s, t, r, n, k, y) && ShowAt(t, u, n, k, 0, m, y) && ShowAt(u, w, n, 0, k, None, y);
    }
  }
}
