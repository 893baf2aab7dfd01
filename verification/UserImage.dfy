/** A process's memory as its user sees it: pages below sz that have no physical page yet read as zero. */
module UserImage {
  import Common
  import opened PageSpec
  import opened PageSteps
  import opened PageRanges
  import opened PageViews

  /** What both vmfault and eager growth put at a new page: readable, writable, and zero. */
  function FreshPage(): Mapping {
    Some(Pte(0, true, true, true, false, true), ZeroPage())
  }

  /** The page table r of a process of size sz: what it maps lies below sz, but for the kernel's two pages. */
  ghost predicate Proper(s: Vm, r: nat, sz: nat) {
    && Inv(s) && IsTop(s, r) && sz <= TRAPFRAME
    && forall y :: IdxOk(y) && Lookup(s.mem, r, y) != NO_PTE ==> if Special(y) then !Lookup(s.mem, r, y).u else InRange(y, 0, Up(sz))
  }

  /** The kernel's two pages stay mapped as they were. */
  ghost predicate KernelSame(s: Vm, t: Vm, r: nat) {
    Lookup(t.mem, r, TRAMP_IDX) == Lookup(s.mem, r, TRAMP_IDX) && Lookup(t.mem, r, TRAP_IDX) == Lookup(s.mem, r, TRAP_IDX)
  }

  lemma ShowsKernel(s: Vm, t: Vm, r: nat, v: nat, n: nat, m: Mapping)
    requires Shows(s, t, r, v, n, m) && v + n <= TRAPFRAME / PGSIZE
    ensures KernelSame(s, t, r)
  {
    assert Vpn(TRAMP_IDX) == TRAMPOLINE / PGSIZE && Vpn(TRAP_IDX) == TRAPFRAME / PGSIZE;
    assert ShowAt(s, t, r, v, n, m, TRAMP_IDX) && ShowAt(s, t, r, v, n, m, TRAP_IDX);
  }

  /** What the user sees at page v. */
  ghost function Shown(s: Vm, r: nat, v: nat): Mapping {
    if At(s, r, IdxOf(v)).None? then FreshPage() else At(s, r, IdxOf(v))
  }

  ghost function Image(s: Vm, r: nat, sz: nat): (img: seq<Mapping>)
    ensures |img| == Up(sz) && forall v :: 0 <= v < |img| ==> img[v] == Shown(s, r, v)
  {
    seq(Up(sz), v requires 0 <= v < Up(sz) => Shown(s, r, v))
  }

  /** The user sees the same at every page below sz. */
  ghost predicate Alike(s: Vm, t: Vm, r: nat, sz: nat) {
    forall v: nat {:trigger AlikeAt(s, t, r, sz, v)} :: AlikeAt(s, t, r, sz, v)
  }

  ghost predicate AlikeAt(s: Vm, t: Vm, r: nat, sz: nat, v: nat) {
    v < Up(sz) ==> Shown(t, r, v) == Shown(s, r, v)
  }

  lemma AlikeIff(s: Vm, t: Vm, r: nat, sz: nat)
    ensures Alike(s, t, r, sz) <==> Image(t, r, sz) == Image(s, r, sz)
  {
    if Alike(s, t, r, sz) {
      forall v | 0 <= v < Up(sz) ensures Image(t, r, sz)[v] == Image(s, r, sz)[v] {
        assert AlikeAt(s, t, r, sz, v);
      }
    } else {
      var v: nat :| !AlikeAt(s, t, r, sz, v);
      assert Image(t, r, sz)[v] != Image(s, r, sz)[v];
    }
  }

  lemma AlikeMore(s: Vm, t: Vm, u: Vm, r: nat, sz: nat)
    requires Alike(s, t, r, sz) && Alike(t, u, r, sz)
    ensures Alike(s, u, r, sz)
  {
    forall v: nat ensures AlikeAt(s, u, r, sz, v) {
      assert AlikeAt(s, t, r, sz, v) && AlikeAt(t, u, r, sz, v);
    }
  }

  // ---------------------------------------------------------------- access

  function PageAt(img: seq<Mapping>, v: nat): Mapping {
    if v < |img| then img[v] else None
  }

  /** May the user read page m? */
  predicate Readable(m: Mapping) {
    m.Some? && m.perm.u && m.page.Bytes? && |m.page.bytes| == PGSIZE
  }

  /** How much of len bytes at va lies in the first page. */
  function InPage(va: nat, len: nat): nat {
    if PGSIZE - va % PGSIZE > len then len else PGSIZE - va % PGSIZE
  }

  /** How many pages the bytes [va, va + len) lie in. */
  function Span(va: nat, len: nat): nat {
    if len == 0 then 0 else (va + len - 1) / PGSIZE - va / PGSIZE + 1
  }

  /** The rest of a copy lies in one page fewer. */
  lemma SpanNext(va: nat, len: nat)
    requires len > 0
    ensures Span(va, len) == 1 + Span((va / PGSIZE + 1) * PGSIZE, len - InPage(va, len))
  {
  }

  /** copyin, on the image: the bytes at va, up to the first page that the user may not read. */
  function CopyIn(img: seq<Mapping>, va: nat, len: nat): (bool, seq<Byte>)
    decreases len
  {
    var m, n := PageAt(img, va / PGSIZE), InPage(va, len);
    if len == 0 then (true, [])
    else if !Readable(m) then (false, [])
    else
      var rest := CopyIn(img, (va / PGSIZE + 1) * PGSIZE, len - n);
      (rest.0, m.page.bytes[va % PGSIZE..va % PGSIZE + n] + rest.1)
  }

  /** copyin has read bytes, and left more to go from va. */
  ghost predicate ReadSoFar(img: seq<Mapping>, srcva: nat, len: nat, bytes: seq<Byte>, va: nat, left: nat) {
    CopyIn(img, srcva, len) == (CopyIn(img, va, left).0, bytes + CopyIn(img, va, left).1)
  }

  lemma ReadStart(img: seq<Mapping>, va: nat, len: nat)
    ensures ReadSoFar(img, va, len, [], va, len)
  {
    assert [] + CopyIn(img, va, len).1 == CopyIn(img, va, len).1;
  }

  lemma ReadMore(img: seq<Mapping>, srcva: nat, len: nat, bytes: seq<Byte>, va: nat, left: nat)
    requires ReadSoFar(img, srcva, len, bytes, va, left) && left > 0 && Readable(PageAt(img, va / PGSIZE))
    ensures var n := InPage(va, left);
            ReadSoFar(img, srcva, len, bytes + PageAt(img, va / PGSIZE).page.bytes[va % PGSIZE..va % PGSIZE + n],
                      (va / PGSIZE + 1) * PGSIZE, left - n)
  {
    var n := InPage(va, left);
    var part, rest := PageAt(img, va / PGSIZE).page.bytes[va % PGSIZE..va % PGSIZE + n], CopyIn(img, (va / PGSIZE + 1) * PGSIZE, left - n);
    assert bytes + part + rest.1 == bytes + (part + rest.1);
  }

  lemma ReadEnds(img: seq<Mapping>, srcva: nat, len: nat, bytes: seq<Byte>, va: nat, left: nat)
    requires ReadSoFar(img, srcva, len, bytes, va, left) && (left == 0 || !Readable(PageAt(img, va / PGSIZE)))
    ensures CopyIn(img, srcva, len) == (left == 0, bytes)
  {
    assert bytes + [] == bytes;
  }

  function PatchPage(page: Page, at: nat, bytes: seq<Byte>): Page
    requires page.Bytes? && at + |bytes| <= |page.bytes|
  {
    Bytes(Common.Patch(page.bytes, at, bytes))
  }

  /** copyout, on the image: src goes to va, up to the first page that the user may not write. */
  function CopyOut(img: seq<Mapping>, va: nat, src: seq<Byte>): (bool, seq<Mapping>)
    decreases |src|
  {
    var m, n := PageAt(img, va / PGSIZE), InPage(va, |src|);
    if src == [] then (true, img)
    else if !(Readable(m) && m.perm.w) then (false, img)
    else CopyOut(img[va / PGSIZE := Some(m.perm, PatchPage(m.page, va % PGSIZE, src[..n]))], (va / PGSIZE + 1) * PGSIZE, src[n..])
  }

  /** One page of copyout. */
  lemma WriteMore(img: seq<Mapping>, va: nat, src: seq<Byte>)
    requires src != [] && Readable(PageAt(img, va / PGSIZE)) && PageAt(img, va / PGSIZE).perm.w
    ensures var v, n := va / PGSIZE, InPage(va, |src|);
            && v < |img| && 0 < n <= |src| && va % PGSIZE + n <= PGSIZE
            && CopyOut(img, va, src)
            == CopyOut(img[v := Some(img[v].perm, PatchPage(img[v].page, va % PGSIZE, src[..n]))], (v + 1) * PGSIZE, src[n..])
  {
  }

  // ---------------------------------------------------------------- making a page resident

  lemma PageBelow(v: nat, sz: nat)
    requires sz <= TRAPFRAME
    ensures v < Up(sz) <==> v * PGSIZE < sz
    ensures v < Up(sz) ==> v * PGSIZE < TRAPFRAME && UserIdx(IdxOf(v)) && Vpn(IdxOf(v)) == v && Px(v * PGSIZE) == IdxOf(v)
  {
    if v < Up(sz) {
      assert v * PGSIZE < TRAPFRAME;
      IdxOfVpn(v);
      SpecialPages(v * PGSIZE);
      assert v * PGSIZE / PGSIZE == v;
    }
  }

  /** vmfault's new page was already there to see. */
  lemma FaultSeen(s: Vm, t: Vm, r: nat, sz: nat, v: nat)
    requires Proper(s, r, sz) && Did(s, t, r) && v < Up(sz) && At(s, r, IdxOf(v)) == None
    requires Shows(s, t, r, v, 1, FreshPage())
    ensures Proper(t, r, sz) && Image(t, r, sz) == Image(s, r, sz) && At(t, r, IdxOf(v)) == FreshPage() && KernelSame(s, t, r)
  {
    PageBelow(v, sz);
    ShowsKernel(s, t, r, v, 1, FreshPage());
    OrdinaryRange(v, 1);
    assert ShowAt(s, t, r, v, 1, FreshPage(), IdxOf(v));
    forall y | IdxOk(y) && Lookup(t.mem, r, y) != NO_PTE
      ensures if Special(y) then !Lookup(t.mem, r, y).u else InRange(y, 0, Up(sz))
    {
      assert ShowAt(s, t, r, v, 1, FreshPage(), y);
      Mapped(t, r, y);
    }
    SeenSame(s, t, r, sz, v);
  }

  lemma SeenSame(s: Vm, t: Vm, r: nat, sz: nat, v: nat)
    requires IsTop(s, r) && sz <= TRAPFRAME && v < Up(sz) && At(s, r, IdxOf(v)) == None && Shows(s, t, r, v, 1, FreshPage())
    ensures Image(t, r, sz) == Image(s, r, sz)
  {
    var a, b := Image(t, r, sz), Image(s, r, sz);
    forall j | 0 <= j < |a| ensures a[j] == b[j] {
      PageBelow(j, sz);
      assert ShowAt(s, t, r, v, 1, FreshPage(), IdxOf(j));
    }
  }

  // ---------------------------------------------------------------- writing a page

  /** A page of r gets other bytes. */
  lemma WriteShows(s: Vm, r: nat, x: Idx, page: Page)
    requires Inv(s) && IsTop(s, r) && UserIdx(x) && Lookup(s.mem, r, x) != NO_PTE && page.Bytes? && |page.bytes| == PGSIZE
    ensures var p := Lookup(s.mem, r, x).ppn;
            && p in s.own && s.own[p] == User(r, x) && p < |s.mem|
            && var t := Reused(s, p, page, User(r, x));
               Inv(t) && Did(s, t, r) && Shows(s, t, r, Vpn(x), 1, Some(Perm(Lookup(s.mem, r, x)), page))
  {
    Mapped(s, r, x);
    var p := Lookup(s.mem, r, x).ppn;
    assert PageOk(s, p);
    ReusedKeeps(s, p, page, User(r, x));
    var t := Reused(s, p, page, User(r, x));
    forall q: nat ensures ChangeAt(s, t, r, q) { assert PageOk(s, q); }
    forall r': nat, y: Idx ensures SameFor(s, t, r, r', y) { assert SameAt(s, t, r', y) && SameAt(s, t, r', TRAMP_IDX); }
    OthersFollow(s, t, r);
    assert SameAt(s, t, r, x);
    forall y: Idx ensures ShowAt(s, t, r, Vpn(x), 1, Some(Perm(Lookup(s.mem, r, x)), page), y) {
      assert SameAt(s, t, r, y);
      if IdxOk(y) && Vpn(y) == Vpn(x) { VpnInjective(x, y); }
      if UserIdx(y) && Lookup(s.mem, r, y) != NO_PTE && y != x {
        PagesDistinctHere(s, r, x, y);
      }
    }
  }

  lemma PagesDistinctHere(s: Vm, r: nat, x: Idx, y: Idx)
    requires Inv(s) && IsTop(s, r) && UserIdx(x) && UserIdx(y) && x != y
    requires Lookup(s.mem, r, x) != NO_PTE && Lookup(s.mem, r, y) != NO_PTE
    ensures Lookup(s.mem, r, x).ppn != Lookup(s.mem, r, y).ppn
  {
    Mapped(s, r, x);
    Mapped(s, r, y);
  }

  /** One page of the image changes. */
  lemma WriteSeen(s: Vm, t: Vm, r: nat, sz: nat, v: nat, m: Mapping)
    requires Proper(s, r, sz) && Did(s, t, r) && v < Up(sz) && m.Some? && Shows(s, t, r, v, 1, m)
    ensures Proper(t, r, sz) && Image(t, r, sz) == Image(s, r, sz)[v := m] && KernelSame(s, t, r)
  {
    PageBelow(v, sz);
    ShowsKernel(s, t, r, v, 1, m);
    OrdinaryRange(v, 1);
    forall y | IdxOk(y) && Lookup(t.mem, r, y) != NO_PTE
      ensures if Special(y) then !Lookup(t.mem, r, y).u else InRange(y, 0, Up(sz))
    {
      assert ShowAt(s, t, r, v, 1, m, y);
      Mapped(t, r, y);
    }
    var a, b := Image(t, r, sz), Image(s, r, sz)[v := m];
    forall j | 0 <= j < |a| ensures a[j] == b[j] {
      PageBelow(j, sz);
      assert ShowAt(s, t, r, v, 1, m, IdxOf(j));
    }
  }

  /** What a mapped user page shows. */
  lemma MappedSeen(s: Vm, r: nat, sz: nat, v: nat)
    requires Proper(s, r, sz) && v < Up(sz) && Lookup(s.mem, r, IdxOf(v)) != NO_PTE
    ensures var e := Lookup(s.mem, r, IdxOf(v));
            && e.ppn in s.own && s.own[e.ppn] == User(r, IdxOf(v)) && e.ppn < |s.mem| && 0 < e.ppn && BytesPage(s, e.ppn)
            && Image(s, r, sz)[v] == Some(Perm(e), s.mem[e.ppn])
  {
    PageBelow(v, sz);
    Mapped(s, r, IdxOf(v));
    assert PageOk(s, Lookup(s.mem, r, IdxOf(v)).ppn);
  }

  /** A page beyond the end of memory is not mapped for the user. */
  lemma BeyondEnd(s: Vm, r: nat, sz: nat, va: nat)
    requires Proper(s, r, sz) && va < MAXVA && va / PGSIZE >= Up(sz)
    ensures !(Lookup(s.mem, r, Px(va)).v && Lookup(s.mem, r, Px(va)).u)
  {
    PxVpn(va);
    assert Vpn(Px(va)) == va / PGSIZE;
  }

  /** A tree that only grew shows the same image. */
  lemma StillSeen(s: Vm, t: Vm, r: nat, sz: nat, v: nat, m: Mapping)
    requires Proper(s, r, sz) && Did(s, t, r) && Shows(s, t, r, v, 0, m)
    ensures Proper(t, r, sz) && Image(t, r, sz) == Image(s, r, sz) && KernelSame(s, t, r)
  {
    assert ShowAt(s, t, r, v, 0, m, TRAMP_IDX) && ShowAt(s, t, r, v, 0, m, TRAP_IDX);
    forall y | IdxOk(y) && Lookup(t.mem, r, y) != NO_PTE
      ensures if Special(y) then !Lookup(t.mem, r, y).u else InRange(y, 0, Up(sz))
    {
      assert ShowAt(s, t, r, v, 0, m, y);
      Mapped(t, r, y);
    }
    var a, b := Image(t, r, sz), Image(s, r, sz);
    forall j | 0 <= j < |a| ensures a[j] == b[j] {
      PageBelow(j, sz);
      assert ShowAt(s, t, r, v, 0, m, IdxOf(j));
    }
  }

  // ---------------------------------------------------------------- strings

  /** Only the pages that have a physical page. */
  ghost function Present(s: Vm, r: nat, sz: nat): (img: seq<Mapping>)
    ensures |img| == Up(sz) && forall v :: 0 <= v < |img| ==> img[v] == At(s, r, IdxOf(v))
  {
    seq(Up(sz), v requires 0 <= v < Up(sz) => At(s, r, IdxOf(v)))
  }

  /** copyinstr: the bytes at va before the first NUL, which must be among the next max bytes. */
  function CopyStr(img: seq<Mapping>, va: nat, max: nat): (bool, seq<Byte>)
    decreases max
  {
    var m := PageAt(img, va / PGSIZE);
    if max == 0 || !Readable(m) then (false, [])
    else if m.page.bytes[va % PGSIZE] == 0 then (true, [])
    else
      var rest := CopyStr(img, va + 1, max - 1);
      (rest.0, [m.page.bytes[va % PGSIZE]] + rest.1)
  }

  /** Does the scan for a NUL come to a page below sz that has no physical page yet? */
  predicate MeetsAbsent(present: seq<Mapping>, va: nat, max: nat)
    decreases max
  {
    max > 0 && va / PGSIZE < |present|
    && var m := present[va / PGSIZE];
       m.None? || (Readable(m) && m.page.bytes[va % PGSIZE] != 0 && MeetsAbsent(present, va + 1, max - 1))
  }

  /** copyinstr, which does not call vmfault, agrees with the image exactly when its scan meets no absent page. */
  lemma {:induction false} StringsAgreeIff(present: seq<Mapping>, img: seq<Mapping>, va: nat, max: nat)
    requires |img| == |present|
    requires forall v :: 0 <= v < |img| ==> img[v] == if present[v].None? then FreshPage() else present[v]
    ensures CopyStr(present, va, max) == CopyStr(img, va, max) <==> !MeetsAbsent(present, va, max)
    decreases max
  {
    if max > 0 && va / PGSIZE < |img| && Readable(present[va / PGSIZE]) && present[va / PGSIZE].page.bytes[va % PGSIZE] != 0 {
      StringsAgreeIff(present, img, va + 1, max - 1);
      var a, b := CopyStr(present, va + 1, max - 1), CopyStr(img, va + 1, max - 1);
      var c := [present[va / PGSIZE].page.bytes[va % PGSIZE]];
      if c + a.1 == c + b.1 {
        assert a.1 == (c + a.1)[1..] == (c + b.1)[1..] == b.1;
      }
    }
  }

  /** A page that sbrk promised and nothing has touched: the image reads an empty string there, copyinstr fails. */
  lemma StringsDiffer()
    ensures var present, img := [None], [FreshPage()];
            !CopyStr(present, 0, 1).0 && CopyStr(img, 0, 1).0 && MeetsAbsent(present, 0, 1)
  {
    StringsAgreeIff([None], [FreshPage()], 0, 1);
  }

  /** Position at of page p. */
  function Place(p: nat, at: nat): nat {
    p * PGSIZE + at
  }

  lemma PlaceIs(p: nat, at: nat)
    requires at < PGSIZE
    ensures Place(p, at) / PGSIZE == p && Place(p, at) % PGSIZE == at
  {
  }

  /** One byte of a string that goes on. */
  lemma StrOne(img: seq<Mapping>, p: nat, at: nat, max: nat)
    requires max > 0 && at < PGSIZE && Readable(PageAt(img, p)) && PageAt(img, p).page.bytes[at] != 0
    ensures CopyStr(img, Place(p, at), max) ==
            var rest := CopyStr(img, Place(p, at) + 1, max - 1); (rest.0, [PageAt(img, p).page.bytes[at]] + rest.1)
  {
    PlaceIs(p, at);
  }

  /** The part of a scan that stays inside one page and finds no NUL. */
  lemma {:induction false} StrSkipIn(img: seq<Mapping>, p: nat, at: nat, max: nat, n: nat)
    requires n <= max && at + n <= PGSIZE && Readable(PageAt(img, p))
    requires forall k :: at <= k < at + n ==> PageAt(img, p).page.bytes[k] != 0
    ensures CopyStr(img, Place(p, at), max) ==
            var rest := CopyStr(img, Place(p, at) + n, max - n); (rest.0, PageAt(img, p).page.bytes[at..at + n] + rest.1)
    decreases n
  {
    var bytes := PageAt(img, p).page.bytes;
    var rest := CopyStr(img, Place(p, at) + n, max - n);
    if n == 0 {
      assert bytes[at..at + n] + rest.1 == rest.1;
    } else {
      StrSkipIn(img, p, at, max, n - 1);
      StrOne(img, p, at + (n - 1), max - (n - 1));
      assert Place(p, at + (n - 1)) == Place(p, at) + (n - 1) && Place(p, at + (n - 1)) + 1 == Place(p, at) + n;
      assert bytes[at..at + (n - 1)] + ([bytes[at + (n - 1)]] + rest.1) == bytes[at..at + n] + rest.1;
    }
  }

  lemma StrSkip(img: seq<Mapping>, va: nat, max: nat, n: nat)
    requires n <= max && va % PGSIZE + n <= PGSIZE && Readable(PageAt(img, va / PGSIZE))
    requires forall k :: va % PGSIZE <= k < va % PGSIZE + n ==> PageAt(img, va / PGSIZE).page.bytes[k] != 0
    ensures CopyStr(img, va, max) ==
            var rest := CopyStr(img, va + n, max - n);
            (rest.0, PageAt(img, va / PGSIZE).page.bytes[va % PGSIZE..va % PGSIZE + n] + rest.1)
  {
    assert Place(va / PGSIZE, va % PGSIZE) == va;
    StrSkipIn(img, va / PGSIZE, va % PGSIZE, max, n);
  }

  /** copyinstr has read str, and has left to go from va. */
  ghost predicate ScanSoFar(img: seq<Mapping>, srcva: nat, max: nat, str: seq<Byte>, va: nat, left: nat) {
    CopyStr(img, srcva, max) == (CopyStr(img, va, left).0, str + CopyStr(img, va, left).1)
  }

  lemma ScanStart(img: seq<Mapping>, va: nat, max: nat)
    ensures ScanSoFar(img, va, max, [], va, max)
  {
    assert [] + CopyStr(img, va, max).1 == CopyStr(img, va, max).1;
  }

  /** k bytes of a page without a NUL. */
  lemma ScanMore(img: seq<Mapping>, srcva: nat, max: nat, str: seq<Byte>, va: nat, left: nat, k: nat)
    requires ScanSoFar(img, srcva, max, str, va, left) && k <= left && va % PGSIZE + k <= PGSIZE
    requires Readable(PageAt(img, va / PGSIZE))
    requires forall j :: va % PGSIZE <= j < va % PGSIZE + k ==> PageAt(img, va / PGSIZE).page.bytes[j] != 0
    ensures ScanSoFar(img, srcva, max, str + PageAt(img, va / PGSIZE).page.bytes[va % PGSIZE..va % PGSIZE + k], va + k, left - k)
  {
    StrSkip(img, va, left, k);
    var part, rest := PageAt(img, va / PGSIZE).page.bytes[va % PGSIZE..va % PGSIZE + k], CopyStr(img, va + k, left - k);
    assert str + part + rest.1 == str + (part + rest.1);
  }

  lemma ScanEnds(img: seq<Mapping>, srcva: nat, max: nat, str: seq<Byte>, va: nat, left: nat)
    requires ScanSoFar(img, srcva, max, str, va, left)
    requires left == 0 || !Readable(PageAt(img, va / PGSIZE)) || PageAt(img, va / PGSIZE).page.bytes[va % PGSIZE] == 0
    ensures CopyStr(img, srcva, max) == (left > 0 && Readable(PageAt(img, va / PGSIZE)), str)
  {
    assert str + [] == str;
  }

  /** walkaddr finds exactly the pages that are present and readable. */
  lemma PresentPage(s: Vm, r: nat, sz: nat, va0: nat, v: nat)
    requires Proper(s, r, sz) && va0 == v * PGSIZE
    ensures var e := Lookup(s.mem, r, Px(va0));
            && (va0 < MAXVA && e.v && e.u <==> Readable(PageAt(Present(s, r, sz), v)))
            && (va0 < MAXVA && e.v && e.u ==> e.ppn != 0 && e.ppn < |s.mem| && s.mem[e.ppn] == PageAt(Present(s, r, sz), v).page)
  {
    assert v * PGSIZE / PGSIZE == v;
    PageBelow(v, sz);
    if v >= Up(sz) {
      if va0 < MAXVA { BeyondEnd(s, r, sz, va0); }
    } else if Lookup(s.mem, r, Px(va0)).v {
      MappedSeen(s, r, sz, v);
    }
  }

  // ---------------------------------------------------------------- growing and shrinking

  /** n new pages. */
  function FreshPages(n: nat): seq<Mapping> {
    seq(n, _ => FreshPage())
  }

  /** sbrk, on the image: its result, the new image and the new size. A request to shrink below zero does nothing. */
  function Sbrk(img: seq<Mapping>, sz: nat, n: int): (int, seq<Mapping>, nat) {
    if n >= 0 then
      if sz + n > TRAPFRAME then (-1, img, sz)
      else (sz, img + FreshPages(if Up(sz + n) > Up(sz) then Up(sz + n) - Up(sz) else 0), sz + n)
    else if sz + n < 0 || Up(sz + n) > |img| then (sz, img, sz)
    else (sz, img[..Up(sz + n)], sz + n)
  }

  lemma Outside(s: Vm, r: nat, sz: nat, y: Idx)
    requires Proper(s, r, sz) && UserIdx(y) && !InRange(y, 0, Up(sz))
    ensures Lookup(s.mem, r, y) == NO_PTE
  {
  }

  lemma UpGrows(a: nat, b: nat)
    requires a <= b
    ensures Up(a) <= Up(b)
  {
  }

  /** Growing by size alone already shows the new pages. */
  lemma LazyGrowth(s: Vm, r: nat, sz: nat, sz': nat)
    requires Proper(s, r, sz) && sz <= sz' <= TRAPFRAME
    ensures Proper(s, r, sz') && Up(sz) <= Up(sz')
    ensures Image(s, r, sz') == Image(s, r, sz) + FreshPages(Up(sz') - Up(sz))
  {
    UpGrows(sz, sz');
    var a, b := Image(s, r, sz'), Image(s, r, sz) + FreshPages(Up(sz') - Up(sz));
    forall v | 0 <= v < |a| ensures a[v] == b[v] {
      PageBelow(v, sz');
      if v >= Up(sz) { Outside(s, r, sz, IdxOf(v)); }
    }
  }

  /** So does mapping zeroed pages at once. */
  lemma EagerGrowth(s: Vm, t: Vm, r: nat, sz: nat, sz': nat)
    requires Proper(s, r, sz) && sz <= sz' <= TRAPFRAME && Did(s, t, r) && Up(sz) <= Up(sz')
    requires Shows(s, t, r, Up(sz), Up(sz') - Up(sz), FreshPage())
    ensures Proper(t, r, sz') && KernelSame(s, t, r)
    ensures Image(t, r, sz') == Image(s, r, sz) + FreshPages(Up(sz') - Up(sz))
  {
    var n := Up(sz') - Up(sz);
    ShowsKernel(s, t, r, Up(sz), n, FreshPage());
    forall y | IdxOk(y) && Lookup(t.mem, r, y) != NO_PTE
      ensures if Special(y) then !Lookup(t.mem, r, y).u else InRange(y, 0, Up(sz'))
    {
      assert ShowAt(s, t, r, Up(sz), n, FreshPage(), y);
      Mapped(t, r, y);
    }
    var a, b := Image(t, r, sz'), Image(s, r, sz) + FreshPages(n);
    forall v | 0 <= v < |a| ensures a[v] == b[v] {
      PageBelow(v, sz');
      assert ShowAt(s, t, r, Up(sz), n, FreshPage(), IdxOf(v));
    }
  }

  /** Shrinking cuts the image. */
  lemma Shrinking(s: Vm, t: Vm, r: nat, sz: nat, sz': nat)
    requires Proper(s, r, sz) && sz' <= sz && Did(s, t, r) && Up(sz') <= Up(sz)
    requires Shows(s, t, r, Up(sz'), Up(sz) - Up(sz'), None)
    ensures Proper(t, r, sz') && KernelSame(s, t, r) && Image(t, r, sz') == Image(s, r, sz)[..Up(sz')]
  {
    var n := Up(sz) - Up(sz');
    ShowsKernel(s, t, r, Up(sz'), n, None);
    forall y | IdxOk(y) && Lookup(t.mem, r, y) != NO_PTE
      ensures if Special(y) then !Lookup(t.mem, r, y).u else InRange(y, 0, Up(sz'))
    {
      assert ShowAt(s, t, r, Up(sz'), n, None, y);
      Mapped(t, r, y);
      if !Special(y) {
        assert At(t, r, y).Some?;
        if Lookup(s.mem, r, y) != NO_PTE { assert InRange(y, 0, Up(sz)); }
      }
    }
    var a, b := Image(t, r, sz'), Image(s, r, sz)[..Up(sz')];
    forall v | 0 <= v < |a| ensures a[v] == b[v] {
      PageBelow(v, sz');
      assert ShowAt(s, t, r, Up(sz'), n, None, IdxOf(v));
    }
  }

  /** Nothing is mapped past the end. */
  lemma VacantAfter(s: Vm, r: nat, sz: nat, n: nat)
    requires Proper(s, r, sz)
    ensures Vacant(s, r, Up(sz), n)
  {
    forall y | UserIdx(y) && InRange(y, Up(sz), n) ensures At(s, r, y) == None {
      assert Lookup(s.mem, r, y) == NO_PTE;
    }
  }

  // ---------------------------------------------------------------- fork

  /** The child's image is the parent's, whatever is resident. */
  lemma CopySeen(s: Vm, t: Vm, r: nat, n: nat, sz: nat)
    requires Proper(s, r, sz) && Proper(s, n, 0) && Copied(s, t, r, n, Up(sz))
    ensures Proper(t, n, sz) && KernelSame(s, t, n) && Image(t, n, sz) == Image(s, r, sz)
  {
    assert CopiedAt(s, t, r, n, Up(sz), TRAMP_IDX) && CopiedAt(s, t, r, n, Up(sz), TRAP_IDX);
    forall y | IdxOk(y) && Lookup(t.mem, n, y) != NO_PTE
      ensures if Special(y) then !Lookup(t.mem, n, y).u else InRange(y, 0, Up(sz))
    {
      assert CopiedAt(s, t, r, n, Up(sz), y);
      Mapped(t, n, y);
      if !Special(y) { Outside(s, n, 0, y); }
    }
    var a, b := Image(t, n, sz), Image(s, r, sz);
    forall v | 0 <= v < |a| ensures a[v] == b[v] {
      PageBelow(v, sz);
      assert CopiedAt(s, t, r, n, Up(sz), IdxOf(v));
    }
  }
}
