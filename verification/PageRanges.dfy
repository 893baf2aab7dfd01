/** Ranges of virtual pages, and how operations on page tables compose. */
module PageRanges {
  import opened PageSpec
  import opened PageSteps

  // ---------------------------------------------------------------- page numbers

  function Vpn(x: Idx): nat {
    (x.i2 * 512 + x.i1) * 512 + x.i0
  }

  lemma SplitIndex(a: nat, i: nat, b: nat, j: nat)
    requires i < 512 && j < 512 && a * 512 + i == b * 512 + j
    ensures a == b && i == j
  {
  }

  lemma VpnInjective(x: Idx, y: Idx)
    requires IdxOk(x) && IdxOk(y) && Vpn(x) == Vpn(y)
    ensures x == y
  {
    SplitIndex(x.i2 * 512 + x.i1, x.i0, y.i2 * 512 + y.i1, y.i0);
    SplitIndex(x.i2, x.i1, y.i2, y.i1);
  }

  predicate InRange(x: Idx, v: nat, n: nat) {
    v <= Vpn(x) < v + n
  }

  // ---------------------------------------------------------------- what stays

  /** Nothing that was in use is disturbed; free pages may have become tables of r. */
  ghost predicate Grew(s: Vm, t: Vm, r: nat) {
    && t.lo == s.lo && |t.mem| == |s.mem|
    && forall p: nat {:trigger GrewAt(s, t, r, p)} :: GrewAt(s, t, r, p)
  }

  ghost predicate GrewAt(s: Vm, t: Vm, r: nat, p: nat) {
    p in s.own ==>
      && p in t.own && p < |s.mem| && p < |t.mem|
      && (s.own[p] != Free ==> t.own[p] == s.own[p] && (!IsTable(s.own[p]) ==> t.mem[p] == s.mem[p]))
      && (s.own[p] == Free ==> t.own[p] == Free || TableOf(t.own[p], r))
  }

  predicate TableOf(u: Use, r: nat) {
    match u
    case Mid(r', _) => r' == r
    case Low(r', _, _) => r' == r
    case _ => false
  }

  lemma GrewSelf(s: Vm, r: nat)
    requires Inv(s)
    ensures Grew(s, s, r) && SameMaps(s, s)
  {
    forall p: nat ensures GrewAt(s, s, r, p) { assert PageOk(s, p); }
    forall r': nat, x: Idx ensures SameAt(s, s, r', x) {}
  }

  lemma GrewMore(s: Vm, t: Vm, u: Vm, r: nat)
    requires Grew(s, t, r) && Grew(t, u, r)
    ensures Grew(s, u, r)
  {
    forall p: nat ensures GrewAt(s, u, r, p) {
      assert GrewAt(s, t, r, p) && GrewAt(t, u, r, p);
    }
  }

  lemma SameMore(s: Vm, t: Vm, u: Vm)
    requires SameMaps(s, t) && SameMaps(t, u)
    ensures SameMaps(s, u)
  {
    forall r: nat, x: Idx ensures SameAt(s, u, r, x) {
      assert SameAt(s, t, r, x) && SameAt(t, u, r, x);
    }
  }

  /** kalloc and then a new table: no use is disturbed. */
  lemma NewTableGrew(s: Vm, page: Page, p: nat, i: nat)
    requires Inv(s) && s.freelist != [] && SlotAt(s, p, i) && !s.own[p].Low? && Entry(s.mem, p, i) == NO_PTE
    ensures s.freelist[0] < |s.mem| && Growable(Taken(s, page), p, i, s.freelist[0])
    ensures var u := NewTable(Taken(s, page), p, i, s.freelist[0]);
            && Inv(u) && Grew(s, u, RootOf(s.own[p], p)) && SameMaps(s, u)
            && u.own[s.freelist[0]] == Below(s.own[p], p, i) && Child(u.mem, p, i) == s.freelist[0]
  {
    var c := s.freelist[0];
    TakenKeeps(s, page);
    var t := Taken(s, page);
    NewTableKeeps(t, p, i, c);
    var u := NewTable(t, p, i, c);
    SameMore(s, t, u);
    forall q: nat ensures GrewAt(s, u, RootOf(s.own[p], p), q) {
      assert PageOk(s, q);
    }
  }

  // ---------------------------------------------------------------- ranges

  /** Entry e, for the page n places further on. */
  function Offset(e: Pte, n: nat): Pte {
    e.(ppn := e.ppn + n)
  }

  /** The flat maps after pages [v, v + n) of table r are mapped by e, e + 1, ... */
  ghost predicate RangeSet(s: Vm, t: Vm, r: nat, v: nat, n: nat, e: Pte) {
    forall r': nat, y: Idx {:trigger RangeAt(s, t, r, v, n, e, r', y)} :: RangeAt(s, t, r, v, n, e, r', y)
  }

  ghost predicate RangeAt(s: Vm, t: Vm, r: nat, v: nat, n: nat, e: Pte, r': nat, y: Idx) {
    IsTop(s, r') && IdxOk(y) ==>
      && IsTop(t, r')
      && Lookup(t.mem, r', y) == if r' == r && InRange(y, v, n) then Offset(e, Vpn(y) - v) else Lookup(s.mem, r', y)
  }

  lemma RangeNone(s: Vm, t: Vm, r: nat, v: nat, e: Pte)
    requires SameMaps(s, t)
    ensures RangeSet(s, t, r, v, 0, e)
  {
    forall r': nat, y: Idx ensures RangeAt(s, t, r, v, 0, e, r', y) { assert SameAt(s, t, r', y); }
  }

  lemma RangeSame(s: Vm, t: Vm, u: Vm, r: nat, v: nat, n: nat, e: Pte)
    requires RangeSet(s, t, r, v, n, e) && SameMaps(t, u)
    ensures RangeSet(s, u, r, v, n, e)
  {
    forall r': nat, y: Idx ensures RangeAt(s, u, r, v, n, e, r', y) {
      assert RangeAt(s, t, r, v, n, e, r', y) && SameAt(t, u, r', y);
    }
  }

  lemma RangeMore(s: Vm, t: Vm, u: Vm, r: nat, v: nat, n: nat, e: Pte, x: Idx)
    requires RangeSet(s, t, r, v, n, e) && MapsSet(t, u, r, x, Offset(e, n)) && IdxOk(x) && Vpn(x) == v + n
    ensures RangeSet(s, u, r, v, n + 1, e)
  {
    var m := n + 1;
    forall r': nat, y: Idx ensures RangeAt(s, u, r, v, m, e, r', y) {
      assert RangeAt(s, t, r, v, n, e, r', y) && SetAt(t, u, r, x, Offset(e, n), r', y);
      if IdxOk(y) && Vpn(y) == v + n { VpnInjective(x, y); }
    }
  }

  /** The flat maps after pages [v, v + n) of table r are unmapped. */
  ghost predicate RangeCleared(s: Vm, t: Vm, r: nat, v: nat, n: nat) {
    forall r': nat, y: Idx {:trigger ClearAt(s, t, r, v, n, r', y)} :: ClearAt(s, t, r, v, n, r', y)
  }

  ghost predicate ClearAt(s: Vm, t: Vm, r: nat, v: nat, n: nat, r': nat, y: Idx) {
    IsTop(s, r') && IdxOk(y) ==>
      && IsTop(t, r')
      && Lookup(t.mem, r', y) == if r' == r && InRange(y, v, n) then NO_PTE else Lookup(s.mem, r', y)
  }

  lemma ClearMore(s: Vm, t: Vm, u: Vm, r: nat, v: nat, n: nat, x: Idx)
    requires RangeCleared(s, t, r, v, n) && MapsSet(t, u, r, x, NO_PTE) && IdxOk(x) && Vpn(x) == v + n
    ensures RangeCleared(s, u, r, v, n + 1)
  {
    var m := n + 1;
    forall r': nat, y: Idx ensures ClearAt(s, u, r, v, m, r', y) {
      assert ClearAt(s, t, r, v, n, r', y) && SetAt(t, u, r, x, NO_PTE, r', y);
      if IdxOk(y) && Vpn(y) == v + n { VpnInjective(x, y); }
    }
  }

  /** A page that was not mapped needs no clearing. */
  lemma ClearSkip(s: Vm, t: Vm, r: nat, v: nat, n: nat, x: Idx)
    requires RangeCleared(s, t, r, v, n) && IsTop(s, r) && IdxOk(x) && Vpn(x) == v + n && Lookup(t.mem, r, x) == NO_PTE
    ensures RangeCleared(s, t, r, v, n + 1)
  {
    var m := n + 1;
    forall r': nat, y: Idx ensures ClearAt(s, t, r, v, m, r', y) {
      assert ClearAt(s, t, r, v, n, r', y);
      if IdxOk(y) && Vpn(y) == v + n { VpnInjective(x, y); }
    }
  }

  /** The uses of pages once the ordinary pages mapped at [v, v + n) of r have use u. */
  ghost function Released(own: map<nat, Use>, r: nat, v: nat, n: nat, u: Use): map<nat, Use> {
    map p | p in own :: if own[p].User? && own[p].root == r && InRange(own[p].idx, v, n) then u else own[p]
  }

  // ---------------------------------------------------------------- uses after mapping

  /** Page e.ppn is now mapped at page x of r, and nothing else is disturbed. */
  ghost predicate UseSet(s: Vm, t: Vm, r: nat, x: Idx, e: Pte) {
    && t.lo == s.lo && |t.mem| == |s.mem|
    && forall p: nat {:trigger UseSetAt(s, t, r, x, e, p)} :: UseSetAt(s, t, r, x, e, p)
  }

  ghost predicate UseSetAt(s: Vm, t: Vm, r: nat, x: Idx, e: Pte, p: nat) {
    if p == e.ppn && !Special(x) then
      p in s.own && p in t.own && t.own[p] == User(r, x) && p < |s.mem| && p < |t.mem| && t.mem[p] == s.mem[p]
    else GrewAt(s, t, r, p)
  }

  lemma MapPageUses(s: Vm, t: Vm, p: nat, i: nat, e: Pte, r: nat, x: Idx)
    requires Inv(s) && Grew(s, t, r) && SameMaps(s, t) && Mappable(t, p, i, e, r, x)
    requires !Special(x) ==> e.ppn in s.own && s.own[e.ppn] == Held
    ensures var u := MapPage(t, p, i, e, x); Inv(u) && MapsSet(s, u, r, x, e) && UseSet(s, u, r, x, e)
  {
    MapPageKeeps(t, p, i, e, r, x);
    var u := MapPage(t, p, i, e, x);
    forall r': nat, y: Idx ensures SetAt(s, u, r, x, e, r', y) {
      assert SameAt(s, t, r', y) && SetAt(t, u, r, x, e, r', y);
    }
    forall q: nat ensures UseSetAt(s, u, r, x, e, q) {
      assert GrewAt(s, t, r, q) && PageOk(s, q) && PageOk(t, q);
    }
  }

  /** The indices of page number v. */
  function IdxOf(v: nat): Idx {
    Px(v * PGSIZE)
  }

  lemma IdxOfVpn(v: nat)
    requires v < MAXVA / PGSIZE
    ensures IdxOk(IdxOf(v)) && Vpn(IdxOf(v)) == v && v * PGSIZE < MAXVA
  {
    PxVpn(v * PGSIZE);
  }

  /** Pages e.ppn, e.ppn + 1, ... are now mapped at [v, v + n) of r, and nothing else is disturbed. */
  ghost predicate UsesSet(s: Vm, t: Vm, r: nat, v: nat, n: nat, e: Pte) {
    && t.lo == s.lo && |t.mem| == |s.mem|
    && forall p: nat {:trigger UsesSetAt(s, t, r, v, n, e, p)} :: UsesSetAt(s, t, r, v, n, e, p)
  }

  ghost predicate UsesSetAt(s: Vm, t: Vm, r: nat, v: nat, n: nat, e: Pte, p: nat) {
    if e.ppn <= p < e.ppn + n && !Special(IdxOf(v + (p - e.ppn))) then
      p in s.own && p in t.own && t.own[p] == User(r, IdxOf(v + (p - e.ppn))) && p < |s.mem| && p < |t.mem| && t.mem[p] == s.mem[p]
    else GrewAt(s, t, r, p)
  }

  lemma UsesMore(s: Vm, t: Vm, u: Vm, r: nat, v: nat, n: nat, e: Pte)
    requires UsesSet(s, t, r, v, n, e) && UseSet(t, u, r, IdxOf(v + n), Offset(e, n))
    requires !Special(IdxOf(v + n)) ==> e.ppn + n in s.own && s.own[e.ppn + n] == Held
    ensures UsesSet(s, u, r, v, n + 1, e)
  {
    var m := n + 1;
    forall p: nat ensures UsesSetAt(s, u, r, v, m, e, p) {
      assert UsesSetAt(s, t, r, v, n, e, p) && UseSetAt(t, u, r, IdxOf(v + n), Offset(e, n), p);
    }
  }

  // ---------------------------------------------------------------- uses after unmapping

  /** Pages that keep their use keep their bytes. */
  ghost predicate BytesKept(s: Vm, t: Vm) {
    t.lo == s.lo && |t.mem| == |s.mem| && forall p: nat {:trigger KeptAt(s, t, p)} :: KeptAt(s, t, p)
  }

  ghost predicate KeptAt(s: Vm, t: Vm, p: nat) {
    p in s.own && p in t.own && t.own[p] == s.own[p] && !IsTable(s.own[p]) && s.own[p] != Free && p < |s.mem| && p < |t.mem| ==>
      t.mem[p] == s.mem[p]
  }

  /** Only page Lookup(r, x).ppn is in use at page x of r. */
  lemma OneUser(s: Vm, r: nat, x: Idx, p: nat)
    requires Inv(s) && p in s.own && s.own[p] == User(r, x)
    ensures Lookup(s.mem, r, x).v && Lookup(s.mem, r, x).ppn == p
  {
    assert PageOk(s, p);
  }

  lemma ReleasedMore(s: Vm, own: map<nat, Use>, r: nat, v: nat, n: nat, u: Use, x: Idx, c: nat)
    requires Inv(s) && IdxOk(x) && Vpn(x) == v + n && own == Released(s.own, r, v, n, u)
    requires c in s.own && s.own[c] == User(r, x)
    ensures own[c := u] == Released(s.own, r, v, n + 1, u)
  {
    var w := Released(s.own, r, v, n + 1, u);
    OneUser(s, r, x, c);
    forall p | p in s.own ensures own[c := u][p] == w[p] {
      if s.own[p].User? && s.own[p].root == r && Vpn(s.own[p].idx) == v + n {
        assert PageOk(s, p);
        VpnInjective(x, s.own[p].idx);
      }
    }
  }

  lemma ReleasedSkip(s: Vm, r: nat, v: nat, n: nat, u: Use, x: Idx)
    requires Inv(s) && IdxOk(x) && Vpn(x) == v + n && (Special(x) || Lookup(s.mem, r, x) == NO_PTE)
    ensures Released(s.own, r, v, n, u) == Released(s.own, r, v, n + 1, u)
  {
    forall p | p in s.own ensures Released(s.own, r, v, n, u)[p] == Released(s.own, r, v, n + 1, u)[p] {
      if s.own[p].User? && s.own[p].root == r && Vpn(s.own[p].idx) == v + n {
        assert PageOk(s, p);
        VpnInjective(x, s.own[p].idx);
      }
    }
  }
}
