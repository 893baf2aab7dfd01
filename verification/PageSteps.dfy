/** The elementary changes to page tables and pages; each keeps every page in exactly one use. */
module PageSteps {
  import opened PageSpec

  /** Every entry but slot i of p, and those of page c, reads as before. */
  ghost predicate OneSlot(mem: seq<Page>, mem': seq<Page>, p: nat, i: nat, e: Pte, c: nat) {
    && (forall q, j {:trigger Entry(mem', q, j)} :: q != c && !(q == p && j == i) ==> Entry(mem', q, j) == Entry(mem, q, j))
    && Entry(mem', p, i) == e
  }

  /** Do all flat maps stay as they were? */
  ghost predicate SameMaps(s: Vm, t: Vm) {
    forall r: nat, x: Idx {:trigger SameAt(s, t, r, x)} :: SameAt(s, t, r, x)
  }

  ghost predicate SameAt(s: Vm, t: Vm, r: nat, x: Idx) {
    IsTop(s, r) && IdxOk(x) ==> IsTop(t, r) && Lookup(t.mem, r, x) == Lookup(s.mem, r, x)
  }

  /** The flat maps after page x of table r is given the value e. */
  ghost predicate MapsSet(s: Vm, t: Vm, r: nat, x: Idx, e: Pte) {
    forall r': nat, y: Idx {:trigger SetAt(s, t, r, x, e, r', y)} :: SetAt(s, t, r, x, e, r', y)
  }

  ghost predicate SetAt(s: Vm, t: Vm, r: nat, x: Idx, e: Pte, r': nat, y: Idx) {
    IsTop(s, r') && IdxOk(y) ==>
      IsTop(t, r') && Lookup(t.mem, r', y) == if r' == r && y == x then e else Lookup(s.mem, r', y)
  }

  ghost predicate PagesOk(s: Vm) {
    && (forall q: nat {:trigger PageOk(s, q)} :: PageOk(s, q))
    && (forall q: nat, i: nat {:trigger EntryOk(s, q, i)} :: EntryOk(s, q, i))
  }

  // ---------------------------------------------------------------- pages that are not tables

  /** Walks from r when only page c, which is no table, changes. */
  lemma WalkSame(s: Vm, c: nat, page: Page, r: nat, x: Idx)
    requires Inv(s) && IsTop(s, r) && c in s.own && c < |s.mem| && !IsTable(s.own[c]) && IdxOk(x)
    ensures var mem := s.mem[c := page];
            && Child(mem, r, x.i2) == Child(s.mem, r, x.i2) && LowTable(mem, r, x.i2, x.i1) == LowTable(s.mem, r, x.i2, x.i1)
            && Lookup(mem, r, x) == Lookup(s.mem, r, x)
  {
    Down1(s, r, x.i2);
    Down0(s, r, x.i2, x.i1);
    assert PageOk(s, r);
  }

  /** Page c, which is no table, gets other contents or another use. */
  ghost function Reused(s: Vm, c: nat, page: Page, use: Use): Vm
    requires c < |s.mem|
  {
    s.(mem := s.mem[c := page], own := s.own[c := use])
  }

  ghost predicate UseOk(s: Vm, c: nat, page: Page, use: Use) {
    && Inv(s) && c in s.own && c < |s.mem| && !IsTable(s.own[c])
    && (s.own[c].User? || use.User? ==> use == s.own[c])
    && (use.Frame? || use.User? ==> page.Bytes? && |page.bytes| == PGSIZE)
    && (IsTable(use) ==> use == Top && page == ZeroTable())
  }

  lemma ReusedPage(s: Vm, c: nat, page: Page, use: Use, q: nat)
    requires UseOk(s, c, page, use)
    ensures PageOk(Reused(s, c, page, use), q)
  {
    assert PageOk(s, q);
    if q in s.own {
      match s.own[q]
      case Mid(r, a) => WalkSame(s, c, page, r, Idx(a, 0, 0));
      case Low(r, a, b) => WalkSame(s, c, page, r, Idx(a, b, 0));
      case User(r, x) => WalkSame(s, c, page, r, x);
      case _ =>
    }
  }

  lemma ReusedPages(s: Vm, c: nat, page: Page, use: Use)
    requires UseOk(s, c, page, use)
    ensures PagesOk(Reused(s, c, page, use)) && SameMaps(s, Reused(s, c, page, use))
  {
    var t := Reused(s, c, page, use);
    forall q: nat ensures PageOk(t, q) {
      ReusedPage(s, c, page, use, q);
    }
    forall q: nat, i: nat ensures EntryOk(t, q, i) {
      assert EntryOk(s, q, i) && PageOk(s, q);
    }
    forall r: nat, x: Idx ensures SameAt(s, t, r, x) {
      if IsTop(s, r) && IdxOk(x) { WalkSame(s, c, page, r, x); }
    }
  }

  /** A page changes hands, or its bytes change, away from the free list. */
  lemma ReusedKeeps(s: Vm, c: nat, page: Page, use: Use)
    requires UseOk(s, c, page, use) && s.own[c] != Free && use != Free
    ensures Inv(Reused(s, c, page, use)) && SameMaps(s, Reused(s, c, page, use))
  {
    ReusedPages(s, c, page, use);
  }

  /** The free list plays no part in the other conditions. */
  lemma SameButFree(w: Vm, s: Vm, t: Vm)
    requires t == s.(freelist := t.freelist) && PagesOk(s) && SameMaps(w, s)
    ensures PagesOk(t) && SameMaps(w, t)
  {
    forall r: nat, x: Idx ensures SameAt(w, t, r, x) { assert SameAt(w, s, r, x); }
    forall q: nat ensures PageOk(t, q) { assert PageOk(s, q); }
    forall q: nat, i: nat ensures EntryOk(t, q, i) { assert EntryOk(s, q, i); }
  }

  /** kalloc: the first free page, with other contents. */
  ghost function Taken(s: Vm, page: Page): Vm
    requires s.freelist != [] && s.freelist[0] < |s.mem|
  {
    Reused(s, s.freelist[0], page, Held).(freelist := s.freelist[1..])
  }

  lemma TakenKeeps(s: Vm, page: Page)
    requires Inv(s) && s.freelist != []
    ensures s.freelist[0] in s.own && s.own[s.freelist[0]] == Free && s.lo <= s.freelist[0] < |s.mem|
    ensures Inv(Taken(s, page)) && SameMaps(s, Taken(s, page))
  {
    var p := s.freelist[0];
    assert p in s.freelist && PageOk(s, p);
    ReusedPages(s, p, page, Held);
    SameButFree(s, Reused(s, p, page, Held), Taken(s, page));
    forall q ensures q in s.freelist[1..] <==> q in s.freelist && q != p {
      assert s.freelist == [p] + s.freelist[1..];
    }
  }

  /** kfree of a page that nothing else uses. */
  ghost function Given(s: Vm, p: nat, page: Page): Vm
    requires p < |s.mem|
  {
    Reused(s, p, page, Free).(freelist := [p] + s.freelist)
  }

  lemma GivenKeeps(s: Vm, p: nat, page: Page)
    requires Inv(s) && p in s.own && (s.own[p] == Held || s.own[p].Frame?)
    ensures p < |s.mem| && Inv(Given(s, p, page)) && SameMaps(s, Given(s, p, page))
  {
    assert PageOk(s, p);
    ReusedPages(s, p, page, Free);
    SameButFree(s, Reused(s, p, page, Free), Given(s, p, page));
  }

  /** A held page becomes an empty root. */
  lemma NewRootKeeps(s: Vm, c: nat)
    requires Inv(s) && c in s.own && s.own[c] == Held
    ensures c < |s.mem| && Inv(Reused(s, c, ZeroTable(), Top)) && SameMaps(s, Reused(s, c, ZeroTable(), Top))
    ensures forall x :: Lookup(Reused(s, c, ZeroTable(), Top).mem, c, x) == NO_PTE
  {
    assert PageOk(s, c);
    ReusedPages(s, c, ZeroTable(), Top);
  }

  // ---------------------------------------------------------------- tables

  function SetEntry(mem: seq<Page>, p: nat, i: nat, e: Pte): seq<Page>
    requires p < |mem| && mem[p].Table? && i < |mem[p].ptes|
  {
    mem[p := Table(mem[p].ptes[i := e])]
  }

  /** Where the table below slot i of page p belongs. */
  function Below(u: Use, p: nat, i: nat): Use {
    match u
    case Mid(r, a) => Low(r, a, i)
    case _ => Mid(p, i)
  }

  function RootOf(u: Use, p: nat): nat {
    match u
    case Mid(r, _) => r
    case Low(r, _, _) => r
    case _ => p
  }

  ghost predicate SlotAt(s: Vm, p: nat, i: nat) {
    Inv(s) && p in s.own && IsTable(s.own[p]) && i < NPTE && p < |s.mem| && TablePage(s, p)
  }

  lemma SlotFound(s: Vm, p: nat, i: nat)
    requires Inv(s) && p in s.own && IsTable(s.own[p]) && i < NPTE
    ensures SlotAt(s, p, i)
  {
    assert PageOk(s, p);
  }

  /** walk's new table: held page c, zeroed, goes into the empty slot i of p. */
  ghost function NewTable(s: Vm, p: nat, i: nat, c: nat): Vm
    requires p < |s.mem| && s.mem[p].Table? && i < |s.mem[p].ptes| && c < |s.mem| && c != p && p in s.own
  {
    s.(mem := SetEntry(s.mem[c := ZeroTable()], p, i, Pointer(c)), own := s.own[c := Below(s.own[p], p, i)])
  }

  ghost predicate Growable(s: Vm, p: nat, i: nat, c: nat) {
    && SlotAt(s, p, i) && !s.own[p].Low? && Entry(s.mem, p, i) == NO_PTE
    && c in s.own && s.own[c] == Held && 0 < c < |s.mem| && c != p
  }

  lemma NewTableSlots(s: Vm, p: nat, i: nat, c: nat)
    requires Growable(s, p, i, c)
    ensures OneSlot(s.mem, NewTable(s, p, i, c).mem, p, i, Pointer(c), c)
    ensures forall j {:trigger Entry(NewTable(s, p, i, c).mem, c, j)} :: Entry(NewTable(s, p, i, c).mem, c, j) == NO_PTE
  {
  }

  lemma NewTable1(s: Vm, p: nat, i: nat, c: nat, r: nat, a: nat)
    requires Growable(s, p, i, c) && IsTop(s, r) && a < NPTE
    ensures Child(NewTable(s, p, i, c).mem, r, a) == if r == p && a == i then c else Child(s.mem, r, a)
  {
    NewTableSlots(s, p, i, c);
  }

  lemma NewTable0(s: Vm, p: nat, i: nat, c: nat, r: nat, a: nat, b: nat)
    requires Growable(s, p, i, c) && IsTop(s, r) && a < NPTE && b < NPTE
    ensures LowTable(NewTable(s, p, i, c).mem, r, a, b) == if s.own[p] == Mid(r, a) && b == i then c else LowTable(s.mem, r, a, b)
  {
    NewTableSlots(s, p, i, c);
    NewTable1(s, p, i, c, r, a);
    Down1(s, r, a);
    assert PageOk(s, p) && PageOk(s, 0);
  }

  lemma NewTableMap(s: Vm, p: nat, i: nat, c: nat, r: nat, x: Idx)
    requires Growable(s, p, i, c) && IsTop(s, r) && IdxOk(x)
    ensures Lookup(NewTable(s, p, i, c).mem, r, x) == Lookup(s.mem, r, x)
  {
    NewTableSlots(s, p, i, c);
    NewTable0(s, p, i, c, r, x.i2, x.i1);
    Down0(s, r, x.i2, x.i1);
    assert PageOk(s, p);
  }

  lemma NewTablePage(s: Vm, p: nat, i: nat, c: nat, q: nat)
    requires Growable(s, p, i, c)
    ensures PageOk(NewTable(s, p, i, c), q)
  {
    assert PageOk(s, q) && PageOk(s, p) && PageOk(s, c);
    if q == c {
      if s.own[p].Top? {
        NewTable1(s, p, i, c, p, i);
      } else {
        NewTable0(s, p, i, c, s.own[p].root, s.own[p].i2, i);
      }
    } else if q in s.own {
      match s.own[q]
      case Mid(r, a) => NewTable1(s, p, i, c, r, a);
      case Low(r, a, b) =>
        NewTable0(s, p, i, c, r, a, b);
        Down0(s, r, a, b);
      case User(r, x) => NewTableMap(s, p, i, c, r, x);
      case _ =>
    }
  }

  lemma NewTableKeeps(s: Vm, p: nat, i: nat, c: nat)
    requires Growable(s, p, i, c)
    ensures Inv(NewTable(s, p, i, c)) && SameMaps(s, NewTable(s, p, i, c))
    ensures Child(NewTable(s, p, i, c).mem, p, i) == c
  {
    var t := NewTable(s, p, i, c);
    NewTableSlots(s, p, i, c);
    forall q: nat ensures PageOk(t, q) {
      NewTablePage(s, p, i, c, q);
    }
    forall q: nat, j: nat ensures EntryOk(t, q, j) {
      assert EntryOk(s, q, j) && PageOk(s, q) && PageOk(s, p);
    }
    forall r: nat, x: Idx ensures SameAt(s, t, r, x) {
      if IsTop(s, r) && IdxOk(x) { NewTableMap(s, p, i, c, r, x); }
    }
  }

  // ---------------------------------------------------------------- leaves

  /** A leaf slot gets another value: no walk changes, and one entry of one flat map does. */
  lemma LeafSet(s: Vm, p: nat, i: nat, e: Pte, r: nat, x: Idx)
    requires SlotAt(s, p, i) && s.own[p].Low? && IsTop(s, r) && IdxOk(x)
    ensures var mem := SetEntry(s.mem, p, i, e);
            && Child(mem, r, x.i2) == Child(s.mem, r, x.i2) && LowTable(mem, r, x.i2, x.i1) == LowTable(s.mem, r, x.i2, x.i1)
            && Lookup(mem, r, x) == if s.own[p] == Low(r, x.i2, x.i1) && x.i0 == i then e else Lookup(s.mem, r, x)
  {
    var mem := SetEntry(s.mem, p, i, e);
    assert OneSlot(s.mem, mem, p, i, e, |mem|);
    Down1(s, r, x.i2);
    Down0(s, r, x.i2, x.i1);
    assert PageOk(s, p) && PageOk(s, 0);
  }

  /** mappages: slot i of table p maps page c. An ordinary page is then in use there. */
  ghost function MapPage(s: Vm, p: nat, i: nat, e: Pte, x: Idx): Vm
    requires p < |s.mem| && s.mem[p].Table? && i < |s.mem[p].ptes| && p in s.own
  {
    s.(mem := SetEntry(s.mem, p, i, e), own := if Special(x) then s.own else s.own[e.ppn := User(RootOf(s.own[p], p), x)])
  }

  /** Slot i of p is that of page x. */
  ghost predicate LeafAt(s: Vm, p: nat, i: nat, r: nat, x: Idx) {
    SlotAt(s, p, i) && s.own[p] == Low(r, x.i2, x.i1) && x.i0 == i && IdxOk(x) && IsTop(s, r)
  }

  ghost predicate Mappable(s: Vm, p: nat, i: nat, e: Pte, r: nat, x: Idx) {
    && LeafAt(s, p, i, r, x) && Entry(s.mem, p, i) == NO_PTE && e.v && Leaf(e)
    && (!Special(x) ==> e.ppn in s.own && s.own[e.ppn] == Held && e.ppn < |s.mem| && BytesPage(s, e.ppn))
  }

  lemma MapPagePage(s: Vm, p: nat, i: nat, e: Pte, r: nat, x: Idx, q: nat)
    requires Mappable(s, p, i, e, r, x)
    ensures PageOk(MapPage(s, p, i, e, x), q)
  {
    assert PageOk(s, q) && PageOk(s, p) && PageOk(s, e.ppn);
    if q == e.ppn && !Special(x) {
      LeafSet(s, p, i, e, r, x);
    } else if q in s.own {
      match s.own[q]
      case Mid(r', a) => LeafSet(s, p, i, e, r', Idx(a, 0, 0));
      case Low(r', a, b) => LeafSet(s, p, i, e, r', Idx(a, b, 0));
      case User(r', y) =>
        LeafSet(s, p, i, e, r', y);
        Down0(s, r', y.i2, y.i1);
      case _ =>
    }
  }

  lemma MapPageKeeps(s: Vm, p: nat, i: nat, e: Pte, r: nat, x: Idx)
    requires Mappable(s, p, i, e, r, x)
    ensures Inv(MapPage(s, p, i, e, x)) && MapsSet(s, MapPage(s, p, i, e, x), r, x, e)
  {
    var t := MapPage(s, p, i, e, x);
    assert OneSlot(s.mem, t.mem, p, i, e, |t.mem|);
    forall q: nat ensures PageOk(t, q) {
      MapPagePage(s, p, i, e, r, x, q);
    }
    forall q: nat, j: nat ensures EntryOk(t, q, j) {
      assert EntryOk(s, q, j) && PageOk(s, q);
    }
    forall r': nat, y: Idx ensures SetAt(s, t, r, x, e, r', y) {
      if IsTop(s, r') && IdxOk(y) { LeafSet(s, p, i, e, r', y); }
    }
  }

  /** uvmunmap: the slot is cleared, and an ordinary page is held again. */
  ghost function UnmapPage(s: Vm, p: nat, i: nat, x: Idx): Vm
    requires p < |s.mem| && s.mem[p].Table? && i < |s.mem[p].ptes|
  {
    s.(mem := SetEntry(s.mem, p, i, NO_PTE), own := if Special(x) then s.own else s.own[Entry(s.mem, p, i).ppn := Held])
  }

  ghost predicate Unmappable(s: Vm, p: nat, i: nat, r: nat, x: Idx) {
    LeafAt(s, p, i, r, x) && Entry(s.mem, p, i) != NO_PTE
  }

  lemma UnmapPagePage(s: Vm, p: nat, i: nat, r: nat, x: Idx, q: nat)
    requires Unmappable(s, p, i, r, x)
    ensures PageOk(UnmapPage(s, p, i, x), q)
  {
    assert PageOk(s, q) && PageOk(s, p) && EntryOk(s, p, i);
    if q in s.own {
      match s.own[q]
      case Mid(r', a) => LeafSet(s, p, i, NO_PTE, r', Idx(a, 0, 0));
      case Low(r', a, b) => LeafSet(s, p, i, NO_PTE, r', Idx(a, b, 0));
      case User(r', y) =>
        LeafSet(s, p, i, NO_PTE, r', y);
        Down0(s, r', y.i2, y.i1);
      case _ =>
    }
  }

  lemma UnmapPageKeeps(s: Vm, p: nat, i: nat, r: nat, x: Idx)
    requires Unmappable(s, p, i, r, x)
    ensures Inv(UnmapPage(s, p, i, x)) && MapsSet(s, UnmapPage(s, p, i, x), r, x, NO_PTE)
    ensures !Special(x) ==> Entry(s.mem, p, i).ppn in s.own && s.own[Entry(s.mem, p, i).ppn] == User(r, x)
  {
    var t := UnmapPage(s, p, i, x);
    assert EntryOk(s, p, i);
    assert OneSlot(s.mem, t.mem, p, i, NO_PTE, |t.mem|);
    forall q: nat ensures PageOk(t, q) {
      UnmapPagePage(s, p, i, r, x, q);
    }
    forall q: nat, j: nat ensures EntryOk(t, q, j) {
      assert EntryOk(s, q, j) && PageOk(s, q) && PageOk(s, p);
    }
    forall r': nat, y: Idx ensures SetAt(s, t, r, x, NO_PTE, r', y) {
      if IsTop(s, r') && IdxOk(y) { LeafSet(s, p, i, NO_PTE, r', y); }
    }
  }

  // ---------------------------------------------------------------- freeing tables

  ghost predicate EmptyTable(s: Vm, p: nat) {
    forall j :: 0 <= j < NPTE ==> Entry(s.mem, p, j) == NO_PTE
  }

  /** freewalk: slot i of p no longer points to the table below, which is empty and held again. */
  ghost function DropTable(s: Vm, p: nat, i: nat): Vm
    requires p < |s.mem| && s.mem[p].Table? && i < |s.mem[p].ptes|
  {
    s.(mem := SetEntry(s.mem, p, i, NO_PTE), own := s.own[Entry(s.mem, p, i).ppn := Held])
  }

  ghost predicate Droppable(s: Vm, p: nat, i: nat) {
    && SlotAt(s, p, i) && !s.own[p].Low? && Entry(s.mem, p, i) != NO_PTE
    && Entry(s.mem, p, i).ppn < |s.mem| && EmptyTable(s, Entry(s.mem, p, i).ppn)
  }

  /** What slot i points to. */
  lemma DropChild(s: Vm, p: nat, i: nat)
    requires SlotAt(s, p, i) && !s.own[p].Low? && Entry(s.mem, p, i) != NO_PTE
    ensures var c := Entry(s.mem, p, i).ppn;
            && Entry(s.mem, p, i) == Pointer(c) && c in s.own && s.own[c] == Below(s.own[p], p, i) && s.lo <= c < |s.mem| && c != p
            && TablePage(s, c) && Child(s.mem, p, i) == c && c != 0
  {
    assert EntryOk(s, p, i) && PageOk(s, p);
    assert PageOk(s, Entry(s.mem, p, i).ppn);
  }

  lemma Drop1(s: Vm, p: nat, i: nat, r: nat, a: nat)
    requires Droppable(s, p, i) && IsTop(s, r) && a < NPTE
    ensures Child(DropTable(s, p, i).mem, r, a) == if r == p && a == i then 0 else Child(s.mem, r, a)
  {
    assert OneSlot(s.mem, DropTable(s, p, i).mem, p, i, NO_PTE, |s.mem|);
  }

  lemma Drop0(s: Vm, p: nat, i: nat, r: nat, a: nat, b: nat)
    requires Droppable(s, p, i) && IsTop(s, r) && a < NPTE && b < NPTE
    ensures LowTable(DropTable(s, p, i).mem, r, a, b) == if s.own[p] == Mid(r, a) && b == i then 0 else LowTable(s.mem, r, a, b)
  {
    assert OneSlot(s.mem, DropTable(s, p, i).mem, p, i, NO_PTE, |s.mem|);
    DropChild(s, p, i);
    Drop1(s, p, i, r, a);
    Down1(s, r, a);
    assert PageOk(s, p);
  }

  lemma DropMap(s: Vm, p: nat, i: nat, r: nat, x: Idx)
    requires Droppable(s, p, i) && IsTop(s, r) && IdxOk(x)
    ensures Lookup(DropTable(s, p, i).mem, r, x) == Lookup(s.mem, r, x)
  {
    assert OneSlot(s.mem, DropTable(s, p, i).mem, p, i, NO_PTE, |s.mem|);
    DropChild(s, p, i);
    Drop0(s, p, i, r, x.i2, x.i1);
    Down0(s, r, x.i2, x.i1);
    assert PageOk(s, p);
  }

  lemma DropPage(s: Vm, p: nat, i: nat, q: nat)
    requires Droppable(s, p, i)
    ensures PageOk(DropTable(s, p, i), q)
  {
    DropChild(s, p, i);
    assert PageOk(s, q) && PageOk(s, p);
    if q in s.own && q != Entry(s.mem, p, i).ppn {
      match s.own[q]
      case Mid(r, a) => Drop1(s, p, i, r, a);
      case Low(r, a, b) => Drop0(s, p, i, r, a, b);
      case User(r, x) => DropMap(s, p, i, r, x);
      case _ =>
    }
  }

  lemma DropTableKeeps(s: Vm, p: nat, i: nat)
    requires Droppable(s, p, i)
    ensures Inv(DropTable(s, p, i)) && SameMaps(s, DropTable(s, p, i))
  {
    var t := DropTable(s, p, i);
    DropChild(s, p, i);
    assert OneSlot(s.mem, t.mem, p, i, NO_PTE, |s.mem|);
    forall q: nat ensures PageOk(t, q) {
      DropPage(s, p, i, q);
    }
    forall q: nat, j: nat ensures EntryOk(t, q, j) {
      DropEntry(s, p, i, q, j);
    }
    forall r: nat, x: Idx ensures SameAt(s, t, r, x) {
      if IsTop(s, r) && IdxOk(x) { DropMap(s, p, i, r, x); }
    }
  }

  lemma DropEntry(s: Vm, p: nat, i: nat, q: nat, j: nat)
    requires Droppable(s, p, i)
    ensures EntryOk(DropTable(s, p, i), q, j)
  {
    DropChild(s, p, i);
    assert OneSlot(s.mem, DropTable(s, p, i).mem, p, i, NO_PTE, |s.mem|);
    assert EntryOk(s, q, j) && PageOk(s, q) && PageOk(s, p);
  }

  /** Nothing hangs below the root of an empty tree. */
  lemma EmptyOwnsNone(s: Vm, r: nat, q: nat)
    requires Inv(s) && IsTop(s, r) && EmptyTable(s, r) && q in s.own
    ensures match s.own[q]
            case Mid(r', _) => r' != r
            case Low(r', _, _) => r' != r
            case User(r', _) => r' != r
            case _ => true
  {
    assert PageOk(s, q);
    match s.own[q]
    case Mid(_, a) => assert Child(s.mem, r, a) == 0;
    case Low(_, a, _) => assert Child(s.mem, r, a) == 0;
    case User(_, x) => assert Child(s.mem, r, x.i2) == 0;
    case _ =>
  }

  /** The root of an empty tree is held again. */
  lemma DropRootKeeps(s: Vm, r: nat)
    requires Inv(s) && IsTop(s, r) && EmptyTable(s, r)
    ensures Inv(s.(own := s.own[r := Held]))
    ensures forall r' :: IsTop(s, r') && r' != r ==> IsTop(s.(own := s.own[r := Held]), r')
  {
    var t := s.(own := s.own[r := Held]);
    forall q: nat ensures PageOk(t, q) {
      assert PageOk(s, q);
      if q in s.own {
        EmptyOwnsNone(s, r, q);
      }
    }
    forall q: nat, j: nat ensures EntryOk(t, q, j) {
      assert EntryOk(s, q, j);
    }
  }
}
