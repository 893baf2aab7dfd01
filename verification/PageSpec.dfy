/** Physical pages and Sv39 page tables (section 4.4 of the RISC-V Privileged Architecture, version 20211203):
    what each page is used for, and the flat map that a three-level tree stands for. */
module PageSpec {
  import Common

  const PGSIZE: nat := 4096
  const NPTE: nat := 512

  type Byte = Common.Byte

  // ---------------------------------------------------------------- page-table entries

  /** A page-table entry: the page number and the flags V, R, W, X and U. */
  datatype Pte = Pte(ppn: nat, v: bool, r: bool, w: bool, x: bool, u: bool)

  /** The entry that is all zero bits. */
  const NO_PTE: Pte := Pte(0, false, false, false, false, false)

  /** Does a valid entry map a page, rather than point to a table? */
  predicate Leaf(e: Pte) {
    e.r || e.w || e.x
  }

  /** PA2PTE(pa) | PTE_V: a pointer to the table in page c. */
  function Pointer(c: nat): Pte {
    Pte(c, true, false, false, false, false)
  }

  // ---------------------------------------------------------------- virtual addresses

  const MAXVA: nat := 0x40_0000_0000
  const TRAMPOLINE: nat := 0x3F_FFFF_F000    // MAXVA - PGSIZE
  const TRAPFRAME: nat := 0x3F_FFFF_E000     // TRAMPOLINE - PGSIZE

  /** The three 9-bit indices of a virtual page. */
  datatype Idx = Idx(i2: nat, i1: nat, i0: nat)

  predicate IdxOk(x: Idx) {
    x.i2 < NPTE && x.i1 < NPTE && x.i0 < NPTE
  }

  /** PX(2, va), PX(1, va) and PX(0, va). */
  function Px(va: nat): Idx {
    Idx(va / 0x4000_0000 % 512, va / 0x20_0000 % 512, va / 0x1000 % 512)
  }

  /** Pages below MAXVA have indices of their own. */
  lemma PxInjective(va: nat, va': nat)
    requires va < MAXVA && va' < MAXVA && Px(va) == Px(va')
    ensures va / PGSIZE == va' / PGSIZE
  {
    PxVpn(va);
    PxVpn(va');
  }

  lemma PxVpn(va: nat)
    requires va < MAXVA
    ensures IdxOk(Px(va)) && va / PGSIZE == (Px(va).i2 * 512 + Px(va).i1) * 512 + Px(va).i0
  {
    var a := va / 0x1000;
    var b := a / 512;
    assert b == va / 0x20_0000;
    assert b / 512 == va / 0x4000_0000;
    assert b / 512 < 512;
  }

  /** The trampoline and the trapframe are mapped for the kernel only. */
  const TRAMP_IDX: Idx := Idx(255, 511, 511)
  const TRAP_IDX: Idx := Idx(255, 511, 510)

  predicate Special(x: Idx) {
    x == TRAMP_IDX || x == TRAP_IDX
  }

  lemma SpecialPages(va: nat)
    requires va < MAXVA
    ensures Px(va) == TRAMP_IDX <==> va / PGSIZE == TRAMPOLINE / PGSIZE
    ensures Px(va) == TRAP_IDX <==> va / PGSIZE == TRAPFRAME / PGSIZE
  {
    PxVpn(va);
  }

  // ---------------------------------------------------------------- the tree

  /** A physical page, as a page table or as bytes. */
  datatype Page = Table(ptes: seq<Pte>) | Bytes(bytes: seq<Byte>)

  function ZeroTable(): Page {
    Table(seq(NPTE, _ => NO_PTE))
  }

  function ZeroPage(): Page {
    Bytes(seq(PGSIZE, _ => 0))
  }

  /** What a physical page is for: a table of the tree with a given root, at its place there, or a mapped page.
      A page that kalloc returned is Held until it is put to use. */
  datatype Use =
    | Free | Held | Frame(owner: nat)
    | Top | Mid(root: nat, i2: nat) | Low(root: nat, i2: nat, i1: nat)
    | User(root: nat, idx: Idx)

  predicate IsTable(u: Use) {
    u.Top? || u.Mid? || u.Low?
  }

  /** Pages [lo, |mem|) are the ones that kalloc manages. */
  datatype Vm = Vm(lo: nat, mem: seq<Page>, freelist: seq<nat>, own: map<nat, Use>)

  /** Entry i of page p, read as a table. */
  function Entry(mem: seq<Page>, p: nat, i: nat): Pte {
    if p < |mem| && mem[p].Table? && i < |mem[p].ptes| then mem[p].ptes[i] else NO_PTE
  }

  /** The table that entry i of table p points to; 0 for none. */
  function Child(mem: seq<Page>, p: nat, i: nat): nat {
    if Entry(mem, p, i).v then Entry(mem, p, i).ppn else 0
  }

  /** The lowest table for indices a and b. */
  function LowTable(mem: seq<Page>, r: nat, a: nat, b: nat): nat {
    if Child(mem, r, a) == 0 then 0 else Child(mem, Child(mem, r, a), b)
  }

  /** The flat map: the entry for virtual page x. */
  function Lookup(mem: seq<Page>, r: nat, x: Idx): Pte {
    if LowTable(mem, r, x.i2, x.i1) == 0 then NO_PTE else Entry(mem, LowTable(mem, r, x.i2, x.i1), x.i0)
  }

  /** How many tables walk has to make for virtual page x. */
  function Missing(mem: seq<Page>, r: nat, x: Idx): (n: nat)
    ensures n <= 2
  {
    if Child(mem, r, x.i2) == 0 then 2 else if LowTable(mem, r, x.i2, x.i1) == 0 then 1 else 0
  }

  // ---------------------------------------------------------------- the invariant

  ghost predicate IsTop(s: Vm, r: nat) {
    r in s.own && s.own[r] == Top
  }

  ghost predicate TablePage(s: Vm, p: nat)
    requires p < |s.mem|
  {
    s.mem[p].Table? && |s.mem[p].ptes| == NPTE
  }

  ghost predicate BytesPage(s: Vm, p: nat)
    requires p < |s.mem|
  {
    s.mem[p].Bytes? && |s.mem[p].bytes| == PGSIZE
  }

  /** Page p is where its use says. */
  ghost predicate PageOk(s: Vm, p: nat) {
    p in s.own ==>
      && s.lo <= p < |s.mem|
      && match s.own[p]
         case Free => true
         case Held => true
         case Frame(_) => BytesPage(s, p)
         case Top => TablePage(s, p)
         case Mid(r, a) => TablePage(s, p) && IsTop(s, r) && a < NPTE && Child(s.mem, r, a) == p
         case Low(r, a, b) => TablePage(s, p) && IsTop(s, r) && a < NPTE && b < NPTE && LowTable(s.mem, r, a, b) == p
         case User(r, x) =>
           && BytesPage(s, p) && IsTop(s, r) && IdxOk(x) && !Special(x)
           && Lookup(s.mem, r, x).v && Lookup(s.mem, r, x).ppn == p
  }

  /** Entry i of table p is zero, a pointer to a table below, or a mapping of a page that it owns. */
  ghost predicate EntryOk(s: Vm, p: nat, i: nat) {
    p in s.own && IsTable(s.own[p]) && i < NPTE && Entry(s.mem, p, i) != NO_PTE ==>
      var e := Entry(s.mem, p, i);
      && e.v
      && match s.own[p]
         case Top => e == Pointer(e.ppn) && e.ppn in s.own && s.own[e.ppn] == Mid(p, i)
         case Mid(r, a) => e == Pointer(e.ppn) && e.ppn in s.own && s.own[e.ppn] == Low(r, a, i)
         case Low(r, a, b) => Leaf(e) && (!Special(Idx(a, b, i)) ==> e.ppn in s.own && s.own[e.ppn] == User(r, Idx(a, b, i)))
         case _ => true
  }

  ghost predicate FreeOk(s: Vm) {
    && (forall p :: p in s.freelist <==> p in s.own && s.own[p] == Free)
    && (forall i, j :: 0 <= i < j < |s.freelist| ==> s.freelist[i] != s.freelist[j])
  }

  /** Every page has one use, and is where that use says. */
  ghost predicate Inv(s: Vm) {
    && 0 < s.lo <= |s.mem|
    && (forall p :: p in s.own <==> s.lo <= p < |s.mem|)
    && (forall p: nat {:trigger PageOk(s, p)} :: PageOk(s, p))
    && (forall p: nat, i: nat {:trigger EntryOk(s, p, i)} :: EntryOk(s, p, i))
    && FreeOk(s)
  }

  // ---------------------------------------------------------------- walking down

  /** The tables on the way to a page are owned by the tree, at their places. */
  lemma Down1(s: Vm, r: nat, a: nat)
    requires Inv(s) && IsTop(s, r) && a < NPTE
    ensures Child(s.mem, r, a) != 0 ==> Child(s.mem, r, a) in s.own && s.own[Child(s.mem, r, a)] == Mid(r, a)
    ensures Child(s.mem, r, a) == 0 <==> Entry(s.mem, r, a) == NO_PTE
  {
    assert PageOk(s, r) && EntryOk(s, r, a) && PageOk(s, 0);
  }

  lemma Down0(s: Vm, r: nat, a: nat, b: nat)
    requires Inv(s) && IsTop(s, r) && a < NPTE && b < NPTE
    ensures LowTable(s.mem, r, a, b) != 0 ==>
              && LowTable(s.mem, r, a, b) in s.own && s.own[LowTable(s.mem, r, a, b)] == Low(r, a, b) && Child(s.mem, r, a) != 0
    ensures Child(s.mem, r, a) != 0 ==>
              (LowTable(s.mem, r, a, b) == 0 <==> Entry(s.mem, Child(s.mem, r, a), b) == NO_PTE)
  {
    Down1(s, r, a);
    var t := Child(s.mem, r, a);
    if t != 0 {
      assert PageOk(s, t) && EntryOk(s, t, b) && PageOk(s, 0);
    }
  }

  /** A mapping in the flat map is that of a page the tree owns. */
  lemma Mapped(s: Vm, r: nat, x: Idx)
    requires Inv(s) && IsTop(s, r) && IdxOk(x) && Lookup(s.mem, r, x) != NO_PTE
    ensures Lookup(s.mem, r, x).v && Leaf(Lookup(s.mem, r, x))
    ensures !Special(x) ==> Lookup(s.mem, r, x).ppn in s.own && s.own[Lookup(s.mem, r, x).ppn] == User(r, x)
  {
    Down0(s, r, x.i2, x.i1);
    assert EntryOk(s, LowTable(s.mem, r, x.i2, x.i1), x.i0);
  }

  /** Distinct virtual pages below MAXVA, of one table or of two, never share a leaf slot. */
  lemma SlotsDistinct(s: Vm, r: nat, va: nat, r': nat, va': nat)
    requires Inv(s) && IsTop(s, r) && IsTop(s, r') && va < MAXVA && va' < MAXVA
    requires var x, y := Px(va), Px(va');
             LowTable(s.mem, r, x.i2, x.i1) == LowTable(s.mem, r', y.i2, y.i1) != 0 && x.i0 == y.i0
    ensures r == r' && va / PGSIZE == va' / PGSIZE
  {
    Down0(s, r, Px(va).i2, Px(va).i1);
    Down0(s, r', Px(va').i2, Px(va').i1);
    PxInjective(va, va');
  }

  /** No physical page is mapped at two user addresses. */
  lemma PagesDistinct(s: Vm, r: nat, x: Idx, r': nat, x': Idx)
    requires Inv(s) && IsTop(s, r) && IsTop(s, r') && IdxOk(x) && IdxOk(x') && !Special(x) && !Special(x')
    requires Lookup(s.mem, r, x) != NO_PTE && Lookup(s.mem, r', x') != NO_PTE
    requires Lookup(s.mem, r, x).ppn == Lookup(s.mem, r', x').ppn
    ensures r == r' && x == x'
  {
    Mapped(s, r, x);
    Mapped(s, r', x');
  }
}
