/** The free list of user/umalloc.c (section 8.7 of The C Programming Language, 2nd edition) as a list of blocks. */
module AllocSpec {
  /** A block: the address of its header, and its size in units, header included. */
  datatype Blk = Blk(addr: int, size: nat)

  /** Where the allocator's memory is: its own base header, then the break when it started and the break now. */
  datatype Area = Area(base: int, start: int, top: int)

  /** The address just past a block; sizeof(Header) is 16. */
  function End(b: Blk): int {
    b.addr + 16 * b.size
  }

  /** Two blocks do not overlap. */
  predicate Apart(a: Blk, b: Blk) {
    End(a) <= b.addr || End(b) <= a.addr
  }

  /** One block ends before the other, and does not touch it. */
  predicate Before(a: Blk, b: Blk) {
    End(a) < b.addr
  }

  /** A block of at least a unit, in the memory that sbrk granted. */
  predicate Inside(b: Blk, m: Area) {
    b.size >= 1 && m.start <= b.addr && End(b) <= m.top
  }

  /** The free list from base: in address order, with no two blocks overlapping or even touching. */
  ghost predicate ListOk(fl: seq<Blk>, m: Area) {
    && |fl| >= 1 && fl[0] == Blk(m.base, 0) && m.base < m.start
    && (forall i {:trigger fl[i]} :: 1 <= i < |fl| ==> Inside(fl[i], m))
    && (forall i, j {:trigger Before(fl[i], fl[j])} :: 1 <= i < j < |fl| ==> Before(fl[i], fl[j]))
  }

  /** Blocks in use: inside the heap, apart from each other and from every free block. */
  ghost predicate LiveOk(fl: seq<Blk>, live: set<Blk>, m: Area) {
    && (forall b {:trigger Inside(b, m)} :: b in live ==> Inside(b, m))
    && (forall b, c {:trigger Apart(b, c)} :: b in live && c in live && b != c ==> Apart(b, c))
    && (forall b, i {:trigger Apart(b, fl[i])} :: b in live && 1 <= i < |fl| ==> Apart(b, fl[i]))
  }

  ghost function FreeUnits(fl: seq<Blk>): nat {
    if fl == [] then 0 else FreeUnits(fl[..|fl| - 1]) + fl[|fl| - 1].size
  }

  ghost function LiveUnits(live: set<Blk>): nat {
    if live == {} then 0 else var b :| b in live; b.size + LiveUnits(live - {b})
  }

  lemma {:induction false} LiveUnitsOf(live: set<Blk>, c: Blk)
    requires c in live
    ensures LiveUnits(live) == c.size + LiveUnits(live - {c})
  {
    var b :| b in live && LiveUnits(live) == b.size + LiveUnits(live - {b});
    if b != c {
      LiveUnitsOf(live - {b}, c);
      LiveUnitsOf(live - {c}, b);
      assert live - {b} - {c} == live - {c} - {b};
    }
  }

  lemma {:induction false} FreeUnitsSplit(fl: seq<Blk>, i: nat)
    requires i <= |fl|
    ensures FreeUnits(fl) == FreeUnits(fl[..i]) + FreeUnits(fl[i..])
  {
    if i == |fl| {
      assert fl[..i] == fl && fl[i..] == [];
    } else {
      FreeUnitsSplit(fl[..|fl| - 1], i);
      assert fl[..|fl| - 1][..i] == fl[..i] && fl[i..][..|fl| - i - 1] == fl[..|fl| - 1][i..];
    }
  }

  lemma FreeUnitsOne(b: Blk)
    ensures FreeUnits([b]) == b.size
  {
    assert [b][..0] == [];
  }

  // ---------------------------------------------------------------- free

  /** Does b belong right after the block at i? */
  predicate Place(fl: seq<Blk>, i: nat, b: Blk) {
    i < |fl| && fl[i].addr < b.addr && (i + 1 < |fl| ==> b.addr < fl[i + 1].addr)
  }

  predicate JoinsUpper(fl: seq<Blk>, i: nat, b: Blk) {
    i + 1 < |fl| && End(b) == fl[i + 1].addr
  }

  predicate JoinsLower(fl: seq<Blk>, i: nat, b: Blk)
    requires i < |fl|
  {
    End(fl[i]) == b.addr
  }

  /** b with the neighbours that touch it. */
  function Joined(fl: seq<Blk>, i: nat, b: Blk): Blk
    requires i < |fl|
  {
    Blk(if JoinsLower(fl, i, b) then fl[i].addr else b.addr,
        (if JoinsLower(fl, i, b) then fl[i].size else 0) + b.size + if JoinsUpper(fl, i, b) then fl[i + 1].size else 0)
  }

  /** The free list once b is in it. */
  function Insert(fl: seq<Blk>, i: nat, b: Blk): seq<Blk>
    requires i < |fl|
  {
    fl[..if JoinsLower(fl, i, b) then i else i + 1] + [Joined(fl, i, b)] + fl[if JoinsUpper(fl, i, b) then i + 2 else i + 1..]
  }

  /** What is needed to free b: it overlaps no free block. */
  ghost predicate Freeable(fl: seq<Blk>, b: Blk, m: Area) {
    Inside(b, m) && forall i {:trigger Apart(b, fl[i])} :: 1 <= i < |fl| ==> Apart(b, fl[i])
  }

  /** Where the blocks of the new list come from. */
  lemma InsertShape(fl: seq<Blk>, i: nat, b: Blk)
    requires i < |fl|
    ensures var lo, up := if JoinsLower(fl, i, b) then i else i + 1, if JoinsUpper(fl, i, b) then i + 2 else i + 1;
            var g := Insert(fl, i, b);
            && |g| == lo + 1 + |fl| - up && g[lo] == Joined(fl, i, b)
            && (forall k :: 0 <= k < lo ==> g[k] == fl[k])
            && (forall k :: lo < k < |g| ==> g[k] == fl[k + (up - lo - 1)])
  {
  }

  /** The joined block lies between its new neighbours, and touches neither. */
  lemma JoinedBetween(fl: seq<Blk>, i: nat, b: Blk, m: Area, k: nat)
    requires ListOk(fl, m) && Place(fl, i, b) && Freeable(fl, b, m) && k < |fl|
    ensures i == 0 ==> !JoinsLower(fl, i, b)
    ensures var c := Joined(fl, i, b);
            && c.size >= b.size && m.start <= c.addr <= b.addr && End(b) <= End(c) <= m.top
            && (1 <= k && k < (if JoinsLower(fl, i, b) then i else i + 1) ==> End(fl[k]) < c.addr)
            && (k >= (if JoinsUpper(fl, i, b) then i + 2 else i + 1) ==> End(c) < fl[k].addr)
  {
    if i >= 1 { assert Apart(b, fl[i]); }
    if i + 1 < |fl| { assert Apart(b, fl[i + 1]); }
    if 1 <= k < i { assert Before(fl[k], fl[i]); }
    if k > i + 1 { assert Before(fl[i + 1], fl[k]); }
  }

  /** The order of two blocks of the new list. */
  lemma InsertOrder(fl: seq<Blk>, i: nat, b: Blk, m: Area, x: nat, y: nat)
    requires ListOk(fl, m) && Place(fl, i, b) && Freeable(fl, b, m)
    requires 1 <= x < y < |Insert(fl, i, b)|
    ensures Before(Insert(fl, i, b)[x], Insert(fl, i, b)[y])
  {
    var lo, up := if JoinsLower(fl, i, b) then i else i + 1, if JoinsUpper(fl, i, b) then i + 2 else i + 1;
    InsertShape(fl, i, b);
    if x == lo {
      JoinedBetween(fl, i, b, m, y + (up - lo - 1));
    } else if y == lo {
      JoinedBetween(fl, i, b, m, x);
    }
  }

  lemma InsertOk(fl: seq<Blk>, i: nat, b: Blk, m: Area)
    requires ListOk(fl, m) && Place(fl, i, b) && Freeable(fl, b, m)
    ensures ListOk(Insert(fl, i, b), m)
  {
    InsertShape(fl, i, b);
    JoinedBetween(fl, i, b, m, 0);
    var g := Insert(fl, i, b);
    forall x, y | 1 <= x < y < |g| ensures Before(g[x], g[y]) {
      InsertOrder(fl, i, b, m, x, y);
    }
  }

  lemma InsertUnits(fl: seq<Blk>, i: nat, b: Blk)
    requires i < |fl|
    ensures FreeUnits(Insert(fl, i, b)) == FreeUnits(fl) + b.size
  {
    var lo, up := if JoinsLower(fl, i, b) then i else i + 1, if JoinsUpper(fl, i, b) then i + 2 else i + 1;
    var c := Joined(fl, i, b);
    var g := fl[..lo] + [c] + fl[up..];
    FreeUnitsSplit(g, lo + 1);
    assert g[..lo + 1] == fl[..lo] + [c] && g[lo + 1..] == fl[up..] && (fl[..lo] + [c])[..lo] == fl[..lo];
    FreeUnitsSplit(fl, up);
    MiddleUnits(fl, lo, up);
  }

  /** The units of the blocks that a join takes up. */
  lemma MiddleUnits(fl: seq<Blk>, lo: nat, up: nat)
    requires lo <= up <= |fl| && up <= lo + 2
    ensures FreeUnits(fl[..up]) == FreeUnits(fl[..lo]) + (if lo < up then fl[lo].size else 0) + if lo + 1 < up then fl[lo + 1].size else 0
  {
    if lo < up { assert fl[..lo + 1][..lo] == fl[..lo]; }
    if lo + 1 < up { assert fl[..lo + 2][..lo + 1] == fl[..lo + 1]; }
  }

  /** Blocks in use stay apart from the free list when one of them is freed. */
  lemma InsertLive(fl: seq<Blk>, live: set<Blk>, i: nat, b: Blk, m: Area)
    requires ListOk(fl, m) && LiveOk(fl, live, m) && b in live && Place(fl, i, b)
    ensures LiveOk(Insert(fl, i, b), live - {b}, m) && Freeable(fl, b, m)
  {
    var g := Insert(fl, i, b);
    var lo := if JoinsLower(fl, i, b) then i else i + 1;
    InsertShape(fl, i, b);
    JoinedBetween(fl, i, b, m, 0);
    forall c, k | c in live - {b} && 1 <= k < |g| ensures Apart(c, g[k]) {
      assert Inside(c, m) && Apart(b, c);
      if k == lo { JoinedApart(fl, i, b, c); }
    }
  }

  /** A block apart from the parts of a joined block is apart from the whole. */
  lemma JoinedApart(fl: seq<Blk>, i: nat, b: Blk, c: Blk)
    requires i < |fl| && b.size >= 1 && c.size >= 1 && Apart(b, c) && (JoinsLower(fl, i, b) ==> Apart(c, fl[i]) && fl[i].size >= 1)
    requires JoinsUpper(fl, i, b) ==> Apart(c, fl[i + 1]) && fl[i + 1].size >= 1
    ensures Apart(c, Joined(fl, i, b))
  {
  }

  /** The list and the blocks in use are in order, and together hold every unit. */
  ghost predicate Sound(fl: seq<Blk>, live: set<Blk>, m: Area, units: nat) {
    ListOk(fl, m) && LiveOk(fl, live, m) && FreeUnits(fl) + LiveUnits(live) == units
  }

  /** Freeing a block in use keeps the allocator sound. */
  lemma InsertSound(fl: seq<Blk>, live: set<Blk>, i: nat, b: Blk, m: Area, units: nat)
    requires Sound(fl, live, m, units) && b in live && Place(fl, i, b)
    ensures Sound(Insert(fl, i, b), live - {b}, m, units)
  {
    InsertLive(fl, live, i, b, m);
    InsertOk(fl, i, b, m);
    InsertUnits(fl, i, b);
    LiveUnitsOf(live, b);
  }

  // ---------------------------------------------------------------- malloc

  /** Does the block at k hold n units? */
  predicate Fits(fl: seq<Blk>, k: nat, n: nat) {
    k < |fl| && fl[k].size >= n
  }

  /** The n units at the end of a block. */
  function Tail(b: Blk, n: nat): Blk
    requires n <= b.size
  {
    Blk(b.addr + 16 * (b.size - n), n)
  }

  /** The free list once n units of the block at k are taken. */
  function Take(fl: seq<Blk>, k: nat, n: nat): seq<Blk>
    requires Fits(fl, k, n)
  {
    if fl[k].size == n then fl[..k] + fl[k + 1..] else fl[k := Blk(fl[k].addr, fl[k].size - n)]
  }

  lemma TakeOk(fl: seq<Blk>, k: nat, n: nat, m: Area)
    requires ListOk(fl, m) && Fits(fl, k, n) && n >= 1
    ensures k >= 1 && ListOk(Take(fl, k, n), m)
  {
    var g := Take(fl, k, n);
    forall x, y | 1 <= x < y < |g| ensures Before(g[x], g[y]) {
      var i, j := if fl[k].size > n || x < k then x else x + 1, if fl[k].size > n || y < k then y else y + 1;
      assert End(g[x]) <= End(fl[i]) && g[y].addr == fl[j].addr && Before(fl[i], fl[j]);
    }
  }

  /** The taken block overlaps no block in use and no block left free. */
  lemma TakeLive(fl: seq<Blk>, live: set<Blk>, k: nat, n: nat, m: Area)
    requires ListOk(fl, m) && LiveOk(fl, live, m) && Fits(fl, k, n) && n >= 1
    ensures Tail(fl[k], n) !in live && LiveOk(Take(fl, k, n), live + {Tail(fl[k], n)}, m)
  {
    var g, t := Take(fl, k, n), Tail(fl[k], n);
    forall c | c in live ensures Apart(c, t) && c != t {
      assert Apart(c, fl[k]);
    }
    forall c, i | c in live + {t} && 1 <= i < |g| ensures Apart(c, g[i]) {
      var j := if fl[k].size == n && i >= k then i + 1 else i;
      assert g[i].addr == fl[j].addr && End(g[i]) <= End(fl[j]);
      if c != t {
        assert Apart(c, fl[j]);
      } else if j < k {
        assert Before(fl[j], fl[k]);
      } else if j > k {
        assert Before(fl[k], fl[j]);
      }
    }
  }

  lemma TakeUnits(fl: seq<Blk>, k: nat, n: nat)
    requires Fits(fl, k, n)
    ensures FreeUnits(Take(fl, k, n)) + n == FreeUnits(fl)
  {
    var g := Take(fl, k, n);
    FreeUnitsSplit(fl, k + 1);
    assert fl[..k + 1][..k] == fl[..k];
    if fl[k].size == n {
      FreeUnitsSplit(g, k);
      assert g[..k] == fl[..k] && g[k..] == fl[k + 1..];
    } else {
      FreeUnitsSplit(g, k + 1);
      assert g[..k + 1][..k] == fl[..k] && g[k + 1..] == fl[k + 1..];
    }
  }

  /** Taking a block keeps the allocator sound. */
  lemma TakeSound(fl: seq<Blk>, live: set<Blk>, k: nat, n: nat, m: Area, units: nat)
    requires Sound(fl, live, m, units) && Fits(fl, k, n) && n >= 1
    ensures Sound(Take(fl, k, n), live + {Tail(fl[k], n)}, m, units)
  {
    var t := Tail(fl[k], n);
    TakeLive(fl, live, k, n, m);
    TakeOk(fl, k, n, m);
    TakeUnits(fl, k, n);
    LiveUnitsOf(live + {t}, t);
    assert live + {t} - {t} == live;
  }

  /** Memory new from sbrk counts as a block in use until it is freed. */
  lemma GrownSound(fl: seq<Blk>, live: set<Blk>, b: Blk, m: Area, units: nat)
    requires Sound(fl, live, m, units) && b.size >= 1 && m.start <= m.top <= b.addr
    ensures b !in live && Sound(fl, live + {b}, m.(top := End(b)), units + b.size)
  {
    var m2 := m.(top := End(b));
    forall c | c in live ensures Inside(c, m2) && Apart(b, c) && Apart(c, b) && c != b {
      assert Inside(c, m);
    }
    assert live + {b} - {b} == live;
    LiveUnitsOf(live + {b}, b);
  }

  // ---------------------------------------------------------------- everything freed

  /** The first k blocks leave a gap between each two of them. */
  lemma {:induction false} Gaps(fl: seq<Blk>, m: Area, k: nat)
    requires ListOk(fl, m) && 2 <= k <= |fl|
    ensures fl[1].addr + 16 * FreeUnits(fl[..k]) + (k - 2) <= End(fl[k - 1])
  {
    assert fl[..k][..k - 1] == fl[..k - 1];
    if k == 2 {
      assert fl[..1] == [fl[0]];
      FreeUnitsOne(fl[0]);
    } else {
      Gaps(fl, m, k - 1);
      assert Before(fl[k - 2], fl[k - 1]);
    }
  }

  /** When the free list accounts for the whole area, it is one block: free has joined everything. */
  lemma OneBlock(fl: seq<Blk>, m: Area)
    requires ListOk(fl, m) && 16 * FreeUnits(fl) == m.top - m.start > 0
    ensures fl == [Blk(m.base, 0), Blk(m.start, FreeUnits(fl))]
  {
    assert fl[..|fl|] == fl && fl[..1] == [fl[0]];
    FreeUnitsOne(fl[0]);
    if |fl| > 1 {
      Gaps(fl, m, |fl|);
    }
  }
}
