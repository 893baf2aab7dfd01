/** The allocator of user/umalloc.c: headers in memory, linked in a circle through the free blocks. */
module Umalloc {
  import opened AllocSpec

  const SBRK_ERROR: int := -1
  const INT_MAX: nat := 0x7fff_ffff
  const UINT_LIMIT: nat := 0x1_0000_0000
  const MAXREQUEST: nat := 0x7fff_ffe0   // the most that malloc can ask sbrk for on top of its blocks

  /** What malloc comes to: a block, a null pointer, or a call of sbrk whose argument did not fit its int. */
  datatype Outcome = Got(ap: int) | Null | Truncated

  function Units(nbytes: nat): nat {
    (nbytes + 15) / 16 + 1
  }

  /** Did sbrk grant what morecore asked for? */
  predicate Granted(n: nat, brk: int) {
    brk != SBRK_ERROR && ToInt(16 * Core(n)) == 16 * Core(n)
  }

  function Core(nu: nat): nat {
    if nu < 4096 then 4096 else nu
  }

  /** The 32-bit int that an unsigned long becomes. */
  function ToInt(n: nat): int {
    var r := n % UINT_LIMIT; if r > INT_MAX then r - UINT_LIMIT else r
  }

  /** sbrk is asked for the size that morecore goes on to use exactly up to MAXREQUEST bytes. */
  lemma RequestIff(nbytes: nat)
    requires nbytes < UINT_LIMIT
    ensures ToInt(16 * Core(Units(nbytes))) == 16 * Core(Units(nbytes)) <==> nbytes <= MAXREQUEST
  {
  }

  /** A request for nearly all of memory asks sbrk for one header. */
  lemma RequestTruncated()
    ensures ToInt(16 * Core(Units(UINT_LIMIT - 1))) == 16
  {
  }

  /** The block after the one at i. */
  function Next(fl: seq<Blk>, i: nat): nat {
    if i + 1 < |fl| then i + 1 else 0
  }

  /** The header of the block at i. */
  ghost predicate HeaderAt(ptr: map<int, int>, size: map<int, nat>, fl: seq<Blk>, i: nat) {
    && i < |fl| && fl[i].addr in ptr && fl[i].addr in size
    && size[fl[i].addr] == fl[i].size && ptr[fl[i].addr] == fl[Next(fl, i)].addr
  }

  /** The header of a block in use. */
  ghost predicate SizeAt(size: map<int, nat>, b: Blk) {
    b.addr in size && size[b.addr] == b.size
  }

  /** The headers in memory say what the free list and the blocks in use are. */
  ghost predicate Headers(ptr: map<int, int>, size: map<int, nat>, fl: seq<Blk>, live: set<Blk>) {
    && (forall i {:trigger HeaderAt(ptr, size, fl, i)} :: 0 <= i < |fl| ==> HeaderAt(ptr, size, fl, i))
    && (forall b {:trigger SizeAt(size, b)} :: b in live ==> SizeAt(size, b))
  }

  /** Somewhere on the list there is a place for a block. */
  lemma {:induction false} PlaceExists(fl: seq<Blk>, b: Blk, m: Area, n: nat) returns (i: nat)
    requires ListOk(fl, m) && Freeable(fl, b, m) && 1 <= n <= |fl| && (n < |fl| ==> b.addr < fl[n].addr)
    ensures i < n && Place(fl, i, b)
  {
    i := n - 1;
    if i >= 1 {
      assert Apart(b, fl[i]);
      if b.addr < fl[i].addr {
        i := PlaceExists(fl, b, m, n - 1);
      }
    }
  }

  /** The addresses of a free list increase. */
  lemma Increasing(fl: seq<Blk>, m: Area, i: nat, j: nat)
    requires ListOk(fl, m) && i < j < |fl|
    ensures fl[i].addr < fl[j].addr
  {
    if i > 0 { assert Before(fl[i], fl[j]); }
  }

  /** The two tests of free's loop find the block's place. */
  lemma PlaceIff(fl: seq<Blk>, b: Blk, m: Area, i: nat)
    requires ListOk(fl, m) && Freeable(fl, b, m) && i < |fl|
    ensures var p, q := fl[i].addr, fl[Next(fl, i)].addr;
            Place(fl, i, b) <==> (b.addr > p && b.addr < q) || (p >= q && (b.addr > p || b.addr < q))
  {
    if 0 < i < |fl| - 1 { assert Before(fl[i], fl[i + 1]); }
  }

  /** The block at i and the one after it are distinct from b, and from each other unless they are the same. */
  predicate Around(fl: seq<Blk>, i: nat, b: Blk) {
    && i < |fl| && fl[0].addr < b.addr && fl[i].addr < b.addr && b.addr != fl[Next(fl, i)].addr
    && (Next(fl, i) != i ==> fl[Next(fl, i)].addr != fl[i].addr)
  }

  lemma PlaceAround(fl: seq<Blk>, b: Blk, m: Area, i: nat)
    requires ListOk(fl, m) && Freeable(fl, b, m) && Place(fl, i, b)
    ensures Around(fl, i, b)
  {
  }

  /** What free leaves in memory: the joined block, the header below it, and every other header as it was. */
  ghost predicate Relinked(ptr: map<int, int>, size: map<int, nat>, p2: map<int, int>, s2: map<int, nat>, fl: seq<Blk>, i: nat, b: Blk)
    requires i < |fl|
  {
    var c, up := Joined(fl, i, b), if JoinsUpper(fl, i, b) then i + 2 else i + 1;
    && c.addr in p2 && c.addr in s2 && s2[c.addr] == c.size && p2[c.addr] == fl[if up < |fl| then up else 0].addr
    && (!JoinsLower(fl, i, b) ==> fl[i].addr in p2 && fl[i].addr in s2 && s2[fl[i].addr] == fl[i].size && p2[fl[i].addr] == b.addr)
    && (forall a :: a in ptr && a != fl[i].addr && a != b.addr ==> a in p2 && p2[a] == ptr[a])
    && (forall a :: a in size && a != fl[i].addr && a != b.addr ==> a in s2 && s2[a] == size[a])
  }

  /** A header below the place, which free did not write. */
  lemma RelinkedBelow(ptr: map<int, int>, size: map<int, nat>, p2: map<int, int>, s2: map<int, nat>, fl: seq<Blk>, i: nat, b: Blk, j: nat)
    requires j < i < |fl| && fl[j].addr < fl[i].addr < b.addr && HeaderAt(ptr, size, fl, j) && Relinked(ptr, size, p2, s2, fl, i, b)
    ensures HeaderAt(p2, s2, Insert(fl, i, b), j)
  {
    InsertShape(fl, i, b);
    var g := Insert(fl, i, b);
    assert g[j] == fl[j] && g[j + 1].addr == fl[j + 1].addr;
  }

  /** A header above the place, which free did not write. */
  lemma RelinkedAbove(ptr: map<int, int>, size: map<int, nat>, p2: map<int, int>, s2: map<int, nat>, fl: seq<Blk>, i: nat, b: Blk, k: nat)
    requires i < |fl|
    requires var lo, up := if JoinsLower(fl, i, b) then i else i + 1, if JoinsUpper(fl, i, b) then i + 2 else i + 1;
             var j := k + up - lo - 1;
             lo < k && j < |fl| && fl[i].addr < b.addr < fl[j].addr && HeaderAt(ptr, size, fl, j)
    requires Relinked(ptr, size, p2, s2, fl, i, b) && (JoinsLower(fl, i, b) ==> i > 0)
    ensures HeaderAt(p2, s2, Insert(fl, i, b), k)
  {
    var lo, up := if JoinsLower(fl, i, b) then i else i + 1, if JoinsUpper(fl, i, b) then i + 2 else i + 1;
    InsertShape(fl, i, b);
    var j, g := k + up - lo - 1, Insert(fl, i, b);
    assert g[k] == fl[j] && g[Next(g, k)] == fl[Next(fl, j)];
  }

  /** The headers that free wrote. */
  lemma RelinkedHere(ptr: map<int, int>, size: map<int, nat>, p2: map<int, int>, s2: map<int, nat>, fl: seq<Blk>, i: nat, b: Blk, k: nat)
    requires i < |fl| && Relinked(ptr, size, p2, s2, fl, i, b) && (JoinsLower(fl, i, b) ==> i > 0)
    requires i <= k <= if JoinsLower(fl, i, b) then i else i + 1
    ensures HeaderAt(p2, s2, Insert(fl, i, b), k)
  {
    InsertShape(fl, i, b);
  }

  lemma RelinkedAt(ptr: map<int, int>, size: map<int, nat>, p2: map<int, int>, s2: map<int, nat>, fl: seq<Blk>, i: nat, b: Blk, m: Area, k: nat)
    requires ListOk(fl, m) && Place(fl, i, b) && Freeable(fl, b, m) && Relinked(ptr, size, p2, s2, fl, i, b)
    requires forall j {:trigger HeaderAt(ptr, size, fl, j)} :: 0 <= j < |fl| ==> HeaderAt(ptr, size, fl, j)
    requires k < |Insert(fl, i, b)|
    ensures HeaderAt(p2, s2, Insert(fl, i, b), k)
  {
    var lo, up := if JoinsLower(fl, i, b) then i else i + 1, if JoinsUpper(fl, i, b) then i + 2 else i + 1;
    InsertShape(fl, i, b);
    JoinedBetween(fl, i, b, m, 0);
    if k < i {
      assert HeaderAt(ptr, size, fl, k);
      Increasing(fl, m, k, i);
      RelinkedBelow(ptr, size, p2, s2, fl, i, b, k);
    } else if k > lo {
      var j := k + up - lo - 1;
      assert HeaderAt(ptr, size, fl, j) && j > i;
      if i + 1 < j { Increasing(fl, m, i + 1, j); }
      RelinkedAbove(ptr, size, p2, s2, fl, i, b, k);
    } else {
      RelinkedHere(ptr, size, p2, s2, fl, i, b, k);
    }
  }

  /** Freeing leaves the sizes of the other blocks in use alone. */
  lemma RelinkedLive(ptr: map<int, int>, size: map<int, nat>, p2: map<int, int>, s2: map<int, nat>, fl: seq<Blk>, live: set<Blk>, i: nat, b: Blk, m: Area, units: nat)
    requires Sound(fl, live, m, units) && b in live && Place(fl, i, b) && Relinked(ptr, size, p2, s2, fl, i, b)
    requires Headers(ptr, size, fl, live)
    ensures Headers(p2, s2, Insert(fl, i, b), live - {b})
  {
    forall c | c in live - {b} ensures SizeAt(s2, c) {
      assert SizeAt(size, c) && Inside(c, m) && Inside(b, m) && Apart(b, c) && (i > 0 ==> Apart(c, fl[i]));
    }
    forall k: nat | k < |Insert(fl, i, b)| ensures HeaderAt(p2, s2, Insert(fl, i, b), k) {
      RelinkedAt(ptr, size, p2, s2, fl, i, b, m, k);
    }
  }

  lemma LiveFreeable(fl: seq<Blk>, live: set<Blk>, m: Area, units: nat, b: Blk)
    requires Sound(fl, live, m, units) && b in live
    ensures ListOk(fl, m) && Freeable(fl, b, m)
  {
  }

  /** At its place, a block in use can be freed: the block below keeps its address and its position. */
  lemma Placed(fl: seq<Blk>, live: set<Blk>, m: Area, units: nat, b: Blk, i: nat)
    requires Sound(fl, live, m, units) && b in live && Place(fl, i, b)
    ensures Around(fl, i, b) && Sound(Insert(fl, i, b), live - {b}, m, units)
    ensures i < |Insert(fl, i, b)| && Insert(fl, i, b)[i].addr == fl[i].addr >= m.base
  {
    LiveFreeable(fl, live, m, units, b);
    PlaceAround(fl, b, m, i);
    InsertShape(fl, i, b);
    InsertSound(fl, live, i, b, m, units);
  }

  /** A header written past the break changes no other. */
  lemma HeadersGrow(ptr: map<int, int>, size: map<int, nat>, fl: seq<Blk>, live: set<Blk>, m: Area, units: nat, b: Blk)
    requires Sound(fl, live, m, units) && Headers(ptr, size, fl, live) && m.start <= m.top <= b.addr
    ensures Headers(ptr, size[b.addr := b.size], fl, live + {b})
  {
    var s2 := size[b.addr := b.size];
    forall c | c in live ensures SizeAt(s2, c) {
      assert SizeAt(size, c) && Inside(c, m);
    }
    forall k: nat | k < |fl| ensures HeaderAt(ptr, s2, fl, k) {
      assert HeaderAt(ptr, size, fl, k);
    }
  }

  /** Once b is in, some block is at least as large. */
  lemma InsertFits(fl: seq<Blk>, i: nat, b: Blk) returns (k: nat)
    requires i < |fl|
    ensures Fits(Insert(fl, i, b), k, b.size)
  {
    InsertShape(fl, i, b);
    k := if JoinsLower(fl, i, b) then i else i + 1;
  }

  /** Unlinking the block after the one at q. */
  lemma UnlinkedHeaders(ptr: map<int, int>, size: map<int, nat>, fl: seq<Blk>, live: set<Blk>, m: Area, q: nat, n: nat)
    requires ListOk(fl, m) && Headers(ptr, size, fl, live) && q + 1 < |fl| && fl[q + 1].size == n
    ensures fl[q].addr in ptr && fl[q + 1].addr in ptr
    ensures Headers(ptr[fl[q].addr := ptr[fl[q + 1].addr]], size, Take(fl, q + 1, n), live + {fl[q + 1]})
  {
    assert HeaderAt(ptr, size, fl, q) && HeaderAt(ptr, size, fl, q + 1);
    var p2, g := ptr[fl[q].addr := ptr[fl[q + 1].addr]], Take(fl, q + 1, n);
    forall k: nat | k < |g| ensures HeaderAt(p2, size, g, k) {
      var j := if k <= q then k else k + 1;
      assert g[k] == fl[j] && HeaderAt(ptr, size, fl, j);
      if k < q { Increasing(fl, m, k, q); } else if q < k { Increasing(fl, m, q, j); }
    }
  }

  /** Cutting n units off the end of the block at k. */
  lemma SplitHeaders(ptr: map<int, int>, size: map<int, nat>, fl: seq<Blk>, live: set<Blk>, m: Area, units: nat, k: nat, n: nat)
    requires Sound(fl, live, m, units) && Headers(ptr, size, fl, live) && 1 <= k < |fl| && fl[k].size > n >= 1
    ensures var t := Tail(fl[k], n);
            Headers(ptr, size[fl[k].addr := fl[k].size - n][t.addr := n], Take(fl, k, n), live + {t})
  {
    var t, g := Tail(fl[k], n), Take(fl, k, n);
    var s2 := size[fl[k].addr := fl[k].size - n][t.addr := n];
    forall c | c in live ensures SizeAt(s2, c) {
      assert SizeAt(size, c) && Inside(c, m);
      assert Apart(c, fl[k]);
    }
    forall j: nat | j < |g| ensures HeaderAt(ptr, s2, g, j) {
      assert HeaderAt(ptr, size, fl, j) && g[Next(fl, j)].addr == fl[Next(fl, j)].addr;
      if j < k { Increasing(fl, m, j, k); } else if k < j { assert Before(fl[k], fl[j]); }
    }
  }

  /** Blocks passed on the way round from the one after f to the one before i. */
  predicate Passed(f: nat, i: nat, k: nat) {
    if i > f then f < k < i else k > f || k < i
  }

  /** No block passed so far has n units. */
  ghost predicate AllSmall(fl: seq<Blk>, f: nat, i: nat, n: nat) {
    forall k {:trigger fl[k]} :: 0 <= k < |fl| && Passed(f, i, k) ==> fl[k].size < n
  }

  ghost predicate NoneFits(fl: seq<Blk>, n: nat) {
    forall k {:trigger fl[k]} :: 0 <= k < |fl| ==> fl[k].size < n
  }

  /** Is the block at k the first from freep on with n units? */
  ghost predicate NextFit(fl: seq<Blk>, freep: int, k: nat, n: nat) {
    Fits(fl, k, n) && exists f :: 0 <= f < |fl| && fl[f].addr == freep && AllSmall(fl, f, k, n)
  }

  /** How many steps from the block at i to the block at f. */
  function Steps(fl: seq<Blk>, i: nat, f: nat): nat
    requires i < |fl| && f < |fl|
  {
    if i <= f then f - i else f - i + |fl|
  }

  /** The search starts with nothing passed, passes one block at a time, and is over when it is back at f. */
  lemma Passing(fl: seq<Blk>, f: nat, q: nat, n: nat)
    requires f < |fl| && q < |fl|
    ensures AllSmall(fl, f, Next(fl, f), n)
    ensures AllSmall(fl, f, q, n) && fl[q].size < n && q != f ==> AllSmall(fl, f, Next(fl, q), n) && Steps(fl, Next(fl, q), f) < Steps(fl, q, f)
    ensures AllSmall(fl, f, f, n) && fl[f].size < n ==> NoneFits(fl, n)
  {
  }

  class Heap {
    var ptr: map<int, int>
    var size: map<int, nat>
    var freep: int
    const base: int
    ghost var fl: seq<Blk>
    ghost var live: set<Blk>
    ghost var area: Area
    ghost var units: nat               // what sbrk has granted

    /** Before the first call, freep is null. */
    ghost predicate Valid()
      reads this
    {
      && 0 < base == area.base && Sound(fl, live, area, units) && area.start <= area.top
      && if freep == 0 then fl == [Blk(base, 0)] && live == {} else Headers(ptr, size, fl, live) && (exists f :: FreepAt(f))
    }

    ghost predicate FreepAt(f: nat)
      reads this
    {
      f < |fl| && fl[f].addr == freep
    }

    constructor (base: int, start: int)
      requires 0 < base < start
      ensures Valid() && freep == 0 && live == {} && units == 0 && area == Area(base, start, start)
    {
      this.base, ptr, size, freep := base, map[], map[], 0;
      fl, live, area, units := [Blk(base, 0)], {}, Area(base, start, start), 0;
      new;
      FreeUnitsOne(fl[0]);
    }

    /** Where on the list a block belongs: the loop of free, from freep round the circle. */
    method Search(bp: int, ghost b: Blk, ghost f: nat) returns (p: int, ghost i: nat)
      requires ListOk(fl, area) && Freeable(fl, b, area) && b.addr == bp && FreepAt(f)
      requires forall k {:trigger HeaderAt(ptr, size, fl, k)} :: 0 <= k < |fl| ==> HeaderAt(ptr, size, fl, k)
      ensures Place(fl, i, b) && p == fl[i].addr
    {
      p, i := freep, f;
      ghost var goal := PlaceExists(fl, b, area, |fl|);
      assert HeaderAt(ptr, size, fl, i);
      while !(bp > p && bp < ptr[p])
        invariant i < |fl| && p == fl[i].addr && HeaderAt(ptr, size, fl, i)
        decreases if i <= goal then goal - i else goal - i + |fl|
      {
        if p >= ptr[p] && (bp > p || bp < ptr[p]) {
          break;
        }
        PlaceIff(fl, b, area, i);
        i := Next(fl, i);
        assert HeaderAt(ptr, size, fl, i);
        p := ptr[p];
      }
      PlaceIff(fl, b, area, i);
    }

    /** The links and sizes once bp stands after p: the second half of free. */
    method Relink(bp: int, p: int, ghost b: Blk, ghost i: nat)
      requires HeaderAt(ptr, size, fl, i) && HeaderAt(ptr, size, fl, Next(fl, i)) && p == fl[i].addr
      requires b.addr == bp && bp in size && size[bp] == b.size && Around(fl, i, b)
      modifies this`ptr, this`size, this`freep
      ensures Relinked(old(ptr), old(size), ptr, size, fl, i, b) && freep == p
    {
      var q := ptr[p];
      if bp + 16 * size[bp] == q {
        size := size[bp := size[bp] + size[q]];
        ptr := ptr[bp := ptr[q]];
      } else {
        ptr := ptr[bp := q];
      }
      if p + 16 * size[p] == bp {
        size := size[p := size[p] + size[bp]];
        ptr := ptr[p := ptr[bp]];
      } else {
        ptr := ptr[p := bp];
      }
      freep := p;
    }

    /** The block goes in after the block at i. */
    method PutBack(bp: int, p: int, ghost b: Blk, ghost i: nat)
      requires Valid() && freep != 0 && b in live && b.addr == bp && Place(fl, i, b) && p == fl[i].addr
      modifies this
      ensures Valid() && freep != 0 && live == old(live) - {b} && area == old(area) && units == old(units)
      ensures fl == Insert(old(fl), i, b) && FreepAt(i)
    {
      ghost var g, rest := Insert(fl, i, b), live - {b};
      Placed(fl, live, area, units, b, i);
      assert SizeAt(size, b);
      Relink(bp, p, b, i);
      assert Headers(ptr, size, g, rest) by {
        RelinkedLive(old(ptr), old(size), ptr, size, fl, live, i, b, area, units);
      }
      fl, live := g, rest;
      assert FreepAt(i);
    }

    /** Freeing a block: it joins the free list in place and merges with whatever touches it. */
    method Free(ap: int, ghost b: Blk) returns (ghost i: nat)
      requires Valid() && freep != 0 && b in live && ap == b.addr + 16
      modifies this
      ensures Valid() && freep != 0 && live == old(live) - {b} && area == old(area) && units == old(units)
      ensures Place(old(fl), i, b) && fl == Insert(old(fl), i, b) && FreepAt(i)
    {
      ghost var f :| FreepAt(f);
      LiveFreeable(fl, live, area, units, b);
      var p;
      p, i := Search(ap - 16, b, f);
      PutBack(ap - 16, p, b, i);
    }

    /** Is brk an answer of sbrk: an error, or memory past all that was granted before? */
    ghost predicate Answer(brk: int)
      reads this
    {
      brk == SBRK_ERROR || brk >= area.top
    }

    /** Memory at brk becomes a block in use. */
    method Grant(brk: int, n: nat)
      requires Valid() && freep != 0 && brk >= area.top && n >= 1
      modifies this`size, this`live, this`area, this`units
      ensures Valid() && Blk(brk, n) !in old(live) && live == old(live) + {Blk(brk, n)}
      ensures area == old(area).(top := brk + 16 * n) && units == old(units) + n
    {
      ghost var f :| FreepAt(f);
      ghost var b := Blk(brk, n);
      GrownSound(fl, live, b, area, units);
      HeadersGrow(ptr, size, fl, live, area, units, b);
      size := size[brk := n];
      live, area, units := live + {b}, area.(top := End(b)), units + n;
      assert FreepAt(f);
    }

    /** morecore: a null pointer when sbrk fails; else the new memory is on the free list. */
    method Morecore(nu: nat, brk: int) returns (p: int, truncated: bool)
      requires Valid() && freep != 0 && nu >= 1 && Answer(brk)
      modifies this
      ensures Valid() && freep != 0 && live == old(live)
      ensures truncated <==> brk != SBRK_ERROR && ToInt(16 * Core(nu)) != 16 * Core(nu)
      ensures p == 0 <==> brk == SBRK_ERROR || truncated
      ensures p == 0 ==> fl == old(fl) && freep == old(freep) && area == old(area) && units == old(units)
      ensures p != 0 ==> p == freep && area == old(area).(top := brk + 16 * Core(nu)) && units == old(units) + Core(nu)
      ensures p != 0 ==> !NoneFits(fl, nu)
    {
      p, truncated := 0, false;
      if brk != SBRK_ERROR {
        if ToInt(16 * Core(nu)) != 16 * Core(nu) {
          truncated := true;
        } else {
          Grant(brk, Core(nu));
          ghost var i := Free(brk + 16, Blk(brk, Core(nu)));
          assert live == old(live);
          ghost var k := InsertFits(old(fl), i, Blk(brk, Core(nu)));
          assert Fits(fl, k, nu);
          p := freep;
        }
      }
    }

    /** Is malloc's search at p, the block after prevp, with all the blocks passed since freep too small? */
    ghost predicate Scanning(prevp: int, p: int, f: nat, q: nat, n: nat)
      reads this
    {
      && Valid() && freep != 0 && FreepAt(f) && q < |fl| && prevp == fl[q].addr && p == fl[Next(fl, q)].addr
      && AllSmall(fl, f, Next(fl, q), n)
    }

    /** One turn of malloc's loop at a block that is too small and is not freep. */
    method Advance(prevp: int, p: int, n: nat, ghost f: nat, ghost q: nat) returns (next: int, ghost i: nat)
      requires Scanning(prevp, p, f, q, n) && fl[Next(fl, q)].size < n && p != freep
      ensures i == Next(fl, q) && Scanning(p, next, f, i, n) && Steps(fl, Next(fl, i), f) < Steps(fl, i, f)
    {
      i := Next(fl, q);
      assert HeaderAt(ptr, size, fl, i);
      Passing(fl, f, i, n);
      next := ptr[p];
    }

    /** The start of a search, from freep. */
    method Start(n: nat) returns (p: int, ghost f: nat)
      requires Valid() && freep != 0
      ensures Scanning(freep, p, f, f, n)
    {
      f :| FreepAt(f);
      assert HeaderAt(ptr, size, fl, f);
      Passing(fl, f, f, n);
      p := ptr[freep];
    }

    /** Back at freep with every block too small. */
    lemma Exhausted(prevp: int, p: int, f: nat, q: nat, n: nat)
      requires Scanning(prevp, p, f, q, n) && fl[Next(fl, q)].size < n && p == freep
      ensures NoneFits(fl, n)
    {
      var i := Next(fl, q);
      if i < f {
        Increasing(fl, area, i, f);
      } else if f < i {
        Increasing(fl, area, f, i);
      }
      Passing(fl, f, f, n);
    }

    /** The headers once n units of the block p after prevp are taken: the whole of it, or its tail. */
    method Cut(prevp: int, p: int, n: nat, ghost q: nat) returns (ap: int)
      requires Sound(fl, live, area, units) && Headers(ptr, size, fl, live) && q + 1 < |fl| && prevp == fl[q].addr && p == fl[q + 1].addr
      requires p in size && p in ptr && size[p] == fl[q + 1].size >= n >= 1
      modifies this`ptr, this`size
      ensures Headers(ptr, size, Take(fl, q + 1, n), live + {Tail(fl[q + 1], n)}) && ap == Tail(fl[q + 1], n).addr + 16
    {
      if size[p] == n {
        assert Tail(fl[q + 1], n) == fl[q + 1];
        UnlinkedHeaders(ptr, size, fl, live, area, q, n);
        ptr := ptr[prevp := ptr[p]];
        ap := p + 16;
      } else {
        SplitHeaders(ptr, size, fl, live, area, units, q + 1, n);
        var t := p + 16 * (size[p] - n);
        size := size[p := size[p] - n];
        size := size[t := n];
        ap := t + 16;
      }
    }

    /** Taking n units from the block after the one at q. */
    method TakeNext(prevp: int, p: int, n: nat, ghost q: nat) returns (ap: int)
      requires Valid() && freep != 0 && q + 1 < |fl| && prevp == fl[q].addr && p == fl[q + 1].addr && fl[q + 1].size >= n >= 1
      modifies this
      ensures Valid() && freep != 0 && area == old(area) && units == old(units)
      ensures fl == Take(old(fl), q + 1, n) && live == old(live) + {Tail(old(fl)[q + 1], n)} && ap == Tail(old(fl)[q + 1], n).addr + 16
    {
      assert HeaderAt(ptr, size, fl, q + 1);
      ghost var g, now := Take(fl, q + 1, n), live + {Tail(fl[q + 1], n)};
      TakeSound(fl, live, q + 1, n, area, units);
      ap := Cut(prevp, p, n, q);
      assert q < |g| && g[q] == fl[q];
      fl, live, freep := g, now, prevp;
      assert FreepAt(q);
    }

    /** What changes while malloc looks for n units: nothing, or the memory that sbrk granted. */
    twostate predicate Grown(n: nat, brk: int, grown: bool)
      reads this
    {
      && live == old(live)
      && (!grown ==> fl == old(fl) && freep == old(freep) && area == old(area) && units == old(units))
      && (grown ==> NoneFits(old(fl), n) && Granted(n, brk) && !NoneFits(fl, n)
                    && area == old(area).(top := brk + 16 * Core(n)) && units == old(units) + Core(n))
    }

    /** The first block from freep on with n units, after at most one call of sbrk. */
    method Find(n: nat, brk: int) returns (ok: bool, truncated: bool, prevp: int, p: int, ghost f: nat, ghost q: nat, ghost grown: bool)
      requires Valid() && freep != 0 && n >= 1 && Answer(brk)
      modifies this
      ensures Valid() && freep != 0 && Grown(n, brk, grown)
      ensures ok ==> Scanning(prevp, p, f, q, n) && Fits(fl, Next(fl, q), n)
      ensures !ok ==> NoneFits(fl, n) && !grown && (truncated <==> brk != SBRK_ERROR) && !Granted(n, brk)
    {
      ok, truncated, grown, prevp := false, false, false, freep;
      p, f := Start(n);
      q := f;
      while true
        invariant Scanning(prevp, p, f, q, n) && Grown(n, brk, grown) && !truncated && (!grown ==> Answer(brk))
        decreases !grown, Steps(fl, Next(fl, q), f)
      {
        assert HeaderAt(ptr, size, fl, Next(fl, q));
        if size[p] >= n {
          ok := true;
          return;
        }
        if p == freep {
          Exhausted(prevp, p, f, q, n);
          prevp, truncated := Morecore(n, brk);
          if prevp == 0 {
            return;
          }
          grown := true;
          p, f := Start(n);
          q := f;
        } else {
          var next;
          next, q := Advance(prevp, p, n, f, q);
          prevp, p := p, next;
        }
      }
    }

    /** The first call makes the circle of the base header alone. */
    method Initialise()
      requires Valid()
      modifies this`ptr, this`size, this`freep
      ensures Valid() && freep != 0 && (old(freep) != 0 ==> freep == old(freep))
    {
      if freep == 0 {
        freep := base;
        ptr := ptr[base := base];
        size := size[base := 0];
        assert HeaderAt(ptr, size, fl, 0) && FreepAt(0);
      }
    }

    /** malloc gives n units that overlap no other block, the first that fit from freep on; it asks sbrk for more only when
        no free block fits, and fails only when sbrk then fails. */
    method Malloc(nbytes: nat, brk: int) returns (r: Outcome, ghost t: Blk, ghost k: nat)
      requires Valid() && nbytes < UINT_LIMIT && Answer(brk)
      modifies this
      ensures Valid() && freep != 0
      ensures r.Null? <==> NoneFits(old(fl), Units(nbytes)) && brk == SBRK_ERROR
      ensures r.Truncated? <==> NoneFits(old(fl), Units(nbytes)) && brk != SBRK_ERROR && nbytes > MAXREQUEST
      ensures !r.Got? ==> fl == old(fl) && live == old(live) && area == old(area) && units == old(units)
      ensures r.Got? ==> live == old(live) + {t} && t !in old(live) && t.size == Units(nbytes) && r.ap == t.addr + 16 && r.ap + nbytes <= End(t)
      ensures r.Got? && !NoneFits(old(fl), Units(nbytes)) ==>
                && NextFit(old(fl), old(freep), k, Units(nbytes)) && fl == Take(old(fl), k, Units(nbytes))
                && t == Tail(old(fl)[k], Units(nbytes)) && area == old(area) && units == old(units)
      ensures r.Got? && NoneFits(old(fl), Units(nbytes)) ==>
                area == old(area).(top := brk + 16 * Core(Units(nbytes))) && units == old(units) + Core(Units(nbytes))
    {
      var n := Units(nbytes);
      t, k := Blk(0, 0), 0;
      RequestIff(nbytes);
      Initialise();
      var ok, truncated, prevp, p;
      ghost var f, q, grown;
      ok, truncated, prevp, p, f, q, grown := Find(n, brk);
      if !ok {
        r := if truncated then Truncated else Null;
        return;
      }
      TakeLive(fl, live, Next(fl, q), n, area);
      k, t := Next(fl, q), Tail(fl[Next(fl, q)], n);
      assert k == q + 1;
      var ap := TakeNext(prevp, p, n, q);
      r := Got(ap);
    }

    /** Once every block is freed, memory that sbrk granted in one run is one free block again. */
    lemma AllFreed()
      requires Valid() && live == {} && 16 * units == area.top - area.start > 0
      ensures fl == [Blk(base, 0), Blk(area.start, units)]
    {
      OneBlock(fl, area);
    }

    /** Two blocks in use never share a byte, and none reaches into a free block. */
    lemma NeverOverlap(b: Blk, c: Blk, a: int)
      requires Valid() && b in live && b.addr <= a < End(b)
      ensures c in live && c.addr <= a < End(c) ==> c == b
      ensures c in fl ==> !(c.addr <= a < End(c))
    {
      if c in live && c != b { assert Apart(b, c); }
      if c in fl {
        var i :| 0 <= i < |fl| && fl[i] == c;
        if i > 0 { assert Apart(b, fl[i]); }
      }
    }
  }
}
