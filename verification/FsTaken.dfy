/** Which blocks a writei takes, told from the state before it, and when it needs the whole reservation of an operation. */
module FsTaken {
  import opened Common
  import opened Blocks
  import opened FsLayout
  import opened FsSpec
  import opened FsGrow
  import opened FsWrite
  import opened FsBudget
  import LogFormat

  /** How many of the file blocks [lo, hi) inode x does not have. */
  ghost function Lacking(store: Disk, x: Inode, lo: nat, hi: nat): nat
    requires |x.addrs| == 13 && x.addrs[INDIRECT] < |store| && hi <= MAXFILE
  {
    if lo >= hi then 0 else Lacking(store, x, lo, hi - 1) + if At(store, x, Pos(hi - 1)) == 0 then 1 else 0
  }

  /** How many blocks it takes to write n bytes at off. */
  ghost function Needs(v: View, i: nat, off: nat, n: nat): nat
    requires i < |v.tab| && |v.tab[i].addrs| == 13 && v.tab[i].addrs[INDIRECT] < |v.store| && Hi(off, n) <= MAXFILE
  {
    Lacking(v.store, v.tab[i], off / BSIZE, Hi(off, n)) + if v.tab[i].addrs[INDIRECT] == 0 && Hi(off, n) > NDIRECT then 1 else 0
  }

  /** The data blocks of [lo, hi) that w has and v lacks. */
  ghost function NewBlocks(v: View, w: View, i: nat, lo: nat, hi: nat): set<nat>
    requires i < |v.tab| && |v.tab[i].addrs| == 13 && v.tab[i].addrs[INDIRECT] < |v.store| && hi <= MAXFILE
    requires i < |w.tab| && |w.tab[i].addrs| == 13 && w.tab[i].addrs[INDIRECT] < |w.store|
  {
    if lo >= hi then {}
    else NewBlocks(v, w, i, lo, hi - 1) + if At(v.store, v.tab[i], Pos(hi - 1)) == 0 then {At(w.store, w.tab[i], Pos(hi - 1))} else {}
  }

  lemma {:induction false} InNewBlocks(v: View, w: View, i: nat, lo: nat, hi: nat, b: nat)
    requires i < |v.tab| && |v.tab[i].addrs| == 13 && v.tab[i].addrs[INDIRECT] < |v.store| && hi <= MAXFILE
    requires i < |w.tab| && |w.tab[i].addrs| == 13 && w.tab[i].addrs[INDIRECT] < |w.store|
    ensures b in NewBlocks(v, w, i, lo, hi) <==>
              exists bn {:trigger Pos(bn)} :: lo <= bn < hi && At(v.store, v.tab[i], Pos(bn)) == 0 && At(w.store, w.tab[i], Pos(bn)) == b
  {
    if lo < hi {
      InNewBlocks(v, w, i, lo, hi - 1, b);
      var last := hi - 1;
      assert At(w.store, w.tab[i], Pos(last)) == At(w.store, w.tab[i], Pos(hi - 1));
      assert At(v.store, v.tab[i], Pos(last)) == At(v.store, v.tab[i], Pos(hi - 1));
    }
  }

  /** A block that stands at some other position is not among them. */
  lemma NotAmongNew(g: Geo, v: View, w: View, i: nat, lo: nat, hi: nat, p: nat)
    requires i < |v.tab| && |v.tab[i].addrs| == 13 && v.tab[i].addrs[INDIRECT] < |v.store|
    requires OwnerInv(g, w.store, w.tab, w.owner, 0, 0) && i < |w.tab| && hi <= MAXFILE && p < NPOS && At(w.store, w.tab[i], p) != 0
    requires forall bn {:trigger Pos(bn)} :: lo <= bn < hi ==> Pos(bn) != p
    ensures At(w.store, w.tab[i], p) !in NewBlocks(v, w, i, lo, hi)
  {
    var b := At(w.store, w.tab[i], p);
    InNewBlocks(v, w, i, lo, hi, b);
    if b in NewBlocks(v, w, i, lo, hi) {
      var bn :| lo <= bn < hi && At(w.store, w.tab[i], Pos(bn)) == b;
      NoSharing(g, w.store, w.tab, w.owner, i, Pos(bn), i, p);
    }
  }

  lemma LastAmongNew(g: Geo, v: View, w: View, i: nat, lo: nat, last: nat)
    requires i < |v.tab| && |v.tab[i].addrs| == 13 && v.tab[i].addrs[INDIRECT] < |v.store|
    requires OwnerInv(g, w.store, w.tab, w.owner, 0, 0) && i < |w.tab| && last < MAXFILE && At(w.store, w.tab[i], Pos(last)) != 0
    ensures At(w.store, w.tab[i], Pos(last)) !in NewBlocks(v, w, i, lo, last)
  {
    NotAmongNew(g, v, w, i, lo, last, Pos(last));
  }

  /** Each file block that was missing has a block of its own now. */
  lemma {:induction false} CountNewBlocks(g: Geo, v: View, w: View, i: nat, lo: nat, hi: nat)
    requires i < |v.tab| && |v.tab[i].addrs| == 13 && v.tab[i].addrs[INDIRECT] < |v.store|
    requires OwnerInv(g, w.store, w.tab, w.owner, 0, 0) && i < |w.tab| && hi <= MAXFILE
    requires forall bn {:trigger Pos(bn)} :: lo <= bn < hi ==> At(w.store, w.tab[i], Pos(bn)) != 0
    ensures |NewBlocks(v, w, i, lo, hi)| == Lacking(v.store, v.tab[i], lo, hi)
  {
    if lo < hi {
      var last := hi - 1;
      CountNewBlocks(g, v, w, i, lo, last);
      CountOneMore(g, v, w, i, lo, last);
    }
  }

  lemma CountOneMore(g: Geo, v: View, w: View, i: nat, lo: nat, last: nat)
    requires i < |v.tab| && |v.tab[i].addrs| == 13 && v.tab[i].addrs[INDIRECT] < |v.store| && lo <= last
    requires OwnerInv(g, w.store, w.tab, w.owner, 0, 0) && i < |w.tab| && last < MAXFILE && At(w.store, w.tab[i], Pos(last)) != 0
    requires |NewBlocks(v, w, i, lo, last)| == Lacking(v.store, v.tab[i], lo, last)
    ensures |NewBlocks(v, w, i, lo, last + 1)| == Lacking(v.store, v.tab[i], lo, last + 1)
  {
    LastAmongNew(g, v, w, i, lo, last);
    var some, b := NewBlocks(v, w, i, lo, last), At(w.store, w.tab[i], Pos(last));
    OneMore(some, b, At(v.store, v.tab[i], Pos(last)) == 0);
  }

  lemma OneMore(s: set<nat>, b: nat, yes: bool)
    requires b !in s
    ensures |s + if yes then {b} else {}| == |s| + if yes then 1 else 0
  {
    assert |s + {b}| == |s| + 1;
    assert s + {} == s;
  }

  /** A block that stands at a position of v's inode was owned then. */
  lemma OldOwned(g: Geo, v: View, w: View, i: nat, p: nat)
    requires ViewOk(g, v, i) && ViewOk(g, w, i) && i < |v.tab| == |w.tab| && p < NPOS && At(w.store, w.tab[i], p) != 0
    requires forall b :: b in v.owner ==> b in w.owner && w.owner[b] == v.owner[b]
    requires At(v.store, v.tab[i], p) != 0 ==> At(w.store, w.tab[i], p) == At(v.store, v.tab[i], p)
    ensures At(w.store, w.tab[i], p) in w.owner && w.owner[At(w.store, w.tab[i], p)] == (i, p)
    ensures At(w.store, w.tab[i], p) in v.owner <==> At(v.store, v.tab[i], p) != 0
  {
    var b := At(w.store, w.tab[i], p);
    assert PosOk(g, w.store, w.tab, w.owner, 0, 0, i, p) && PosOk(g, v.store, v.tab, v.owner, 0, 0, i, p);
    assert OwnedOk(g, v.store, v.tab, v.owner, 0, 0, b);
  }

  /** Which blocks a write that went through has taken. */
  lemma TakenAre(g: Geo, v: View, w: View, i: nat, off: nat, src: seq<Byte>, b: nat)
    requires Written(g, v, w, i, off, src, |src|) && off <= v.tab[i].size && src != []
    ensures b in w.owner && b !in v.owner <==>
              || b in NewBlocks(v, w, i, off / BSIZE, Hi(off, |src|))
              || (v.tab[i].addrs[INDIRECT] == 0 && Hi(off, |src|) > NDIRECT && b == w.tab[i].addrs[INDIRECT])
  {
    var lo, hi, ind := off / BSIZE, Hi(off, |src|), w.tab[i].addrs[INDIRECT];
    InNewBlocks(v, w, i, lo, hi, b);
    if b in w.owner && b !in v.owner {
      AddedAre(g, v, w, i, off, src, |src|, b);
      assert OwnedOk(g, w.store, w.tab, w.owner, 0, 0, b);
      OldOwned(g, v, w, i, w.owner[b].1);
      assert Up(off) >= lo;
    }
    if b in NewBlocks(v, w, i, lo, hi) {
      var bn :| lo <= bn < hi && At(v.store, v.tab[i], Pos(bn)) == 0 && At(w.store, w.tab[i], Pos(bn)) == b;
      assert Touches(off, |src|, bn);
      OldOwned(g, v, w, i, Pos(bn));
    }
    if v.tab[i].addrs[INDIRECT] == 0 && hi > NDIRECT {
      var last := hi - 1;
      assert Touches(off, |src|, last) && At(w.store, w.tab[i], Pos(last)) != 0;
      OldOwned(g, v, w, i, INDIRECT);
    }
  }

  /** The indirect block, if the write makes it. */
  ghost function NewIndirect(v: View, w: View, i: nat, off: nat, n: nat): set<nat>
    requires i < |v.tab| && |v.tab[i].addrs| == 13 && i < |w.tab| && |w.tab[i].addrs| == 13
  {
    if v.tab[i].addrs[INDIRECT] == 0 && Hi(off, n) > NDIRECT then {w.tab[i].addrs[INDIRECT]} else {}
  }

  lemma TakenSet(g: Geo, v: View, w: View, i: nat, off: nat, src: seq<Byte>)
    requires Written(g, v, w, i, off, src, |src|) && off <= v.tab[i].size && src != []
    ensures w.owner.Keys - v.owner.Keys == NewBlocks(v, w, i, off / BSIZE, Hi(off, |src|)) + NewIndirect(v, w, i, off, |src|)
  {
    var data, ind := NewBlocks(v, w, i, off / BSIZE, Hi(off, |src|)), NewIndirect(v, w, i, off, |src|);
    forall b: nat ensures b in w.owner.Keys - v.owner.Keys <==> b in data + ind {
      TakenAre(g, v, w, i, off, src, b);
    }
  }

  lemma TakenApart(g: Geo, v: View, w: View, i: nat, off: nat, src: seq<Byte>)
    requires Written(g, v, w, i, off, src, |src|) && off <= v.tab[i].size && src != []
    ensures |NewBlocks(v, w, i, off / BSIZE, Hi(off, |src|))| == Lacking(v.store, v.tab[i], off / BSIZE, Hi(off, |src|))
    ensures NewBlocks(v, w, i, off / BSIZE, Hi(off, |src|)) !! NewIndirect(v, w, i, off, |src|)
  {
    var lo, hi := off / BSIZE, Hi(off, |src|);
    forall bn | lo <= bn < hi ensures At(w.store, w.tab[i], Pos(bn)) != 0 {
      assert Touches(off, |src|, bn);
    }
    CountNewBlocks(g, v, w, i, lo, hi);
    if w.tab[i].addrs[INDIRECT] != 0 {
      NotAmongNew(g, v, w, i, lo, hi, INDIRECT);
    }
    InNewBlocks(v, w, i, lo, hi, 0);
  }

  /** A write that went through has taken exactly the blocks it needs. */
  lemma TakenCount(g: Geo, v: View, w: View, i: nat, off: nat, src: seq<Byte>)
    requires Written(g, v, w, i, off, src, |src|) && off <= v.tab[i].size && src != []
    ensures |w.owner.Keys - v.owner.Keys| == Needs(v, i, off, |src|)
  {
    TakenSet(g, v, w, i, off, src);
    TakenApart(g, v, w, i, off, src);
  }

  /** a, b, c and d are the four lowest free blocks. */
  ghost predicate FourLowest(g: Geo, owner: Owner, a: nat, b: nat, c: nat, d: nat) {
    && g.nmeta <= a < b < c < d < g.size && a !in owner && b !in owner && c !in owner && d !in owner
    && forall x :: g.nmeta <= x < d && x != a && x != b && x != c ==> x in owner
  }

  /** The four lowest free blocks lie under four bitmap blocks. */
  ghost predicate FourApart(g: Geo, owner: Owner) {
    exists a: nat, b: nat, c: nat, d: nat :: FourLowest(g, owner, a, b, c, d) && Apart(g, a, b, c, d)
  }

  predicate Apart(g: Geo, a: nat, b: nat, c: nat, d: nat) {
    BitmapBlock(g, a) < BitmapBlock(g, b) < BitmapBlock(g, c) < BitmapBlock(g, d)
  }

  /** A write of n bytes at off needs the whole reservation: it enters four file blocks, takes four blocks, and those lie under four
      bitmap blocks. */
  ghost predicate NeedsAll(g: Geo, v: View, i: nat, off: nat, n: nat)
    requires i < |v.tab| && |v.tab[i].addrs| == 13 && v.tab[i].addrs[INDIRECT] < |v.store| && Hi(off, n) <= MAXFILE
  {
    Hi(off, n) - off / BSIZE == 4 && Needs(v, i, off, n) == 4 && FourApart(g, v.owner)
  }

  lemma {:induction false} Smallest(s: set<nat>) returns (m: nat)
    requires s != {}
    ensures m in s && forall x :: x in s ==> m <= x
  {
    var y :| y in s;
    m := y;
    if s - {y} != {} {
      var k := Smallest(s - {y});
      m := if y < k then y else k;
    }
    forall x | x in s ensures m <= x {
      assert x == y || x in s - {y};
    }
  }

  lemma FourInOrder(s: set<nat>) returns (a: nat, b: nat, c: nat, d: nat)
    requires |s| == 4
    ensures a < b < c < d && s == {a, b, c, d}
  {
    a := Smallest(s);
    var t := s - {a};
    assert |t| == 3;
    b := Smallest(t);
    var u := t - {b};
    assert |u| == 2;
    c := Smallest(u);
    var r := u - {c};
    assert |r| == 1;
    d := Smallest(r);
    assert |r - {d}| == 0;
    assert s == {a} + ({b} + ({c} + ({d} + (r - {d}))));
  }

  /** Four blocks taken are the four lowest. */
  lemma TookLowest(g: Geo, v: Owner, w: Owner) returns (a: nat, b: nat, c: nat, d: nat)
    requires Lowest(g, v, w) && |w.Keys - v.Keys| == 4 && forall x :: x in w ==> g.nmeta <= x < g.size
    ensures FourLowest(g, v, a, b, c, d) && w.Keys - v.Keys == {a, b, c, d}
  {
    var added := w.Keys - v.Keys;
    a, b, c, d := FourInOrder(added);
    assert a in added && b in added && c in added && d in added;
    assert LowestAt(g, v, w, d);
    forall x | g.nmeta <= x < d && x != a && x != b && x != c ensures x in v {
      assert x in w && x !in added;
    }
  }

  lemma FourElements(a: nat, b: nat, c: nat, d: nat)
    requires a < b < c < d
    ensures |{a, b, c, d}| == 4
  {
    assert {a, b, c, d} == {a} + {b} + {c} + {d};
  }

  /** No fifth block fits beside four in a set of four. */
  lemma NoFifth(s: set<nat>, four: set<nat>, x: nat)
    requires |four| == 4 && four <= s && x in s && |s| == 4
    ensures x in four
  {
    if x !in four {
      Smaller(four + {x}, s);
    }
  }

  lemma LowestTaken(g: Geo, v: Owner, w: Owner, a: nat, b: nat, c: nat, d: nat)
    requires Lowest(g, v, w) && |w.Keys - v.Keys| == 4 && FourLowest(g, v, a, b, c, d) && forall x :: x in w ==> g.nmeta <= x
    ensures w.Keys - v.Keys == {a, b, c, d}
  {
    var added := w.Keys - v.Keys;
    FourElements(a, b, c, d);
    forall x | x in added ensures x in {a, b, c, d} || {a, b, c, d} <= added {
      if x > d {
        BeyondFour(g, v, w, a, b, c, d, x);
      } else {
        AmongFour(g, v, a, b, c, d, x);
      }
    }
    OnlyFour(added, {a, b, c, d});
  }

  lemma AmongFour(g: Geo, v: Owner, a: nat, b: nat, c: nat, d: nat, x: nat)
    requires FourLowest(g, v, a, b, c, d) && g.nmeta <= x <= d && x !in v
    ensures x in {a, b, c, d}
  {
  }

  lemma OnlyFour(s: set<nat>, four: set<nat>)
    requires |s| == |four| == 4 && forall x :: x in s ==> x in four || four <= s
    ensures s == four
  {
    forall x | x in s ensures x in four {
      if four <= s { NoFifth(s, four, x); }
    }
    SameSize(s, four);
  }

  lemma BeyondFour(g: Geo, v: Owner, w: Owner, a: nat, b: nat, c: nat, d: nat, x: nat)
    requires Lowest(g, v, w) && FourLowest(g, v, a, b, c, d) && x in w && x !in v && x > d
    ensures {a, b, c, d} <= w.Keys - v.Keys
  {
    assert LowestAt(g, v, w, x);
  }

  lemma SameSize(s: set<nat>, t: set<nat>)
    requires s <= t && |s| == |t|
    ensures s == t
  {
    if x :| x in t - s {
      Smaller(s, t - {x});
    }
    assert t == s + (t - s);
  }

  lemma ApartIff(g: Geo, a: nat, b: nat, c: nat, d: nat)
    requires a < b < c < d
    ensures |BitmapBlocks(g, {a, b, c, d})| == 4 <==> Apart(g, a, b, c, d)
  {
    var p, q, r, s := BitmapBlock(g, a), BitmapBlock(g, b), BitmapBlock(g, c), BitmapBlock(g, d);
    assert p <= q <= r <= s;
    assert BitmapBlocks(g, {a, b, c, d}) == {p, q, r, s};
    if p == q {
      Smaller({p, q, r, s}, {p, r, s});
    } else if q == r {
      Smaller({p, q, r, s}, {p, q, s});
    } else if r == s {
      Smaller({p, q, r, s}, {p, q, r});
    }
  }

  /** The file blocks of a chunk that enters four of them. */
  lemma FourEntered(off: nat, tot: nat, n: nat)
    requires tot <= n <= MAXWRITE && (tot < n ==> tot == 0 || (off + tot) % BSIZE == 0)
    ensures Hi(off, n) - off / BSIZE <= 4 && Hi(off, tot) <= Hi(off, n)
    ensures Hi(off, n) - off / BSIZE == 4 ==> off % BSIZE != 0 && Up(off) == off / BSIZE + 1 && n > 0
    ensures Hi(off, tot) - off / BSIZE == 4 ==> tot == n
    ensures tot < n && Hi(off, n) - off / BSIZE == 4 ==> Hi(off, tot) - Up(off) <= 2
  {
  }

  lemma {:induction false} LackingAtMost(store: Disk, x: Inode, lo: nat, hi: nat)
    requires |x.addrs| == 13 && x.addrs[INDIRECT] < |store| && lo <= hi <= MAXFILE
    ensures Lacking(store, x, lo, hi) <= hi - lo
    ensures lo < hi && At(store, x, Pos(lo)) != 0 ==> Lacking(store, x, lo, hi) <= hi - lo - 1
  {
    if lo < hi {
      LackingAtMost(store, x, lo, hi - 1);
    }
  }

  lemma Owns(g: Geo, w: View, t: int)
    requires ViewOk(g, w, t)
    ensures forall x :: x in w.owner ==> g.nmeta <= x < g.size
  {
    forall x | x in w.owner ensures g.nmeta <= x < g.size {
      assert OwnedOk(g, w.store, w.tab, w.owner, 0, 0, x);
    }
  }

  /** If all of the reservation is used, the state before the call said so. */
  lemma UsedWasNeeded(g: Geo, v: View, w: View, i: nat, off: nat, src: seq<Byte>, tot: nat)
    requires Written(g, v, w, i, off, src, tot) && off <= v.tab[i].size && |src| <= MAXWRITE && v.logged == {}
    requires Lowest(g, v.owner, w.owner) && (tot < |src| ==> tot == 0 || (off + tot) % BSIZE == 0) && Hi(off, |src|) <= MAXFILE
    requires |w.logged + {InodeBlock(g, i)}| == LogFormat.MAXOPBLOCKS
    ensures NeedsAll(g, v, i, off, |src|)
  {
    var added := w.owner.Keys - v.owner.Keys;
    AllLogged(g, v, w, i, off, src, tot);
    FourEntered(off, tot, |src|);
    TakenCount(g, v, w, i, off, src);
    AddedCount(g, v, w, i, off, src, tot);
    BitmapCount(g, added);
    Owns(g, w, i);
    var a, b, c, d := TookLowest(g, v.owner, w.owner);
    ApartIff(g, a, b, c, d);
  }

  /** If the state before the call says so, the write goes through, since there are four free blocks. */
  lemma NeededGoesThrough(g: Geo, v: View, w: View, i: nat, off: nat, src: seq<Byte>, tot: nat)
    requires Written(g, v, w, i, off, src, tot) && off <= v.tab[i].size && |src| <= MAXWRITE && Hi(off, |src|) <= MAXFILE
    requires tot < |src| ==> (tot == 0 || (off + tot) % BSIZE == 0) && Full(g, w.store)
    requires NeedsAll(g, v, i, off, |src|)
    ensures tot == |src| > 0
  {
    FourEntered(off, tot, |src|);
    if tot < |src| {
      var a: nat, b: nat, c: nat, d: nat :| FourLowest(g, v.owner, a, b, c, d) && Apart(g, a, b, c, d);
      FullTookFour(g, v.owner, w, a, b, c, d);
      AddedCount(g, v, w, i, off, src, tot);
    }
  }

  /** On a full disk all four are taken. */
  lemma FullTookFour(g: Geo, v: Owner, w: View, a: nat, b: nat, c: nat, d: nat)
    requires BitInv(g, w.store, w.owner) && Full(g, w.store) && FourLowest(g, v, a, b, c, d)
    ensures |w.owner.Keys - v.Keys| >= 4
  {
    assert Bit(g, w.store, a) && Bit(g, w.store, b) && Bit(g, w.store, c) && Bit(g, w.store, d);
    FourElements(a, b, c, d);
    Smaller({a, b, c, d}, w.owner.Keys - v.Keys);
  }

  /** A write that needs the whole reservation uses it. */
  lemma NeededIsUsed(g: Geo, v: View, w: View, i: nat, off: nat, src: seq<Byte>)
    requires Written(g, v, w, i, off, src, |src|) && off <= v.tab[i].size && 0 < |src| <= MAXWRITE && v.logged == {}
    requires Lowest(g, v.owner, w.owner) && NeedsAll(g, v, i, off, |src|)
    ensures |w.logged + {InodeBlock(g, i)}| == LogFormat.MAXOPBLOCKS
  {
    var a: nat, b: nat, c: nat, d: nat :| FourLowest(g, v.owner, a, b, c, d) && Apart(g, a, b, c, d);
    TakenCount(g, v, w, i, off, src);
    Owns(g, w, i);
    LowestTaken(g, v.owner, w.owner, a, b, c, d);
    ApartIff(g, a, b, c, d);
    IndirectIsNew(g, v, w, i, off, src);
    AllLogged(g, v, w, i, off, src, |src|);
  }

  lemma IndirectIsNew(g: Geo, v: View, w: View, i: nat, off: nat, src: seq<Byte>)
    requires Written(g, v, w, i, off, src, |src|) && off <= v.tab[i].size && 0 < |src| <= MAXWRITE
    requires Hi(off, |src|) - off / BSIZE == 4 && Needs(v, i, off, |src|) == 4
    ensures w.tab[i].addrs[INDIRECT] in w.logged
  {
    var ind := w.tab[i].addrs[INDIRECT];
    FourEntered(off, |src|, |src|);
    Reached(v.store, v.tab[i], off / BSIZE);
    assert FileOk(v.store, v.tab[i]);
    LackingAtMost(v.store, v.tab[i], off / BSIZE, Hi(off, |src|));
    TakenAre(g, v, w, i, off, src, ind);
    assert LogOk(g, v, w, i, off, |src|, ind);
  }

  /** The reservation is exact: whether all of it is used is settled before the call. */
  lemma ChunkTight(g: Geo, v: View, w: View, i: nat, off: nat, src: seq<Byte>, tot: nat)
    requires Written(g, v, w, i, off, src, tot) && off <= v.tab[i].size && |src| <= MAXWRITE && v.logged == {}
    requires Lowest(g, v.owner, w.owner) && Hi(off, |src|) <= MAXFILE
    requires tot < |src| ==> (tot == 0 || (off + tot) % BSIZE == 0) && Full(g, w.store)
    ensures |w.logged + {InodeBlock(g, i)}| == LogFormat.MAXOPBLOCKS <==> NeedsAll(g, v, i, off, |src|)
  {
    if |w.logged + {InodeBlock(g, i)}| == LogFormat.MAXOPBLOCKS {
      UsedWasNeeded(g, v, w, i, off, src, tot);
    }
    if NeedsAll(g, v, i, off, |src|) {
      NeededGoesThrough(g, v, w, i, off, src, tot);
      NeededIsUsed(g, v, w, i, off, src);
    }
  }

  lemma {:induction false} LackingGrows(store: Disk, x: Inode, lo: nat, mid: nat, hi: nat)
    requires |x.addrs| == 13 && x.addrs[INDIRECT] < |store| && lo <= mid <= hi <= MAXFILE
    ensures Lacking(store, x, lo, mid) <= Lacking(store, x, lo, hi)
  {
    if mid < hi {
      LackingGrows(store, x, lo, mid, hi - 1);
    }
  }

  /** Where a write stopped for want of a block. */
  ghost predicate StoppedAt(v: View, w: View, i: nat, off: nat, n: nat, tot: nat)
    requires i < |v.tab| && |v.tab[i].addrs| == 13 && v.tab[i].addrs[INDIRECT] < |v.store|
    requires i < |w.tab| && |w.tab[i].addrs| == 13 && w.tab[i].addrs[INDIRECT] < |w.store|
  {
    && tot < n && (tot == 0 || (off + tot) % BSIZE == 0) && (off + tot) / BSIZE < MAXFILE
    && At(w.store, w.tab[i], Pos((off + tot) / BSIZE)) == 0
  }

  lemma Stopped(off: nat, n: nat, tot: nat)
    requires tot < n && (tot == 0 || (off + tot) % BSIZE == 0)
    ensures off / BSIZE <= Hi(off, tot) == (off + tot) / BSIZE < Hi(off, n)
    ensures off + n > NDIRECT * BSIZE ==> Hi(off, n) > NDIRECT
  {
  }

  /** The file block where a write stopped is lacking. */
  lemma StoppedLacks(g: Geo, v: View, w: View, i: nat, off: nat, src: seq<Byte>, tot: nat)
    requires Written(g, v, w, i, off, src, tot) && off <= v.tab[i].size && StoppedAt(v, w, i, off, |src|, tot) && Hi(off, |src|) <= MAXFILE
    ensures off / BSIZE <= Hi(off, tot) == (off + tot) / BSIZE
    ensures Lacking(v.store, v.tab[i], off / BSIZE, (off + tot) / BSIZE) < Lacking(v.store, v.tab[i], off / BSIZE, Hi(off, |src|))
  {
    var lo, cur, x := off / BSIZE, (off + tot) / BSIZE, v.tab[i];
    Stopped(off, |src|, tot);
    assert !Touches(off, tot, cur) && At(v.store, x, Pos(cur)) == 0;
    LackingGrows(v.store, x, lo, cur + 1, Hi(off, |src|));
    assert Lacking(v.store, x, lo, cur + 1) == Lacking(v.store, x, lo, cur) + 1;
  }

  lemma StoppedNew(g: Geo, v: View, w: View, i: nat, off: nat, src: seq<Byte>, tot: nat)
    requires Written(g, v, w, i, off, src, tot) && off <= v.tab[i].size && Hi(off, tot) == (off + tot) / BSIZE
    ensures |NewBlocks(v, w, i, off / BSIZE, (off + tot) / BSIZE)| == Lacking(v.store, v.tab[i], off / BSIZE, (off + tot) / BSIZE)
  {
    forall bn | off / BSIZE <= bn < Hi(off, tot) ensures At(w.store, w.tab[i], Pos(bn)) != 0 {
      assert Touches(off, tot, bn);
    }
    CountNewBlocks(g, v, w, i, off / BSIZE, Hi(off, tot));
  }

  /** A write that stopped has taken fewer blocks than it needs. */
  lemma StoppedCount(g: Geo, v: View, w: View, i: nat, off: nat, src: seq<Byte>, tot: nat)
    requires Written(g, v, w, i, off, src, tot) && off <= v.tab[i].size && StoppedAt(v, w, i, off, |src|, tot) && Hi(off, |src|) <= MAXFILE
    ensures |w.owner.Keys - v.owner.Keys| < Needs(v, i, off, |src|)
  {
    StoppedLacks(g, v, w, i, off, src, tot);
    StoppedNew(g, v, w, i, off, src, tot);
    var ind, data := NewIndirect(v, w, i, off, |src|), NewBlocks(v, w, i, off / BSIZE, (off + tot) / BSIZE);
    forall b | b in w.owner.Keys - v.owner.Keys ensures b in data + ind {
      StoppedTook(g, v, w, i, off, src, tot, b);
    }
    Smaller(w.owner.Keys - v.owner.Keys, data + ind);
    AtMostOneMore(data, w.tab[i].addrs[INDIRECT], v.tab[i].addrs[INDIRECT] == 0 && Hi(off, |src|) > NDIRECT);
  }

  lemma AtMostOneMore(s: set<nat>, b: nat, yes: bool)
    ensures |s + if yes then {b} else {}| <= |s| + if yes then 1 else 0
  {
    assert |s + {b}| <= |s| + 1;
    assert s + {} == s;
  }

  lemma StoppedTook(g: Geo, v: View, w: View, i: nat, off: nat, src: seq<Byte>, tot: nat, b: nat)
    requires Written(g, v, w, i, off, src, tot) && off <= v.tab[i].size && StoppedAt(v, w, i, off, |src|, tot) && Hi(off, |src|) <= MAXFILE
    requires b in w.owner && b !in v.owner && Hi(off, tot) == (off + tot) / BSIZE
    ensures || b in NewBlocks(v, w, i, off / BSIZE, (off + tot) / BSIZE)
            || (b == w.tab[i].addrs[INDIRECT] && v.tab[i].addrs[INDIRECT] == 0 && Hi(off, |src|) > NDIRECT)
  {
    AddedAre(g, v, w, i, off, src, tot, b);
    assert OwnedOk(g, w.store, w.tab, w.owner, 0, 0, b);
    OldOwned(g, v, w, i, w.owner[b].1);
    InNewBlocks(v, w, i, off / BSIZE, (off + tot) / BSIZE, b);
    Stopped(off, |src|, tot);
    assert Up(off) >= off / BSIZE;
  }

  /** The free data blocks. */
  ghost function FreeBlocks(g: Geo, owner: Owner): set<nat> {
    set b: nat | g.nmeta <= b < g.size && b !in owner
  }

  /** What a writei of n bytes at off does to the free blocks, in terms of the state v before it: done tells that all bytes were written,
      and count is how many blocks it logged. */
  ghost predicate TakesAsNeeded(g: Geo, v: View, owner: Owner, i: nat, off: nat, n: nat, done: bool, count: nat) {
    && i < |v.tab| && |v.tab[i].addrs| == 13 && v.tab[i].addrs[INDIRECT] < |v.store| && Hi(off, n) <= MAXFILE
    && Lowest(g, v.owner, owner)
    && (if done && n > 0 then |owner.Keys - v.owner.Keys| == Needs(v, i, off, n)
        else !done ==> |owner.Keys - v.owner.Keys| < Needs(v, i, off, n))
    && (n > 0 ==> (done <==> Needs(v, i, off, n) <= |FreeBlocks(g, v.owner)|))
    && (v.logged == {} && n <= MAXWRITE ==> (count == LogFormat.MAXOPBLOCKS <==> NeedsAll(g, v, i, off, n)))
  }

  lemma Entered(off: nat, n: nat)
    requires off + n <= MAXFILE * BSIZE
    ensures Hi(off, n) <= MAXFILE
  {
  }

  lemma TakenWereFree(g: Geo, v: Owner, w: View)
    requires exists t: int :: ViewOk(g, w, t)
    ensures |w.owner.Keys - v.Keys| <= |FreeBlocks(g, v)|
  {
    var t: int :| ViewOk(g, w, t);
    Owns(g, w, t);
    Smaller(w.owner.Keys - v.Keys, FreeBlocks(g, v));
  }

  lemma FullTookAll(g: Geo, v: Owner, w: View)
    requires BitInv(g, w.store, w.owner) && Full(g, w.store)
    ensures |FreeBlocks(g, v)| <= |w.owner.Keys - v.Keys|
  {
    forall b | b in FreeBlocks(g, v) ensures b in w.owner.Keys - v.Keys {
      assert Bit(g, w.store, b);
    }
    Smaller(FreeBlocks(g, v), w.owner.Keys - v.Keys);
  }

  lemma WriteTakes(g: Geo, v: View, w: View, i: nat, off: nat, src: seq<Byte>, tot: nat)
    requires Written(g, v, w, i, off, src, tot) && off <= v.tab[i].size && Lowest(g, v.owner, w.owner)
    requires tot < |src| ==> StoppedAt(v, w, i, off, |src|, tot) && Full(g, w.store)
    ensures TakesAsNeeded(g, v, w.owner, i, off, |src|, tot == |src|, |w.logged + {InodeBlock(g, i)}|)
  {
    Entered(off, |src|);
    if tot == |src| > 0 {
      TakenCount(g, v, w, i, off, src);
      TakenWereFree(g, v.owner, w);
    }
    if tot < |src| {
      StoppedCount(g, v, w, i, off, src, tot);
      FullTookAll(g, v.owner, w);
    }
    if v.logged == {} && |src| <= MAXWRITE { ChunkTight(g, v, w, i, off, src, tot); }
  }

  /** What a writei that has written tot bytes of src reports about blocks taken and blocks logged, in terms of the state v before it. */
  ghost predicate WriteReport(g: Geo, v: View, owner: Owner, logged: set<nat>, i: nat, off: nat, src: seq<Byte>, tot: nat) {
    && Takes(v.owner, owner, i) && TakesAsNeeded(g, v, owner, i, off, |src|, tot == |src|, |logged|)
    && BitmapBlocks(g, owner.Keys - v.owner.Keys) + {InodeBlock(g, i)} <= logged
    && (v.logged == {} && |src| <= MAXWRITE ==> |logged| <= LogFormat.MAXOPBLOCKS)
    && (v.logged == {} && |src| == DIRENT && off % DIRENT == 0 ==> EntryLogged(g, v, i, off, tot, logged))
  }

  lemma WriteReports(g: Geo, v: View, w: View, i: nat, off: nat, src: seq<Byte>, tot: nat)
    requires Written(g, v, w, i, off, src, tot) && off <= v.tab[i].size && Lowest(g, v.owner, w.owner)
    requires tot < |src| ==> StoppedAt(v, w, i, off, |src|, tot) && Full(g, w.store)
    ensures WriteReport(g, v, w.owner, w.logged + {InodeBlock(g, i)}, i, off, src, tot)
  {
    WriteLogs(g, v, w, i, off, src, tot);
    WriteTakes(g, v, w, i, off, src, tot);
  }

  lemma FourAreFree(g: Geo, owner: Owner, a: nat, b: nat, c: nat, d: nat)
    requires FourLowest(g, owner, a, b, c, d)
    ensures |FreeBlocks(g, owner)| >= 4
  {
    FourElements(a, b, c, d);
    Smaller({a, b, c, d}, FreeBlocks(g, owner));
  }
}
