/** kernel/bio.c in its own form: buffers in an array, threaded on a doubly linked LRU list that is
    spliced in place. Link number |bufs| is bcache.head. */
module Bio {
  import opened Common
  import opened Blocks
  import opened BufCache

  /** The link after and before position k of the list; the head link closes the ring. */
  ghost function After(lru: seq<nat>, head: nat, k: nat): nat {
    if k + 1 < |lru| then lru[k + 1] else head
  }

  ghost function Before(lru: seq<nat>, head: nat, k: nat): nat
    requires k <= |lru|
  {
    if k > 0 then lru[k - 1] else head
  }

  /** next and prev thread exactly the list lru, most recent first, through the head link. */
  ghost predicate Linked(next: seq<nat>, prev: seq<nat>, lru: seq<nat>) {
    var head := |lru|;
    && |next| == |prev| == |lru| + 1
    && (forall k :: 0 <= k < |lru| ==> lru[k] < head)
    && Distinct(lru)
    && next[head] == (if lru == [] then head else lru[0])
    && prev[head] == (if lru == [] then head else lru[|lru| - 1])
    && (forall k {:trigger next[lru[k]]} :: 0 <= k < |lru| ==> next[lru[k]] == After(lru, head, k))
    && (forall k {:trigger prev[lru[k]]} :: 0 <= k < |lru| ==> prev[lru[k]] == Before(lru, head, k))
  }

  class BCache {
    var bufs: seq<Buf>
    var next: seq<nat>
    var prev: seq<nat>
    var locked: seq<bool>
    var disk: Disk
    ghost var lru: seq<nat>
    ghost var trace: seq<Disk>    // the disk after each block write

    ghost predicate Valid()
      reads this
    {
      && |lru| == |locked| == |bufs| && Linked(next, prev, lru)
      && ListOk(C()) && Unique(C())
      && (forall i :: 0 <= i < |bufs| && bufs[i].dev != 0 ==> bufs[i].blockno < |disk|)
    }

    ghost function C(): Cache
      reads this
    {
      Cache(bufs, lru)
    }

    /** binit */
    constructor (n: nat, disk: Disk)
      ensures Valid() && C() == Blank(n) && this.disk == disk && locked == seq(n, _ => false) && trace == []
    {
      bufs := Blank(n).bufs;
      locked := seq(n, _ => false);
      this.disk := disk;
      trace := [];
      // an empty ring of n + 1 links, the last one being the head
      var nx: seq<nat>, pv: seq<nat> := seq(n + 1, _ => n), seq(n + 1, _ => n);
      ghost var list: seq<nat> := [];
      for b := 0 to n
        invariant |nx| == |pv| == n + 1
        invariant |list| == b && forall k :: 0 <= k < b ==> list[k] == b - 1 - k
        invariant nx[n] == (if list == [] then n else list[0])
        invariant pv[n] == (if list == [] then n else list[|list| - 1])
        invariant forall k {:trigger nx[list[k]]} :: 0 <= k < |list| ==> nx[list[k]] == After(list, n, k)
        invariant forall k {:trigger pv[list[k]]} :: 0 <= k < |list| ==> pv[list[k]] == Before(list, n, k)
      {
        nx := nx[b := nx[n]];
        pv := pv[b := n];
        pv := pv[nx[n] := b];
        nx := nx[n := b];
        list := [b] + list;
      }
      next, prev, lru := nx, pv, list;
      assert Linked(nx, pv, list);
      assert list == Blank(n).lru;
      BlankOk(n);
    }

    /** bget's first loop, from head.next. */
    method FindBuf(dev: nat, blockno: nat) returns (r: Option<nat>)
      requires Valid()
      ensures r == Find(C(), dev, blockno, 0)
    {
      var head := |bufs|;
      var b := next[head];
      ghost var k := 0;
      while b != head
        invariant 0 <= k <= |lru| && b == (if k < |lru| then lru[k] else head)
        invariant Find(C(), dev, blockno, 0) == Find(C(), dev, blockno, k)
        decreases |lru| - k
      {
        if bufs[b].dev == dev && bufs[b].blockno == blockno {
          return Some(b);
        }
        b := next[b];
        k := k + 1;
      }
      return None;
    }

    /** bget's second loop, from head.prev. */
    method FindVictim() returns (r: Option<nat>)
      requires Valid()
      ensures r == Victim(C(), |lru|)
    {
      var head := |bufs|;
      var b := prev[head];
      ghost var k := |lru|;
      while b != head
        invariant 0 <= k <= |lru| && b == (if k > 0 then lru[k - 1] else head)
        invariant Victim(C(), |lru|) == Victim(C(), k)
        decreases k
      {
        if bufs[b].refcnt == 0 {
          return Some(b);
        }
        b := prev[b];
        k := k - 1;
      }
      return None;
    }

    /** bget: the block's buffer if there is one, else the least recently used free one;
        None is the panic "bget: no buffers". The caller finds the buffer's lock free. */
    method Bget(dev: nat, blockno: nat) returns (r: Option<nat>)
      requires Valid() && dev != 0 && blockno < |disk|
      requires forall i :: 0 <= i < |bufs| && (Key(bufs[i], dev, blockno) || bufs[i].refcnt == 0) ==> !locked[i]
      modifies this
      ensures Valid() && disk == old(disk) && trace == old(trace) && lru == old(lru)
      ensures match Get(old(C()), dev, blockno)
              case Some((c, i)) => r == Some(i) && C() == c && locked == old(locked)[i := true]
              case None => r == None && C() == old(C()) && locked == old(locked)
    {
      GetOk(C(), dev, blockno);
      r := FindBuf(dev, blockno);
      if r.Some? {
        bufs := bufs[r.value := bufs[r.value].(refcnt := bufs[r.value].refcnt + 1)];
        locked := locked[r.value := true];
        return;
      }
      r := FindVictim();
      if r.Some? {
        bufs := bufs[r.value := Buf(dev, blockno, false, 1, bufs[r.value].data)];
        locked := locked[r.value := true];
      }
    }

    /** bread: bget, then fill the buffer from the disk unless it is valid. */
    method Bread(dev: nat, blockno: nat) returns (r: Option<nat>)
      requires Valid() && dev != 0 && blockno < |disk|
      requires forall i :: 0 <= i < |bufs| && (Key(bufs[i], dev, blockno) || bufs[i].refcnt == 0) ==> !locked[i]
      modifies this
      ensures Valid() && disk == old(disk) && trace == old(trace) && lru == old(lru)
      ensures match Get(old(C()), dev, blockno)
              case Some((c, i)) => r == Some(i) && C() == Fill(c, i, disk) && locked == old(locked)[i := true]
              case None => r == None && C() == old(C()) && locked == old(locked)
    {
      GetOk(C(), dev, blockno);
      r := Bget(dev, blockno);
      if r.Some? {
        ReadIn(r.value);
      }
    }

    /** virtio_disk_rw for a buffer that does not hold its block yet. */
    method ReadIn(i: nat)
      requires Valid() && i < |bufs| && bufs[i].blockno < |disk|
      modifies this`bufs
      ensures Valid() && C() == Fill(old(C()), i, disk)
    {
      if !bufs[i].valid {
        bufs := bufs[i := bufs[i].(data := disk[bufs[i].blockno])];
        bufs := bufs[i := bufs[i].(valid := true)];
      }
      SameKeysUnique(old(C()), C());
    }

    /** bwrite: a panic unless the buffer is locked. */
    method Bwrite(i: nat)
      requires Valid() && i < |bufs| && locked[i] && bufs[i].dev != 0
      modifies this
      ensures Valid() && C() == old(C()) && locked == old(locked)
      ensures disk == old(disk)[bufs[i].blockno := bufs[i].data] && trace == old(trace) + [disk]
    {
      disk := disk[bufs[i].blockno := bufs[i].data];
      trace := trace + [disk];
    }

    /** The list surgery of brelse. */
    method MoveToFront(i: nat)
      requires Linked(next, prev, lru) && i in lru
      modifies this`next, this`prev, this`lru
      ensures Linked(next, prev, lru) && lru == [i] + Without(old(lru), i) && |lru| == |old(lru)|
    {
      ghost var m := IndexOf(lru, i);
      Spliced(next, prev, lru, m);
      WithoutAt(lru, m);
      var head := |next| - 1;
      prev := prev[next[i] := prev[i]];
      next := next[prev[i] := next[i]];
      next := next[i := next[head]];
      prev := prev[i := head];
      prev := prev[next[head] := i];
      next := next[head := i];
      lru := [i] + Without(lru, i);
    }

    /** brelse: a panic unless the buffer is locked. */
    method Brelse(i: nat)
      requires Valid() && i < |bufs| && locked[i] && bufs[i].refcnt > 0
      modifies this
      ensures Valid() && C() == Release(old(C()), i) && locked == old(locked)[i := false]
      ensures disk == old(disk) && trace == old(trace)
    {
      ReleaseListOk(C(), i);
      locked := locked[i := false];
      LetGo(i);
    }

    /** One reference fewer; the last one sends the buffer to the front. */
    method LetGo(i: nat)
      requires Linked(next, prev, lru) && i < |bufs| == |lru| && i in lru && bufs[i].refcnt > 0
      modifies this`bufs, this`next, this`prev, this`lru
      ensures Linked(next, prev, lru) && C() == Release(old(C()), i) && |lru| == |old(lru)| && |bufs| == |old(bufs)|
      ensures forall j :: 0 <= j < |bufs| ==> bufs[j].dev == old(bufs)[j].dev && bufs[j].blockno == old(bufs)[j].blockno
    {
      bufs := bufs[i := bufs[i].(refcnt := bufs[i].refcnt - 1)];
      if bufs[i].refcnt == 0 {
        MoveToFront(i);
      }
    }

    method Bpin(i: nat)
      requires Valid() && i < |bufs|
      modifies this
      ensures Valid() && C() == Pin(old(C()), i) && locked == old(locked)
      ensures disk == old(disk) && trace == old(trace)
    {
      SameKeysUnique(C(), Pin(C(), i));
      bufs := bufs[i := bufs[i].(refcnt := bufs[i].refcnt + 1)];
    }

    method Bunpin(i: nat)
      requires Valid() && i < |bufs| && bufs[i].refcnt > 0
      modifies this
      ensures Valid() && C() == Unpin(old(C()), i) && locked == old(locked)
      ensures disk == old(disk) && trace == old(trace)
    {
      SameKeysUnique(C(), Unpin(C(), i));
      bufs := bufs[i := bufs[i].(refcnt := bufs[i].refcnt - 1)];
    }

    /** Stores into a locked buffer's data, as memmove and memset do. */
    method Store(i: nat, data: Block)
      requires Valid() && i < |bufs| && locked[i]
      modifies this
      ensures Valid() && C() == SetData(old(C()), i, data) && locked == old(locked)
      ensures disk == old(disk) && trace == old(trace)
    {
      SameKeysUnique(C(), SetData(C(), i, data));
      bufs := bufs[i := bufs[i].(data := data)];
    }
  }

  ghost function IndexOf(s: seq<nat>, x: nat): (m: nat)
    requires x in s
    ensures m < |s| && s[m] == x
  {
    var m :| 0 <= m < |s| && s[m] == x;
    m
  }

  lemma {:induction false} WithoutAt(s: seq<nat>, m: nat)
    requires m < |s| && Distinct(s)
    ensures Without(s, s[m]) == s[..m] + s[m + 1..]
  {
    var rest := s[1..];
    if m == 0 {
      assert s[0] !in rest;
      WithoutAbsent(rest, s[0]);
    } else {
      assert rest[m - 1] == s[m];
      WithoutAt(rest, m - 1);
      assert [s[0]] + (rest[..m - 1] + rest[m..]) == s[..m] + s[m + 1..];
    }
  }

  lemma {:induction false} WithoutAbsent(s: seq<nat>, x: nat)
    requires x !in s
    ensures Without(s, x) == s
  {
    if s != [] {
      assert s == [s[0]] + s[1..];
      WithoutAbsent(s[1..], x);
    }
  }

  /** The ring rest, with every link below head, head itself closing it. */
  ghost predicate Ring(next: seq<nat>, prev: seq<nat>, rest: seq<nat>, head: nat) {
    && |next| == |prev| == head + 1
    && (forall k :: 0 <= k < |rest| ==> rest[k] < head)
    && next[head] == (if rest == [] then head else rest[0])
    && prev[head] == (if rest == [] then head else rest[|rest| - 1])
    && (forall k {:trigger RingAt(next, prev, rest, head, k)} :: 0 <= k < |rest| ==> RingAt(next, prev, rest, head, k))
  }

  /** Link k of such a ring. */
  ghost predicate RingAt(next: seq<nat>, prev: seq<nat>, rest: seq<nat>, head: nat, k: nat)
    requires |next| == |prev| == head + 1 && k < |rest|
  {
    rest[k] < head && next[rest[k]] == After(rest, head, k) && prev[rest[k]] == Before(rest, head, k)
  }

  lemma UnlinkedAt(next: seq<nat>, prev: seq<nat>, lru: seq<nat>, m: nat, k: nat)
    requires Linked(next, prev, lru) && m < |lru| && k < |lru| - 1
    ensures next[lru[m]] <= |lru| && prev[lru[m]] <= |lru|
    ensures var i, head, rest := lru[m], |lru|, lru[..m] + lru[m + 1..];
            && rest[k] < head
            && next[prev[i] := next[i]][rest[k]] == After(rest, head, k)
            && prev[next[i] := prev[i]][rest[k]] == Before(rest, head, k)
  {
    var i, head, rest := lru[m], |lru|, lru[..m] + lru[m + 1..];
    var j := if k < m then k else k + 1;
    assert rest[k] == lru[j] && lru[j] != lru[m];
    assert next[lru[m]] == After(lru, head, m) && prev[lru[m]] == Before(lru, head, m);
    assert next[lru[j]] == After(lru, head, j) && prev[lru[j]] == Before(lru, head, j);
    assert j != m - 1 ==> lru[j] != Before(lru, head, m);
    assert j != m + 1 ==> lru[j] != After(lru, head, m);
  }

  /** Taking link m out of the ring. */
  lemma Unlinked(next: seq<nat>, prev: seq<nat>, lru: seq<nat>, m: nat)
    requires Linked(next, prev, lru) && m < |lru|
    ensures next[lru[m]] <= |lru| && prev[lru[m]] <= |lru| && next[lru[m]] != lru[m] && prev[lru[m]] != lru[m]
    ensures Ring(next[prev[lru[m]] := next[lru[m]]], prev[next[lru[m]] := prev[lru[m]]],
                 lru[..m] + lru[m + 1..], |lru|)
  {
    UnlinkedHead(next, prev, lru, m);
    var i, head, rest := lru[m], |lru|, lru[..m] + lru[m + 1..];
    var nx, pv := next[prev[i] := next[i]], prev[next[i] := prev[i]];
    forall k | 0 <= k < |rest| ensures RingAt(nx, pv, rest, head, k) {
      UnlinkedAt(next, prev, lru, m, k);
    }
  }

  /** Without link m the ring still closes at the head. */
  lemma UnlinkedHead(next: seq<nat>, prev: seq<nat>, lru: seq<nat>, m: nat)
    requires Linked(next, prev, lru) && m < |lru|
    ensures next[lru[m]] <= |lru| && prev[lru[m]] <= |lru| && next[lru[m]] != lru[m] && prev[lru[m]] != lru[m]
    ensures var i, head, rest := lru[m], |lru|, lru[..m] + lru[m + 1..];
            && next[prev[i] := next[i]][head] == (if rest == [] then head else rest[0])
            && prev[next[i] := prev[i]][head] == (if rest == [] then head else rest[|rest| - 1])
  {
    var head := |lru|;
    assert next[lru[m]] == After(lru, head, m) && prev[lru[m]] == Before(lru, head, m);
  }

  lemma PushedAt(next: seq<nat>, prev: seq<nat>, rest: seq<nat>, i: nat, k: nat)
    requires Ring(next, prev, rest, |rest| + 1) && i !in rest && i <= |rest| && Distinct(rest) && 0 < k <= |rest|
    ensures next[|rest| + 1] <= |rest| + 1
    ensures var head, list := |rest| + 1, [i] + rest;
            && next[i := next[head]][head := i][list[k]] == After(list, head, k)
            && prev[i := head][next[head] := i][list[k]] == Before(list, head, k)
  {
    var head, list := |rest| + 1, [i] + rest;
    assert list[k] == rest[k - 1] && rest[k - 1] != i;
    assert RingAt(next, prev, rest, head, k - 1);
    assert k > 1 ==> rest[k - 1] != rest[0];
  }

  /** The new first link. */
  lemma PushedFirst(next: seq<nat>, prev: seq<nat>, rest: seq<nat>, i: nat)
    requires Ring(next, prev, rest, |rest| + 1) && i !in rest && i <= |rest|
    ensures next[|rest| + 1] <= |rest| + 1
    ensures var head, list := |rest| + 1, [i] + rest;
            var n2, p2 := next[i := next[head]][head := i], prev[i := head][next[head] := i];
            && n2[i] == After(list, head, 0) && p2[i] == Before(list, head, 0)
            && n2[head] == i && p2[head] == list[|list| - 1]
  {
    var head, list := |rest| + 1, [i] + rest;
    if rest != [] {
      assert RingAt(next, prev, rest, head, 0) && RingAt(next, prev, rest, head, |rest| - 1);
      assert rest[0] in rest && list[1] == rest[0] && list[|list| - 1] == rest[|rest| - 1];
    }
  }

  /** Pushing link i at the front of a ring that does not hold it. */
  lemma Pushed(next: seq<nat>, prev: seq<nat>, rest: seq<nat>, i: nat)
    requires Ring(next, prev, rest, |rest| + 1) && i !in rest && i <= |rest| && Distinct(rest)
    ensures var head := |rest| + 1;
            next[head] <= head && Linked(next[i := next[head]][head := i], prev[i := head][next[head] := i], [i] + rest)
  {
    var head, list := |rest| + 1, [i] + rest;
    var n2, p2 := next[i := next[head]][head := i], prev[i := head][next[head] := i];
    PushedFirst(next, prev, rest, i);
    PushDistinct(rest, i);
    forall k | 0 <= k < |list| ensures list[k] < head && n2[list[k]] == After(list, head, k) && p2[list[k]] == Before(list, head, k) {
      if k > 0 {
        PushedAt(next, prev, rest, i, k);
        assert RingAt(next, prev, rest, head, k - 1) && list[k] == rest[k - 1];
      }
    }
  }

  /** brelse's six assignments move link m to the front of the list. */
  lemma Spliced(next: seq<nat>, prev: seq<nat>, lru: seq<nat>, m: nat)
    requires Linked(next, prev, lru) && m < |lru|
    ensures var i, head := lru[m], |lru|;
            && next[i] <= head && prev[i] <= head && next[i] != i
            && var p1 := prev[next[i] := prev[i]];
               var n1 := next[p1[i] := next[i]];
               var n2 := n1[i := n1[head]];
               var p2 := p1[i := head];
               n2[head] <= head && Linked(n2[head := i], p2[n2[head] := i], [i] + (lru[..m] + lru[m + 1..]))
  {
    Unlinked(next, prev, lru, m);
    var i, rest := lru[m], lru[..m] + lru[m + 1..];
    assert i !in rest && Distinct(rest);
    Pushed(next[prev[i] := next[i]], prev[next[i] := prev[i]], rest, i);
  }
}
