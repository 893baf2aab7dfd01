/** The buffer cache of kernel/bio.c: values, and what bget, brelse, bpin and bunpin do to them. */
module BufCache {
  import opened Common
  import opened Blocks

  datatype Option<+T> = None | Some(value: T)

  datatype Buf = Buf(dev: nat, blockno: nat, valid: bool, refcnt: nat, data: Block)

  /** bufs is bcache.buf; lru lists its indices from head.next (most recent) to head.prev. */
  datatype Cache = Cache(bufs: seq<Buf>, lru: seq<nat>)

  predicate Key(b: Buf, dev: nat, blockno: nat) {
    b.dev == dev && b.blockno == blockno
  }

  /** The LRU list holds every buffer exactly once. */
  ghost predicate ListOk(c: Cache) {
    && (forall k :: 0 <= k < |c.lru| ==> c.lru[k] < |c.bufs|)
    && (forall i :: 0 <= i < |c.bufs| ==> i in c.lru)
    && Distinct(c.lru)
  }

  /** At most one buffer per block; binit leaves every buffer at (0, 0), so device 0 is excepted. */
  ghost predicate Unique(c: Cache) {
    forall i, j {:trigger Key(c.bufs[j], c.bufs[i].dev, c.bufs[i].blockno)}
      | 0 <= i < |c.bufs| && 0 <= j < |c.bufs| ::
      c.bufs[i].dev != 0 && Key(c.bufs[j], c.bufs[i].dev, c.bufs[i].blockno) ==> i == j
  }

  /** Two buffers of one block are the same buffer. */
  lemma OneBuffer(c: Cache, i: nat, j: nat)
    requires Unique(c) && i < |c.bufs| && j < |c.bufs|
    requires c.bufs[i].dev != 0 && c.bufs[j].dev == c.bufs[i].dev && c.bufs[j].blockno == c.bufs[i].blockno
    ensures i == j
  {
    assert Key(c.bufs[j], c.bufs[i].dev, c.bufs[i].blockno);
  }

  lemma SameKeysUnique(c: Cache, d: Cache)
    requires Unique(c) && |d.bufs| == |c.bufs|
    requires forall i :: 0 <= i < |c.bufs| ==> d.bufs[i].dev == c.bufs[i].dev && d.bufs[i].blockno == c.bufs[i].blockno
    ensures Unique(d)
  {
    forall i, j | 0 <= i < |d.bufs| && 0 <= j < |d.bufs|
      ensures d.bufs[i].dev != 0 && Key(d.bufs[j], d.bufs[i].dev, d.bufs[i].blockno) ==> i == j
    {
      assert Key(c.bufs[j], c.bufs[i].dev, c.bufs[i].blockno) <==> Key(d.bufs[j], d.bufs[i].dev, d.bufs[i].blockno);
    }
  }

  /** The first scan of bget, from position k of the list towards its tail. */
  function Find(c: Cache, dev: nat, blockno: nat, k: nat): (r: Option<nat>)
    requires ListOk(c) && k <= |c.lru|
    ensures r.Some? ==> r.value < |c.bufs| && Key(c.bufs[r.value], dev, blockno)
    ensures r.None? ==> forall m :: k <= m < |c.lru| ==> !Key(c.bufs[c.lru[m]], dev, blockno)
    decreases |c.lru| - k
  {
    if k == |c.lru| then None
    else if Key(c.bufs[c.lru[k]], dev, blockno) then Some(c.lru[k])
    else Find(c, dev, blockno, k + 1)
  }

  /** The second scan of bget, from the tail of the list: the least recently used free buffer. */
  function Victim(c: Cache, k: nat): (r: Option<nat>)
    requires ListOk(c) && k <= |c.lru|
    ensures r.Some? ==> exists m :: 0 <= m < k && c.lru[m] == r.value && c.bufs[r.value].refcnt == 0
                                    && forall j :: m < j < k ==> c.bufs[c.lru[j]].refcnt != 0
    ensures r.None? ==> forall m :: 0 <= m < k ==> c.bufs[c.lru[m]].refcnt != 0
  {
    if k == 0 then None
    else if c.bufs[c.lru[k - 1]].refcnt == 0 then Some(c.lru[k - 1])
    else Victim(c, k - 1)
  }

  /** bget without the final acquiresleep; None is the panic "bget: no buffers". */
  function Get(c: Cache, dev: nat, blockno: nat): (r: Option<(Cache, nat)>)
    requires ListOk(c)
    ensures r.Some? ==>
              && r.value.1 < |c.bufs| == |r.value.0.bufs|
              && Key(r.value.0.bufs[r.value.1], dev, blockno)
  {
    match Find(c, dev, blockno, 0)
    case Some(i) => Some((c.(bufs := c.bufs[i := c.bufs[i].(refcnt := c.bufs[i].refcnt + 1)]), i))
    case None =>
      match Victim(c, |c.lru|)
      case Some(i) => Some((c.(bufs := c.bufs[i := Buf(dev, blockno, false, 1, c.bufs[i].data)]), i))
      case None => None
  }

  /** bread's fill of a locked buffer whose contents have not been read yet. */
  function Fill(c: Cache, i: nat, disk: Disk): Cache
    requires i < |c.bufs| && c.bufs[i].blockno < |disk|
  {
    if c.bufs[i].valid then c
    else c.(bufs := c.bufs[i := c.bufs[i].(valid := true, data := disk[c.bufs[i].blockno])])
  }

  function SetData(c: Cache, i: nat, data: Block): Cache
    requires i < |c.bufs|
  {
    c.(bufs := c.bufs[i := c.bufs[i].(data := data)])
  }

  function Pin(c: Cache, i: nat): Cache
    requires i < |c.bufs|
  {
    c.(bufs := c.bufs[i := c.bufs[i].(refcnt := c.bufs[i].refcnt + 1)])
  }

  function Unpin(c: Cache, i: nat): Cache
    requires i < |c.bufs| && c.bufs[i].refcnt > 0
  {
    c.(bufs := c.bufs[i := c.bufs[i].(refcnt := c.bufs[i].refcnt - 1)])
  }

  /** The list without buffer i. */
  function Without(lru: seq<nat>, i: nat): (r: seq<nat>)
    ensures forall x :: x in r <==> x in lru && x != i
    ensures Distinct(lru) ==> Distinct(r)
  {
    if lru == [] then []
    else
      assert lru == [lru[0]] + lru[1..];
      assert forall k :: 1 <= k < |lru| ==> lru[k] == lru[1..][k - 1];
      var w := Without(lru[1..], i);
      assert forall k | 0 <= k < |w| :: w[k] in w;
      if lru[0] == i then w else [lru[0]] + w
  }

  /** brelse after releasesleep: drop the reference, and move an unused buffer to the front. */
  function Release(c: Cache, i: nat): Cache
    requires i < |c.bufs| && c.bufs[i].refcnt > 0
  {
    var d := Unpin(c, i);
    if d.bufs[i].refcnt == 0 then d.(lru := [i] + Without(c.lru, i)) else d
  }

  /** binit: every buffer blank, each pushed in turn at the front of the list. */
  function Blank(n: nat): Cache {
    Cache(seq(n, _ => Buf(0, 0, false, 0, ZeroBlock())), seq(n, (k: int) requires 0 <= k < n => n - 1 - k))
  }

  lemma BlankOk(n: nat)
    ensures ListOk(Blank(n)) && Unique(Blank(n))
  {
    var c := Blank(n);
    forall i | 0 <= i < |c.bufs| ensures i in c.lru {
      assert c.lru[n - 1 - i] == i;
    }
  }

  /** Dropping a reference keeps the list a permutation of the buffers. */
  lemma ReleaseListOk(c: Cache, i: nat)
    requires ListOk(c) && i < |c.bufs| && c.bufs[i].refcnt > 0
    ensures ListOk(Release(c, i)) && (Unique(c) ==> Unique(Release(c, i)))
  {
    if Unique(c) { SameKeysUnique(c, Release(c, i)); }
    var w := Without(c.lru, i);
    var r := [i] + w;
    assert forall k | 0 <= k < |w| :: w[k] in w;
    forall j | 0 <= j < |c.bufs| ensures j in r {
      assert j == i || j in Without(c.lru, i);
    }
  }

  /** bget keeps the cache well formed, returns a buffer for the block, and never gives up
      a buffer that somebody still references. It fails exactly when the block is not cached
      and every buffer is referenced. */
  lemma GetOk(c: Cache, dev: nat, blockno: nat)
    requires ListOk(c) && Unique(c) && dev != 0
    ensures var r := Get(c, dev, blockno);
            match r
            case Some((d, i)) =>
              && i < |c.bufs| && |d.bufs| == |c.bufs| && d.lru == c.lru
              && ListOk(d) && Unique(d)
              && Key(d.bufs[i], dev, blockno)
              && d.bufs[i].refcnt == c.bufs[i].refcnt + 1
              && (forall j :: 0 <= j < |c.bufs| && j != i ==> d.bufs[j] == c.bufs[j])
              && (Key(c.bufs[i], dev, blockno) ==>
                    d.bufs[i].valid == c.bufs[i].valid && d.bufs[i].data == c.bufs[i].data)
              && (!Key(c.bufs[i], dev, blockno) ==>
                    c.bufs[i].refcnt == 0 && !d.bufs[i].valid
                    && forall j :: 0 <= j < |c.bufs| ==> !Key(c.bufs[j], dev, blockno))
            case None =>
              && (forall j :: 0 <= j < |c.bufs| ==> !Key(c.bufs[j], dev, blockno))
              && (forall j :: 0 <= j < |c.bufs| ==> c.bufs[j].refcnt != 0)
  {
    var f := Find(c, dev, blockno, 0);
    forall j | 0 <= j < |c.bufs| && f.None? ensures !Key(c.bufs[j], dev, blockno) {
      assert j in c.lru;
      var k :| 0 <= k < |c.lru| && c.lru[k] == j;
    }
    var v := Victim(c, |c.lru|);
    forall j | 0 <= j < |c.bufs| && v.None? ensures c.bufs[j].refcnt != 0 {
      assert j in c.lru;
      var k :| 0 <= k < |c.lru| && c.lru[k] == j;
    }
  }
}
