/** kernel/log.c in its own form, over the buffer cache of Bio. The trace of the cache records the disk
    after every block write, so a contract about the trace is a contract about every crash point. */
module Log {
  import opened Common
  import opened Blocks
  import opened BufCache
  import opened Bio
  import opened LogFormat

  /** Buffer i while this process alone uses the cache: referenced by its holder and by its pin only,
      and showing img for home blocks, the disk for the log area. */
  ghost predicate SteadyBuf(l: Layout, b: Buf, locked: bool, disk: Disk, pins: seq<nat>, img: Disk)
    requires |disk| == |img| == l.size
  {
    && (b.dev == 0 ==> !b.valid && b.refcnt == 0)
    && (b.dev != 0 ==> b.dev == DEV && b.blockno < l.size)
    && b.refcnt == (if locked then 1 else 0) + (if b.dev == DEV && b.blockno in pins then 1 else 0)
    && (locked ==> b.valid)
    && (b.valid ==> b.data == if Home(l, b.blockno) then img[b.blockno] else disk[b.blockno])
  }

  ghost predicate CachedAt(c: Cache, b: nat) {
    exists i :: 0 <= i < |c.bufs| && c.bufs[i].valid && Key(c.bufs[i], DEV, b)
  }

  ghost predicate Steady(l: Layout, c: Cache, locked: seq<bool>, disk: Disk, pins: seq<nat>, img: Disk) {
    && LayoutOk(l) && |disk| == |img| == l.size && |locked| == |c.bufs|
    && (forall i {:trigger SteadyBuf(l, c.bufs[i], locked[i], disk, pins, img)} ::
          0 <= i < |c.bufs| ==> SteadyBuf(l, c.bufs[i], locked[i], disk, pins, img))
    && (forall b {:trigger CachedAt(c, b)} :: b in pins ==> CachedAt(c, b))
    && (forall b :: Home(l, b) && b !in pins ==> disk[b] == img[b])
  }

  ghost predicate HasFree(c: Cache) {
    exists i :: 0 <= i < |c.bufs| && c.bufs[i].refcnt == 0
  }

  /** bget in a steady cache: hit an unlocked buffer, or recycle one that nobody uses. */
  lemma SteadyGet(l: Layout, c: Cache, locked: seq<bool>, disk: Disk, pins: seq<nat>, img: Disk, b: nat)
    requires Steady(l, c, locked, disk, pins, img) && ListOk(c) && Unique(c) && b < l.size
    requires forall i :: 0 <= i < |c.bufs| && Key(c.bufs[i], DEV, b) ==> !locked[i]
    requires HasFree(c) || b in pins
    ensures Get(c, DEV, b).Some? && !locked[Get(c, DEV, b).value.1]
    ensures b in pins ==> Key(c.bufs[Get(c, DEV, b).value.1], DEV, b)
  {
    GetOk(c, DEV, b);
    if b in pins { assert CachedAt(c, b); }
    var i := Get(c, DEV, b).value.1;
    assert SteadyBuf(l, c.bufs[i], locked[i], disk, pins, img);
  }

  lemma SteadyReadBufs(l: Layout, c: Cache, locked: seq<bool>, disk: Disk, pins: seq<nat>, img: Disk, b: nat, j: nat)
    requires Steady(l, c, locked, disk, pins, img) && ListOk(c) && Unique(c) && b < l.size
    requires Get(c, DEV, b).Some? && !locked[Get(c, DEV, b).value.1] && j < |c.bufs|
    requires b in pins ==> Key(c.bufs[Get(c, DEV, b).value.1], DEV, b)
    ensures var (d, i) := Get(c, DEV, b).value;
            SteadyBuf(l, Fill(d, i, disk).bufs[j], j == i || locked[j], disk, pins, img)
  {
    GetOk(c, DEV, b);
    if b in pins { assert CachedAt(c, b); }
    assert SteadyBuf(l, c.bufs[j], locked[j], disk, pins, img);
  }

  lemma SteadyReadPins(l: Layout, c: Cache, locked: seq<bool>, disk: Disk, pins: seq<nat>, img: Disk, b: nat, p: nat)
    requires Steady(l, c, locked, disk, pins, img) && ListOk(c) && Unique(c) && b < l.size
    requires Get(c, DEV, b).Some? && p in pins
    ensures var (d, i) := Get(c, DEV, b).value; CachedAt(Fill(d, i, disk), p)
  {
    GetOk(c, DEV, b);
    var (d, i) := Get(c, DEV, b).value;
    assert CachedAt(c, p);
    var j :| 0 <= j < |c.bufs| && c.bufs[j].valid && Key(c.bufs[j], DEV, p);
    assert SteadyBuf(l, c.bufs[j], locked[j], disk, pins, img);
    assert Fill(d, i, disk).bufs[j].valid && Key(Fill(d, i, disk).bufs[j], DEV, p);
  }

  /** bread in a steady cache locks the right buffer with the right contents. */
  lemma SteadyRead(l: Layout, c: Cache, locked: seq<bool>, disk: Disk, pins: seq<nat>, img: Disk, b: nat)
    requires Steady(l, c, locked, disk, pins, img) && ListOk(c) && Unique(c) && b < l.size
    requires forall i :: 0 <= i < |c.bufs| && Key(c.bufs[i], DEV, b) ==> !locked[i]
    requires HasFree(c) || b in pins
    ensures Get(c, DEV, b).Some?
    ensures var (d, i) := Get(c, DEV, b).value; var e := Fill(d, i, disk);
            && !locked[i] && e.bufs[i].valid && Key(e.bufs[i], DEV, b)
            && Steady(l, e, locked[i := true], disk, pins, img)
            && (forall j :: 0 <= j < |c.bufs| && j != i ==> e.bufs[j] == c.bufs[j])
  {
    SteadyGet(l, c, locked, disk, pins, img, b);
    GetOk(c, DEV, b);
    var (d, i) := Get(c, DEV, b).value;
    var e := Fill(d, i, disk);
    forall j | 0 <= j < |e.bufs| ensures SteadyBuf(l, e.bufs[j], locked[i := true][j], disk, pins, img) {
      SteadyReadBufs(l, c, locked, disk, pins, img, b, j);
    }
    forall p | p in pins ensures CachedAt(e, p) {
      SteadyReadPins(l, c, locked, disk, pins, img, b, p);
    }
  }

  /** brelse in a steady cache. */
  lemma SteadyRelease(l: Layout, c: Cache, locked: seq<bool>, disk: Disk, pins: seq<nat>, img: Disk, i: nat)
    requires Steady(l, c, locked, disk, pins, img) && i < |c.bufs| && locked[i]
    ensures c.bufs[i].refcnt > 0
    ensures Steady(l, Release(c, i), locked[i := false], disk, pins, img)
  {
    assert SteadyBuf(l, c.bufs[i], locked[i], disk, pins, img);
    var e := Release(c, i);
    forall j | 0 <= j < |e.bufs| ensures SteadyBuf(l, e.bufs[j], locked[i := false][j], disk, pins, img) {
      assert SteadyBuf(l, c.bufs[j], locked[j], disk, pins, img);
    }
    forall p | p in pins ensures CachedAt(e, p) {
      assert CachedAt(c, p);
      var j :| 0 <= j < |c.bufs| && c.bufs[j].valid && Key(c.bufs[j], DEV, p);
      assert e.bufs[j].valid && Key(e.bufs[j], DEV, p);
    }
  }

  /** Storing into a locked buffer and writing it to disk. */
  lemma SteadyWrite(l: Layout, c: Cache, locked: seq<bool>, disk: Disk, pins: seq<nat>, img: Disk, i: nat, data: Block)
    requires Steady(l, c, locked, disk, pins, img) && Unique(c) && i < |c.bufs| && locked[i]
    ensures c.bufs[i].blockno < l.size && c.bufs[i].dev == DEV
    ensures var b := c.bufs[i].blockno;
            Steady(l, SetData(c, i, data), locked, disk[b := data], pins, if Home(l, b) then img[b := data] else img)
  {
    var e := SetData(c, i, data);
    assert SteadyBuf(l, c.bufs[i], locked[i], disk, pins, img);
    var b := c.bufs[i].blockno;
    var disk', img' := disk[b := data], if Home(l, b) then img[b := data] else img;
    forall j | 0 <= j < |e.bufs| ensures SteadyBuf(l, e.bufs[j], locked[j], disk', pins, img') {
      assert SteadyBuf(l, c.bufs[j], locked[j], disk, pins, img);
      if c.bufs[j].valid && c.bufs[j].blockno == b { OneBuffer(c, i, j); }
    }
    forall p | p in pins ensures CachedAt(e, p) {
      assert CachedAt(c, p);
      var j :| 0 <= j < |c.bufs| && c.bufs[j].valid && Key(c.bufs[j], DEV, p);
      assert e.bufs[j].valid && Key(e.bufs[j], DEV, p);
    }
  }

  /** bunpin of a block that has reached home. */
  lemma SteadyUnpin(l: Layout, c: Cache, locked: seq<bool>, disk: Disk, pins: seq<nat>, img: Disk, i: nat)
    requires Steady(l, c, locked, disk, pins, img) && Unique(c) && i < |c.bufs| && locked[i]
    requires pins != [] && c.bufs[i].blockno == pins[0] && pins[0] !in pins[1..]
    requires pins[0] < l.size && disk[pins[0]] == img[pins[0]]
    ensures c.bufs[i].refcnt > 0 && Steady(l, Unpin(c, i), locked, disk, pins[1..], img)
  {
    assert SteadyBuf(l, c.bufs[i], locked[i], disk, pins, img);
    var e := Unpin(c, i);
    assert forall p :: p in pins <==> p == pins[0] || p in pins[1..];
    forall j | 0 <= j < |e.bufs| ensures SteadyBuf(l, e.bufs[j], locked[j], disk, pins[1..], img) {
      assert SteadyBuf(l, c.bufs[j], locked[j], disk, pins, img);
      if c.bufs[j].dev == DEV && c.bufs[j].blockno == pins[0] { OneBuffer(c, i, j); }
    }
    forall p | p in pins[1..] ensures CachedAt(e, p) {
      assert CachedAt(c, p);
      var j :| 0 <= j < |c.bufs| && c.bufs[j].valid && Key(c.bufs[j], DEV, p);
      assert e.bufs[j].valid && Key(e.bufs[j], DEV, p);
    }
  }

  /** Only the home blocks of img matter. */
  lemma SteadyImage(l: Layout, c: Cache, locked: seq<bool>, disk: Disk, pins: seq<nat>, img: Disk, img': Disk)
    requires Steady(l, c, locked, disk, pins, img) && HomeEq(l, img, img')
    ensures Steady(l, c, locked, disk, pins, img')
  {
    forall i | 0 <= i < |c.bufs| ensures SteadyBuf(l, c.bufs[i], locked[i], disk, pins, img') {
      assert SteadyBuf(l, c.bufs[i], locked[i], disk, pins, img);
    }
  }

  ghost predicate AllUnlocked(locked: seq<bool>) {
    forall i :: 0 <= i < |locked| ==> !locked[i]
  }

  lemma FreeUnlessLocked(l: Layout, c: Cache, locked: seq<bool>, disk: Disk, img: Disk, i: nat)
    requires Steady(l, c, locked, disk, [], img) && i < |c.bufs| && !locked[i]
    ensures c.bufs[i].refcnt == 0 && HasFree(c)
  {
    assert SteadyBuf(l, c.bufs[i], locked[i], disk, [], img);
  }

  /** A crash that leaves disk d loses nothing: recovery gives the home blocks of img. */
  ghost predicate Leads(l: Layout, d: Disk, img: Disk) {
    DiskOk(l, d) && HomeEq(l, Recovered(l, d), img)
  }

  lemma CommitTraceAt(l: Layout, d: Disk, lh: seq<nat>, img: Disk, t0: seq<Disk>, k: nat)
    requires DiskOk(l, d) && HeaderOf(d[l.start]) == [] && |img| == l.size && LogOk(l, lh)
    requires forall b :: Home(l, b) && b !in lh ==> d[b] == img[b]
    requires |t0| <= k < |t0 + CommitWrites(l, d, lh, img)|
    ensures Leads(l, (t0 + CommitWrites(l, d, lh, img))[k], if k < |t0| + |lh| then d else img)
  {
    CommitWritesSafe(l, d, lh, img, k - |t0|);
  }


  lemma CommitTrace(l: Layout, d: Disk, lh: seq<nat>, img: Disk, t0: seq<Disk>)
    requires DiskOk(l, d) && HeaderOf(d[l.start]) == [] && |img| == l.size && LogOk(l, lh)
    requires forall b :: Home(l, b) && b !in lh ==> d[b] == img[b]
    ensures var t := t0 + CommitWrites(l, d, lh, img);
            forall k :: |t0| <= k < |t| ==> Leads(l, t[k], if k < |t0| + |lh| then d else img)
  {
    var t := t0 + CommitWrites(l, d, lh, img);
    forall k | |t0| <= k < |t| ensures Leads(l, t[k], if k < |t0| + |lh| then d else img) {
      CommitTraceAt(l, d, lh, img, t0, k);
    }
  }

  lemma RecoverTrace(l: Layout, d: Disk, t0: seq<Disk>)
    requires DiskOk(l, d)
    ensures var t := t0 + RecoverWrites(l, d);
            forall k :: |t0| <= k < |t| ==> Leads(l, t[k], Recovered(l, d))
  {
    var w := RecoverWrites(l, d);
    forall k | |t0| <= k < |t0 + w| ensures Leads(l, (t0 + w)[k], Recovered(l, d)) {
      assert (t0 + w)[k] == w[k - |t0|];
      RecoverWritesSafe(l, d, k - |t0|);
    }
  }

  /** After the copy loop and write_head the slots hold the blocks that the header names. */
  lemma SlotsFilled(l: Layout, d: Disk, block: seq<nat>, n: nat, img: Disk)
    requires LayoutOk(l) && |d| == |img| == l.size && n <= |block| && LogOk(l, block[..n])
    ensures forall t :: 0 <= t < n ==> Headed(l, d, block[..n], img)[l.start + t + 1] == img[block[t]]
  {
    HeadedSlots(l, d, block[..n], img);
    forall t | 0 <= t < n ensures Headed(l, d, block[..n], img)[l.start + t + 1] == img[block[t]] {
      assert block[..n][t] == block[t];
    }
  }

  /** One install: the slot is as it was, and taking it home is the next disk of Install. */
  lemma InstallTurn(l: Layout, d: Disk, block: seq<nat>, n: nat, tail: nat, trace: seq<Disk>)
    requires LayoutOk(l) && |d| == l.size && tail < n <= |block| && LogOk(l, block[..n])
    ensures var e := Install(l, d, block[..n], tail);
            && |e| == l.size && block[tail] < l.size && e[l.start + tail + 1] == d[l.start + tail + 1]
            && e[block[tail] := e[l.start + tail + 1]] == Install(l, d, block[..n], tail + 1)
            && trace + InstallWrites(l, d, block[..n], tail) + [Install(l, d, block[..n], tail + 1)]
               == trace + InstallWrites(l, d, block[..n], tail + 1)
  {
    var lh := block[..n];
    assert lh[tail] == block[tail];
    InstallAt(l, d, lh, tail, l.start + tail + 1);
    assert forall t :: 0 <= t < |lh| ==> lh[t] != l.start + tail + 1;
  }


  class Log {
    const bc: BCache
    const l: Layout
    var n: nat
    var block: seq<nat>
    var outstanding: int
    var committing: bool

    /** The in-memory header. */
    ghost predicate HeaderValid()
      reads this
    {
      LayoutOk(l) && |block| == LOGBLOCKS && n <= LOGBLOCKS && LogOk(l, block[..n])
    }

    /** Nobody else is using the cache; pins are the blocks whose buffers the log holds on to,
        and img is what the home blocks should hold. */
    ghost predicate Ready(pins: seq<nat>, img: Disk)
      reads this, bc
    {
      bc.Valid() && AllUnlocked(bc.locked) && Steady(l, bc.C(), bc.locked, bc.disk, pins, img)
    }

    constructor (bc: BCache, l: Layout)
      requires LayoutOk(l) && bc.Valid() && |bc.disk| == l.size
      ensures HeaderValid() && this.bc == bc && this.l == l && n == 0 && outstanding == 0 && !committing
    {
      this.bc, this.l := bc, l;
      n, block, outstanding, committing := 0, seq(LOGBLOCKS, _ => 0), 0, false;
    }

    ghost predicate Using(pins: seq<nat>, img: Disk)
      reads this, bc
    {
      bc.Valid() && Steady(l, bc.C(), bc.locked, bc.disk, pins, img)
    }

    /** bread of a block whose buffer, if any, is unlocked. */
    method ReadBlock(b: nat, ghost pins: seq<nat>, ghost img: Disk) returns (i: nat)
      requires Using(pins, img) && b < l.size && (HasFree(bc.C()) || b in pins)
      requires forall i :: 0 <= i < |bc.bufs| && Key(bc.bufs[i], DEV, b) ==> !bc.locked[i]
      modifies bc
      ensures Using(pins, img) && bc.disk == old(bc.disk) && bc.trace == old(bc.trace)
      ensures |bc.bufs| == |old(bc.bufs)| && i < |bc.bufs| && !old(bc.locked)[i]
      ensures bc.locked == old(bc.locked)[i := true]
      ensures Key(bc.bufs[i], DEV, b) && bc.bufs[i].data == if Home(l, b) then img[b] else bc.disk[b]
      ensures forall j :: 0 <= j < |bc.bufs| && j != i ==> bc.bufs[j] == old(bc.bufs)[j]
    {
      SteadyRead(l, bc.C(), bc.locked, bc.disk, pins, img, b);
      assert forall i :: 0 <= i < |bc.bufs| ==> SteadyBuf(l, bc.bufs[i], bc.locked[i], bc.disk, pins, img);
      var r := bc.Bread(DEV, b);
      i := r.value;
      assert SteadyBuf(l, bc.bufs[i], bc.locked[i], bc.disk, pins, img);
    }

    /** memmove into a locked buffer, then bwrite: the log area, or a home block's final value. */
    method WriteBlock(i: nat, data: Block, ghost pins: seq<nat>, ghost img: Disk)
      requires Using(pins, img) && i < |bc.bufs| && bc.locked[i]
      requires bc.bufs[i].blockno < l.size && (!Home(l, bc.bufs[i].blockno) || data == img[bc.bufs[i].blockno])
      modifies bc
      ensures Using(pins, img) && bc.locked == old(bc.locked)
      ensures bc.bufs == old(bc.bufs)[i := old(bc.bufs)[i].(data := data)]
      ensures bc.disk == old(bc.disk)[old(bc.bufs)[i].blockno := data] && bc.trace == old(bc.trace) + [bc.disk]
    {
      SteadyWrite(l, bc.C(), bc.locked, bc.disk, pins, img, i, data);
      assert Home(l, bc.bufs[i].blockno) ==> img[bc.bufs[i].blockno := data] == img;
      bc.Store(i, data);
      bc.Bwrite(i);
    }

    /** memmove into a locked buffer, then bwrite, while booting: the disk itself is what counts. */
    method WriteBoot(i: nat, data: Block)
      requires Using([], bc.disk) && i < |bc.bufs| && bc.locked[i]
      requires bc.bufs[i].blockno < l.size && Home(l, bc.bufs[i].blockno)
      modifies bc
      ensures Using([], bc.disk) && bc.locked == old(bc.locked)
      ensures bc.bufs == old(bc.bufs)[i := old(bc.bufs)[i].(data := data)]
      ensures bc.disk == old(bc.disk)[old(bc.bufs)[i].blockno := data] && bc.trace == old(bc.trace) + [bc.disk]
    {
      SteadyWrite(l, bc.C(), bc.locked, bc.disk, [], bc.disk, i, data);
      bc.Store(i, data);
      bc.Bwrite(i);
    }

    /** brelse. */
    method ReleaseBlock(i: nat, ghost pins: seq<nat>, ghost img: Disk)
      requires Using(pins, img) && i < |bc.bufs| && bc.locked[i]
      modifies bc
      ensures Using(pins, img) && bc.locked == old(bc.locked)[i := false]
      ensures bc.disk == old(bc.disk) && bc.trace == old(bc.trace)
      ensures |bc.bufs| == |old(bc.bufs)| && forall j :: 0 <= j < |bc.bufs| && j != i ==> bc.bufs[j] == old(bc.bufs)[j]
      ensures bc.bufs[i] == old(bc.bufs)[i].(refcnt := bc.bufs[i].refcnt)
      ensures bc.bufs[i].blockno !in pins ==> bc.bufs[i].refcnt == 0
    {
      SteadyRelease(l, bc.C(), bc.locked, bc.disk, pins, img, i);
      bc.Brelse(i);
      assert SteadyBuf(l, bc.bufs[i], bc.locked[i], bc.disk, pins, img);
    }

    /** bunpin of a block that has reached home. */
    method UnpinBlock(i: nat, ghost pins: seq<nat>, ghost img: Disk)
      requires Using(pins, img) && i < |bc.bufs| && bc.locked[i]
      requires pins != [] && bc.bufs[i].blockno == pins[0] && pins[0] !in pins[1..]
      requires pins[0] < l.size && bc.disk[pins[0]] == img[pins[0]]
      modifies bc
      ensures Using(pins[1..], img) && bc.locked == old(bc.locked)
      ensures bc.disk == old(bc.disk) && bc.trace == old(bc.trace)
      ensures |bc.bufs| == |old(bc.bufs)|
      ensures forall j :: 0 <= j < |bc.bufs| ==> bc.bufs[j] == old(bc.bufs)[j].(refcnt := bc.bufs[j].refcnt)
    {
      SteadyUnpin(l, bc.C(), bc.locked, bc.disk, pins, img, i);
      bc.Bunpin(i);
    }

    /** Exactly the buffers i and j are locked. */
    ghost predicate LockedTwo(i: nat, j: nat)
      reads bc
    {
      i != j && i < |bc.locked| && j < |bc.locked| && forall k :: 0 <= k < |bc.locked| ==> (bc.locked[k] <==> k == i || k == j)
    }

    /** Two breads in a row. */
    method ReadTwo(a: nat, b: nat, ghost pins: seq<nat>, ghost img: Disk) returns (i: nat, j: nat)
      requires Ready(pins, img) && a < l.size && b < l.size && a != b
      requires HasFree(bc.C()) && (b in pins || (pins == [] && |bc.bufs| >= 2))
      modifies bc
      ensures Using(pins, img) && LockedTwo(i, j) && bc.disk == old(bc.disk) && bc.trace == old(bc.trace)
      ensures |bc.bufs| == |old(bc.bufs)| == |bc.locked| && Key(bc.bufs[i], DEV, a) && Key(bc.bufs[j], DEV, b)
      ensures bc.bufs[i].data == if Home(l, a) then img[a] else bc.disk[a]
      ensures bc.bufs[j].data == if Home(l, b) then img[b] else bc.disk[b]
    {
      i := ReadBlock(a, pins, img);
      if b !in pins && pins == [] {
        FreeUnlessLocked(l, bc.C(), bc.locked, bc.disk, img, if i == 0 then 1 else 0);
      }
      j := ReadBlock(b, pins, img);
    }

    /** Two brelses in a row. */
    method ReleaseTwo(i: nat, j: nat, ghost pins: seq<nat>, ghost img: Disk)
      requires Using(pins, img) && |bc.locked| == |bc.bufs| && LockedTwo(i, j)
      requires bc.bufs[i].blockno !in pins || bc.bufs[j].blockno !in pins
      modifies bc
      ensures Ready(pins, img) && HasFree(bc.C()) && |bc.bufs| == |old(bc.bufs)|
      ensures bc.disk == old(bc.disk) && bc.trace == old(bc.trace)
    {
      ReleaseBlock(i, pins, img);
      ReleaseBlock(j, pins, img);
      if bc.bufs[i].blockno !in pins {
        assert bc.C().bufs[i].refcnt == 0;
      } else {
        assert bc.C().bufs[j].refcnt == 0;
      }
    }

    /** One turn of write_log: copy the tail-th logged block from the cache to its log slot. */
    method CopyToSlot(tail: nat, ghost img: Disk)
      requires HeaderValid() && tail < n && Ready(block[..n], img) && HasFree(bc.C())
      modifies bc
      ensures Ready(block[..n], img) && HasFree(bc.C())
      ensures bc.disk == old(bc.disk)[l.start + tail + 1 := img[block[tail]]] && bc.trace == old(bc.trace) + [bc.disk]
    {
      ghost var pins := block[..n];
      assert block[tail] == pins[tail] && pins[tail] in pins && l.start + tail + 1 !in pins;
      var to, from := ReadTwo(l.start + tail + 1, block[tail], pins, img);
      WriteBlock(to, bc.bufs[from].data, pins, img);
      ReleaseTwo(from, to, pins, img);
    }

    /** One turn of install_trans(0): copy a slot to its home location and unpin the buffer. */
    method InstallFromSlot(tail: nat, ghost img: Disk)
      requires HeaderValid() && tail < n && Ready(block[tail..n], img) && HasFree(bc.C())
      requires bc.disk[l.start + tail + 1] == img[block[tail]]
      modifies bc
      ensures Ready(block[tail + 1..n], img) && HasFree(bc.C())
      ensures bc.disk == old(bc.disk)[block[tail] := old(bc.disk)[l.start + tail + 1]]
      ensures bc.trace == old(bc.trace) + [bc.disk]
    {
      ghost var pins, rest := block[tail..n], block[tail + 1..n];
      PinsSplit(l, block, n, tail);
      var lbuf, dbuf := ReadTwo(l.start + tail + 1, block[tail], pins, img);
      WriteBlock(dbuf, bc.bufs[lbuf].data, pins, img);
      UnpinBlock(dbuf, pins, img);
      ReleaseTwo(lbuf, dbuf, rest, img);
    }

    /** One turn of install_trans(1): copy a slot to its home location while booting. */
    method ReplayFromSlot(tail: nat)
      requires HeaderValid() && tail < n && Ready([], bc.disk) && |bc.bufs| >= 2
      modifies bc
      ensures Ready([], bc.disk) && |bc.bufs| == |old(bc.bufs)|
      ensures bc.disk == old(bc.disk)[block[tail] := old(bc.disk)[l.start + tail + 1]]
      ensures bc.trace == old(bc.trace) + [bc.disk]
    {
      assert Home(l, block[..n][tail]);
      FreeUnlessLocked(l, bc.C(), bc.locked, bc.disk, bc.disk, 0);
      var lbuf, dbuf := ReadTwo(l.start + tail + 1, block[tail], [], bc.disk);
      WriteBoot(dbuf, bc.bufs[lbuf].data);
      ReleaseTwo(lbuf, dbuf, [], bc.disk);
    }

    /** write_log */
    method WriteLog(ghost img: Disk)
      requires HeaderValid() && Ready(block[..n], img) && HasFree(bc.C())
      modifies bc
      ensures Ready(block[..n], img) && HasFree(bc.C())
      ensures bc.disk == CopySlots(l, old(bc.disk), block[..n], img, n)
      ensures bc.trace == old(bc.trace) + CopyWrites(l, old(bc.disk), block[..n], img, n)
    {
      var tail := 0;
      while tail < n
        invariant tail <= n && Ready(block[..n], img) && HasFree(bc.C())
        invariant |old(bc.disk)| == l.size && bc.disk == CopySlots(l, old(bc.disk), block[..n], img, tail)
        invariant bc.trace == old(bc.trace) + CopyWrites(l, old(bc.disk), block[..n], img, tail)
      {
        CopyNext(tail, img, old(bc.disk), old(bc.trace));
        tail := tail + 1;
      }
    }

    /** One turn of the copy loop, after disk d and the trace so far. */
    method CopyNext(tail: nat, ghost img: Disk, ghost d: Disk, ghost trace: seq<Disk>)
      requires HeaderValid() && tail < n && Ready(block[..n], img) && HasFree(bc.C()) && |d| == l.size
      requires bc.disk == CopySlots(l, d, block[..n], img, tail) && bc.trace == trace + CopyWrites(l, d, block[..n], img, tail)
      modifies bc
      ensures Ready(block[..n], img) && HasFree(bc.C())
      ensures bc.disk == CopySlots(l, d, block[..n], img, tail + 1) && bc.trace == trace + CopyWrites(l, d, block[..n], img, tail + 1)
    {
      ghost var lh := block[..n];
      assert lh[tail] == block[tail];
      CopyToSlot(tail, img);
      assert bc.disk == CopySlots(l, d, lh, img, tail + 1);
    }

    /** The header block with n and the block numbers in it. */
    method FillHead(data: Block) returns (hb: Block)
      requires HeaderValid()
      ensures hb == PutHeader(data, block[..n])
    {
      hb := PutWord(data, 0, n);
      ghost var lh := block[..n];
      var i := 0;
      while i < n
        invariant i <= n && hb == PutEntries(data, lh, i)
      {
        assert block[i] == lh[i];
        hb := PutWord(hb, i + 1, block[i]);
        i := i + 1;
      }
    }

    /** write_head: store n and the block numbers over the old header block. */
    method WriteHead(ghost pins: seq<nat>, ghost img: Disk)
      requires HeaderValid() && Ready(pins, img) && HasFree(bc.C()) && l.start !in pins
      modifies bc
      ensures Ready(pins, img) && HasFree(bc.C()) && |bc.bufs| == |old(bc.bufs)|
      ensures bc.disk == old(bc.disk)[l.start := PutHeader(old(bc.disk)[l.start], block[..n])]
      ensures bc.trace == old(bc.trace) + [bc.disk]
    {
      var buf := ReadBlock(l.start, pins, img);
      var hb := FillHead(bc.bufs[buf].data);
      WriteBlock(buf, hb, pins, img);
      ReleaseBlock(buf, pins, img);
      assert bc.C().bufs[buf].refcnt == 0;
    }

    /** read_head: the kernel trusts the count it finds on disk. */
    method ReadHead()
      requires LayoutOk(l) && |block| == LOGBLOCKS && Ready([], bc.disk) && DiskOk(l, bc.disk) && |bc.bufs| >= 2
      modifies this, bc
      ensures HeaderValid() && Ready([], bc.disk) && bc.disk == old(bc.disk) && bc.trace == old(bc.trace)
      ensures |bc.bufs| == |old(bc.bufs)|
      ensures block[..n] == HeaderOf(bc.disk[l.start])
      ensures outstanding == old(outstanding) && committing == old(committing)
    {
      ghost var img := bc.disk;
      FreeUnlessLocked(l, bc.C(), bc.locked, bc.disk, bc.disk, 0);
      var buf := ReadBlock(l.start, [], img);
      var lh := bc.bufs[buf].data;
      n := GetWord(lh, 0);
      var i := 0;
      while i < n
        invariant i <= n == GetWord(lh, 0) <= LOGBLOCKS == |block|
        invariant block[..i] == HeaderOf(lh)[..i]
        modifies this`block
      {
        block := block[i := GetWord(lh, i + 1)];
        assert block[..i + 1] == block[..i] + [GetWord(lh, i + 1)];
        i := i + 1;
      }
      assert HeaderOf(lh)[..n] == HeaderOf(lh);
      ReleaseBlock(buf, [], img);
    }

    /** One turn of install_trans, on disk and in the trace of writes. */
    method InstallNext(tail: nat, ghost img: Disk, ghost d: Disk, ghost trace: seq<Disk>)
      requires HeaderValid() && tail < n && Ready(block[tail..n], img) && HasFree(bc.C()) && |d| == l.size
      requires forall t :: 0 <= t < n ==> d[l.start + t + 1] == img[block[t]]
      requires bc.disk == Install(l, d, block[..n], tail) && bc.trace == trace + InstallWrites(l, d, block[..n], tail)
      modifies bc
      ensures Ready(block[tail + 1..n], img) && HasFree(bc.C())
      ensures bc.disk == Install(l, d, block[..n], tail + 1) && bc.trace == trace + InstallWrites(l, d, block[..n], tail + 1)
    {
      InstallTurn(l, d, block, n, tail, trace);
      InstallFromSlot(tail, img);
    }

    /** install_trans(0) */
    method InstallTrans(ghost img: Disk)
      requires HeaderValid() && Ready(block[..n], img) && HasFree(bc.C())
      requires forall t :: 0 <= t < n ==> bc.disk[l.start + t + 1] == img[block[t]]
      modifies bc
      ensures Ready([], img) && HasFree(bc.C())
      ensures bc.disk == Install(l, old(bc.disk), block[..n], n)
      ensures bc.trace == old(bc.trace) + InstallWrites(l, old(bc.disk), block[..n], n)
    {
      ghost var d, lh := bc.disk, block[..n];
      var tail := 0;
      assert block[0..n] == lh;
      while tail < n
        invariant tail <= n && Ready(block[tail..n], img) && HasFree(bc.C())
        invariant bc.disk == Install(l, d, lh, tail)
        invariant bc.trace == old(bc.trace) + InstallWrites(l, d, lh, tail)
      {
        InstallNext(tail, img, d, old(bc.trace));
        tail := tail + 1;
      }
      assert block[n..n] == [];
    }

    /** install_trans(1) */
    method ReplayTrans()
      requires HeaderValid() && Ready([], bc.disk) && |bc.bufs| >= 2
      modifies bc
      ensures Ready([], bc.disk) && |bc.bufs| == |old(bc.bufs)|
      ensures bc.disk == Install(l, old(bc.disk), block[..n], n)
      ensures bc.trace == old(bc.trace) + InstallWrites(l, old(bc.disk), block[..n], n)
    {
      ghost var d, lh := bc.disk, block[..n];
      var tail := 0;
      while tail < n
        invariant tail <= n && Ready([], bc.disk) && |bc.bufs| == |old(bc.bufs)|
        invariant bc.disk == Install(l, d, lh, tail)
        invariant bc.trace == old(bc.trace) + InstallWrites(l, d, lh, tail)
      {
        assert lh[tail] == block[tail];
        ReplayFromSlot(tail);
        tail := tail + 1;
      }
    }

    /** recover_from_log: the disk goes through exactly the states of RecoverDisk and ends recovered. */
    method RecoverFromLog()
      requires LayoutOk(l) && |block| == LOGBLOCKS && Ready([], bc.disk) && DiskOk(l, bc.disk) && |bc.bufs| >= 2
      modifies this, bc
      ensures HeaderValid() && n == 0 && Ready([], bc.disk) && HasFree(bc.C())
      ensures bc.disk == Recovered(l, old(bc.disk))
      ensures bc.trace == old(bc.trace) + RecoverWrites(l, old(bc.disk))
      ensures forall k :: |old(bc.trace)| <= k < |bc.trace| ==> Leads(l, bc.trace[k], Recovered(l, old(bc.disk)))
    {
      ReadHead();
      ReplayTrans();
      n := 0;
      FreeUnlessLocked(l, bc.C(), bc.locked, bc.disk, bc.disk, 0);
      ghost var img := bc.disk;
      WriteHead([], img);
      SteadyImage(l, bc.C(), bc.locked, bc.disk, [], img, bc.disk);
      RecoverTrace(l, old(bc.disk), old(bc.trace));
    }

    /** commit: the disk goes through exactly the states of CommitDisk, and ends with every logged block
        at home and the log empty. The first bread needs a buffer that no logged block occupies. */
    method Commit(ghost img: Disk)
      requires HeaderValid() && Ready(block[..n], img) && (n > 0 ==> HasFree(bc.C()))
      modifies this, bc
      ensures HeaderValid() && n == 0 && Ready([], img)
      ensures outstanding == old(outstanding) && committing == old(committing)
      ensures old(n) == 0 ==> bc.disk == old(bc.disk) && bc.trace == old(bc.trace)
      ensures old(n) > 0 ==>
                && bc.disk == CommitDisk(l, old(bc.disk), old(block[..n]), img, 2 * old(n) + 2)
                && bc.trace == old(bc.trace) + CommitWrites(l, old(bc.disk), old(block[..n]), img)
      ensures DiskOk(l, old(bc.disk)) && HeaderOf(old(bc.disk)[l.start]) == [] ==>
                forall k :: |old(bc.trace)| <= k < |bc.trace| ==>
                  Leads(l, bc.trace[k], if k < |old(bc.trace)| + old(n) then old(bc.disk) else img)
    {
      if n > 0 {
        ghost var lh := block[..n];
        LogAndHead(img);
        InstallAndErase(img);
        CommitWritesJoin(l, old(bc.disk), lh, img, old(bc.trace));
        if DiskOk(l, old(bc.disk)) && HeaderOf(old(bc.disk)[l.start]) == [] {
          CommitTrace(l, old(bc.disk), lh, img, old(bc.trace));
        }
      }
    }

    /** The first half of commit. */
    method LogAndHead(ghost img: Disk)
      requires HeaderValid() && Ready(block[..n], img) && HasFree(bc.C())
      modifies bc
      ensures Ready(block[..n], img) && HasFree(bc.C())
      ensures bc.disk == Headed(l, old(bc.disk), block[..n], img)
      ensures bc.trace == old(bc.trace) + (CopyWrites(l, old(bc.disk), block[..n], img, n) + [bc.disk])
      ensures forall t :: 0 <= t < n ==> bc.disk[l.start + t + 1] == img[block[t]]
    {
      SlotsFilled(l, bc.disk, block, n, img);
      CopyAndHead(img);
    }

    method CopyAndHead(ghost img: Disk)
      requires HeaderValid() && Ready(block[..n], img) && HasFree(bc.C())
      modifies bc
      ensures Ready(block[..n], img) && HasFree(bc.C())
      ensures bc.disk == Headed(l, old(bc.disk), block[..n], img)
      ensures bc.trace == old(bc.trace) + (CopyWrites(l, old(bc.disk), block[..n], img, n) + [bc.disk])
    {
      WriteLog(img);
      WriteHead(block[..n], img);
    }

    /** The second half of commit. */
    method InstallAndErase(ghost img: Disk)
      requires HeaderValid() && Ready(block[..n], img) && HasFree(bc.C())
      requires forall t :: 0 <= t < n ==> bc.disk[l.start + t + 1] == img[block[t]]
      modifies this, bc
      ensures HeaderValid() && n == 0 && Ready([], img)
      ensures outstanding == old(outstanding) && committing == old(committing)
      ensures bc.disk == Erased(l, Install(l, old(bc.disk), old(block[..n]), old(n)))
      ensures bc.trace == old(bc.trace) + (InstallWrites(l, old(bc.disk), old(block[..n]), old(n)) + [bc.disk])
    {
      InstallTrans(img);
      n := 0;
      WriteHead([], img);
    }

    /** log_write of the locked buffer i; false is the panic "too big a transaction" or
        "log_write outside of trans". A block already in the log is absorbed. */
    method LogWrite(i: nat) returns (ok: bool)
      requires HeaderValid() && bc.Valid() && i < |bc.bufs| && Home(l, bc.bufs[i].blockno)
      modifies this, bc
      ensures ok <==> old(n) < LOGBLOCKS && outstanding >= 1
      ensures HeaderValid() && bc.Valid() && outstanding == old(outstanding) && committing == old(committing)
      ensures bc.disk == old(bc.disk) && bc.trace == old(bc.trace) && bc.locked == old(bc.locked)
      ensures var b := old(bc.bufs[i].blockno);
              if ok then
                && block[..n] == Absorb(old(block[..n]), b)
                && bc.C() == if b in old(block[..n]) then old(bc.C()) else Pin(old(bc.C()), i)
              else block[..n] == old(block[..n]) && bc.C() == old(bc.C())
    {
      if n >= LOGBLOCKS || outstanding < 1 {
        return false;
      }
      var k := 0;
      while k < n && block[k] != bc.bufs[i].blockno
        invariant k <= n && bc.bufs[i].blockno !in block[..k]
      {
        k := k + 1;
      }
      ghost var lh := block[..n];
      block := block[k := bc.bufs[i].blockno];
      if k == n {
        assert lh[..n] == lh;
        bc.Bpin(i);
        n := n + 1;
        assert block[..n] == lh + [bc.bufs[i].blockno];
      } else {
        assert lh[k] == bc.bufs[i].blockno;
        assert block[..n] == lh;
      }
      return true;
    }

    /** One pass of begin_op's loop; false means the caller sleeps until the log changes. */
    method BeginOp() returns (admitted: bool)
      requires HeaderValid()
      modifies this
      ensures HeaderValid() && n == old(n) && block == old(block) && committing == old(committing)
      ensures admitted <==> !committing && n + (old(outstanding) + 1) * MAXOPBLOCKS <= LOGBLOCKS
      ensures outstanding == if admitted then old(outstanding) + 1 else old(outstanding)
    {
      if committing || n + (outstanding + 1) * MAXOPBLOCKS > LOGBLOCKS {
        return false;
      }
      outstanding := outstanding + 1;
      return true;
    }

    /** end_op: the last operation of a group commits it. Reaching end_op while a commit runs is a panic. */
    method EndOp(ghost img: Disk)
      requires HeaderValid() && !committing
      requires outstanding == 1 ==> Ready(block[..n], img) && (n > 0 ==> HasFree(bc.C()))
      modifies this, bc
      ensures HeaderValid() && !committing && outstanding == old(outstanding) - 1
      ensures old(outstanding) == 1 ==> n == 0 && Ready([], img) && HomeEq(l, bc.disk, img)
      ensures old(outstanding) != 1 ==>
                n == old(n) && block == old(block) && bc.C() == old(bc.C()) && bc.disk == old(bc.disk)
    {
      outstanding := outstanding - 1;
      if outstanding == 0 {
        committing := true;
        Commit(img);
        committing := false;
      }
    }
  }

  lemma CommitWritesJoin(l: Layout, d: Disk, lh: seq<nat>, img: Disk, t0: seq<Disk>)
    requires LayoutOk(l) && |d| == |img| == l.size && LogOk(l, lh)
    ensures var h := Headed(l, d, lh, img);
            t0 + (CopyWrites(l, d, lh, img, |lh|) + [h])
              + (InstallWrites(l, h, lh, |lh|) + [Erased(l, Install(l, h, lh, |lh|))])
            == t0 + CommitWrites(l, d, lh, img)
  {
  }

  lemma PinsSplit(l: Layout, block: seq<nat>, n: nat, tail: nat)
    requires tail < n <= |block| && LogOk(l, block[..n])
    ensures var pins := block[tail..n];
            && pins[0] == block[tail] && pins[1..] == block[tail + 1..n] && pins[0] !in pins[1..]
            && pins[0] in pins && Home(l, block[tail]) && l.start + tail + 1 !in pins
  {
    var lh, pins := block[..n], block[tail..n];
    assert forall k :: 0 <= k < |pins| ==> pins[k] == lh[tail + k] && Home(l, lh[tail + k]);
    assert forall k :: 0 <= k < |pins| - 1 ==> pins[1..][k] == lh[tail + 1 + k];
  }

  // ---------------------------------------------------------------- when commit finds a buffer

  const NBUF: nat := 30

  function Elements(s: seq<nat>): set<nat> {
    set x | x in s
  }

  lemma {:induction false} DistinctCount(s: seq<nat>)
    requires Distinct(s)
    ensures |Elements(s)| == |s|
  {
    if s != [] {
      var rest := s[..|s| - 1];
      DistinctCount(rest);
      assert s[|s| - 1] !in rest;
      assert Elements(s) == Elements(rest) + {s[|s| - 1]};
    } else {
      assert Elements(s) == {};
    }
  }

  /** The buffer numbers that hold the pinned blocks. */
  ghost function PinSlots(c: Cache, pins: seq<nat>): (r: seq<nat>)
    requires forall b :: b in pins ==> CachedAt(c, b)
    ensures |r| == |pins| && forall k :: 0 <= k < |r| ==> r[k] < |c.bufs| && Key(c.bufs[r[k]], DEV, pins[k])
  {
    if pins == [] then []
    else
      var b := pins[|pins| - 1];
      assert CachedAt(c, b);
      var i :| 0 <= i < |c.bufs| && c.bufs[i].valid && Key(c.bufs[i], DEV, b);
      PinSlots(c, pins[..|pins| - 1]) + [i]
  }

  function Below(n: nat): (r: set<nat>)
    ensures |r| == n && forall i :: i in r <==> 0 <= i < n
  {
    if n == 0 then {} else Below(n - 1) + {n - 1}
  }

  /** Counting buffers against pins: a buffer is free exactly when the log holds fewer blocks than
      the cache has buffers. */
  lemma FreeIffRoom(l: Layout, c: Cache, locked: seq<bool>, disk: Disk, pins: seq<nat>, img: Disk)
    requires Steady(l, c, locked, disk, pins, img) && AllUnlocked(locked) && Unique(c) && Distinct(pins)
    ensures HasFree(c) <==> |pins| < |c.bufs|
  {
    assert forall b :: b in pins ==> CachedAt(c, b);
    if HasFree(c) {
      var i :| 0 <= i < |c.bufs| && c.bufs[i].refcnt == 0;
      var r := PinSlots(c, pins);
      forall k | 0 <= k < |r| ensures r[k] != i {
        assert pins[k] in pins && SteadyBuf(l, c.bufs[r[k]], locked[r[k]], disk, pins, img);
      }
      assert Distinct(r) by {
        forall k, m | 0 <= k < m < |r| ensures r[k] != r[m] { assert pins[k] != pins[m]; }
      }
      DistinctCount(r);
      assert i !in Elements(r);
      Smaller(Elements(r) + {i}, Below(|c.bufs|));
    } else {
      var bn := seq(|c.bufs|, (i: int) requires 0 <= i < |c.bufs| => c.bufs[i].blockno);
      forall i | 0 <= i < |c.bufs| ensures c.bufs[i].dev == DEV && bn[i] in pins {
        assert SteadyBuf(l, c.bufs[i], locked[i], disk, pins, img);
        assert c.bufs[i].refcnt != 0;
      }
      assert Distinct(bn) by {
        forall k, m | 0 <= k < m < |bn| ensures bn[k] != bn[m] {
          if bn[k] == bn[m] { OneBuffer(c, k, m); }
        }
      }
      DistinctCount(bn);
      DistinctCount(pins);
      Smaller(Elements(bn), Elements(pins));
    }
  }

  /** commit's first bread succeeds exactly when the log holds fewer blocks than there are buffers.
      With NBUF equal to LOGBLOCKS, a completely full log makes bget panic. */
  lemma CommitNeedsFreeBuffer(l: Layout, c: Cache, locked: seq<bool>, disk: Disk, lh: seq<nat>, img: Disk)
    requires Steady(l, c, locked, disk, lh, img) && AllUnlocked(locked) && Unique(c) && ListOk(c)
    requires LogOk(l, lh) && lh != []
    ensures Get(c, DEV, l.start + 1).Some? <==> |lh| < |c.bufs|
    ensures |c.bufs| == NBUF && |lh| == LOGBLOCKS ==> Get(c, DEV, l.start + 1) == None
  {
    FreeIffRoom(l, c, locked, disk, lh, img);
    GetOk(c, DEV, l.start + 1);
    if !HasFree(c) {
      forall i | 0 <= i < |c.bufs| ensures c.bufs[i].refcnt != 0 && !Key(c.bufs[i], DEV, l.start + 1) {
        assert SteadyBuf(l, c.bufs[i], locked[i], disk, lh, img);
      }
    }
  }

  /** Three operations of ten blocks each have filled the log, and with it every buffer. */
  function FullCache(data: Block): Cache {
    Cache(seq(NBUF, i requires 0 <= i < NBUF => Buf(DEV, 100 + i, true, 1, data)), seq(NBUF, i requires 0 <= i < NBUF => i))
  }

  lemma FullLogPanics(data: Block)
    ensures var l, c, d := Layout(2, 200), FullCache(data), seq(200, _ => data);
            var lh := seq(LOGBLOCKS, i => 100 + i);
            && Steady(l, c, seq(NBUF, _ => false), d, lh, d) && Unique(c) && ListOk(c) && LogOk(l, lh)
            && Get(c, DEV, l.start + 1) == None
  {
    var l, c, d := Layout(2, 200), FullCache(data), seq(200, _ => data);
    var lh, locked := seq(LOGBLOCKS, i => 100 + i), seq(NBUF, _ => false);
    forall i | 0 <= i < |c.bufs| ensures SteadyBuf(l, c.bufs[i], locked[i], d, lh, d) {
      assert lh[i] == 100 + i;
    }
    forall b | b in lh ensures CachedAt(c, b) {
      assert c.bufs[b - 100].valid && Key(c.bufs[b - 100], DEV, b);
    }
    forall i | 0 <= i < |c.bufs| ensures i in c.lru {
      assert c.lru[i] == i;
    }
    CommitNeedsFreeBuffer(l, c, locked, d, lh, d);
  }
}
