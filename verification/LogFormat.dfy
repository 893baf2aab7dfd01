/** The on-disk log of kernel/log.c and what recovery makes of a disk. */
module LogFormat {
  import opened Blocks

  const DEV: nat := 1            // ROOTDEV
  const MAXOPBLOCKS: nat := 10
  const LOGBLOCKS: nat := 30

  /** Where the log lies: header at start, slots after it, all inside the disk. */
  datatype Layout = Layout(start: nat, size: nat)

  ghost predicate LayoutOk(l: Layout) {
    l.start + LOGBLOCKS < l.size && l.size <= UINT_LIMIT
  }

  /** A home block is any block outside the log area. */
  predicate Home(l: Layout, b: int) {
    0 <= b < l.size && !(l.start <= b <= l.start + LOGBLOCKS)
  }

  ghost predicate HomeEq(l: Layout, d: Disk, e: Disk) {
    |d| == |e| == l.size && forall b :: Home(l, b) ==> d[b] == e[b]
  }

  /** A list of block numbers that the log may hold. */
  ghost predicate LogOk(l: Layout, lh: seq<nat>) {
    && |lh| <= LOGBLOCKS
    && (forall t :: 0 <= t < |lh| ==> Home(l, lh[t]))
    && (forall t, u :: 0 <= t < u < |lh| ==> lh[t] != lh[u])
  }

  /** log_write's scan: append a block number that is not in the header yet. */
  function Absorb(lh: seq<nat>, b: nat): seq<nat> {
    if b in lh then lh else lh + [b]
  }

  /** The header block after write_head stores n and the first k entries over its old contents. */
  function PutEntries(b: Block, lh: seq<nat>, k: nat): Block
    requires k <= |lh| <= LOGBLOCKS && forall t :: 0 <= t < |lh| ==> lh[t] < UINT_LIMIT
  {
    if k == 0 then PutWord(b, 0, |lh|) else PutWord(PutEntries(b, lh, k - 1), k, lh[k - 1])
  }

  function PutHeader(b: Block, lh: seq<nat>): Block
    requires |lh| <= LOGBLOCKS && forall t :: 0 <= t < |lh| ==> lh[t] < UINT_LIMIT
  {
    PutEntries(b, lh, |lh|)
  }

  /** What read_head makes of a header block; the kernel trusts n to be at most LOGBLOCKS. */
  function HeaderOf(b: Block): seq<nat>
    requires GetWord(b, 0) <= LOGBLOCKS
  {
    seq(GetWord(b, 0), (i: int) requires 0 <= i < GetWord(b, 0) => GetWord(b, i + 1) as nat)
  }

  lemma {:induction false} EntriesRead(b: Block, lh: seq<nat>, k: nat)
    requires k <= |lh| <= LOGBLOCKS && forall t :: 0 <= t < |lh| ==> lh[t] < UINT_LIMIT
    ensures GetWord(PutEntries(b, lh, k), 0) == |lh|
    ensures forall t :: 0 <= t < k ==> GetWord(PutEntries(b, lh, k), t + 1) == lh[t]
  {
    if k == 0 {
      PutGetSame(b, 0, |lh|);
    } else {
      EntriesRead(b, lh, k - 1);
      var c := PutEntries(b, lh, k - 1);
      PutGetSame(c, k, lh[k - 1]);
      PutGetOther(c, k, lh[k - 1], 0);
      forall t | 0 <= t < k ensures GetWord(PutEntries(b, lh, k), t + 1) == lh[t] {
        if t < k - 1 {
          PutGetOther(c, k, lh[k - 1], t + 1);
        }
      }
    }
  }

  /** What write_head stores, read_head gives back, whatever the block held before. */
  lemma HeaderRoundTrip(b: Block, lh: seq<nat>)
    requires |lh| <= LOGBLOCKS && forall t :: 0 <= t < |lh| ==> lh[t] < UINT_LIMIT
    ensures GetWord(PutHeader(b, lh), 0) == |lh|
    ensures HeaderOf(PutHeader(b, lh)) == lh
  {
    EntriesRead(b, lh, |lh|);
  }

  /** A disk whose header block can be read back. */
  ghost predicate DiskOk(l: Layout, d: Disk) {
    && LayoutOk(l) && |d| == l.size
    && GetWord(d[l.start], 0) <= LOGBLOCKS
    && LogOk(l, HeaderOf(d[l.start]))
  }

  /** The first k iterations of install_trans. */
  function Install(l: Layout, d: Disk, lh: seq<nat>, k: nat): (e: Disk)
    requires LayoutOk(l) && |d| == l.size && LogOk(l, lh) && k <= |lh|
    ensures |e| == |d|
  {
    if k == 0 then d
    else
      var e := Install(l, d, lh, k - 1);
      e[lh[k - 1] := e[l.start + k]]
  }

  /** Installing copies slot t to the t-th logged block and touches nothing else. */
  lemma {:induction false} InstallAt(l: Layout, d: Disk, lh: seq<nat>, k: nat, b: nat)
    requires LayoutOk(l) && |d| == l.size && LogOk(l, lh) && k <= |lh| && b < l.size
    ensures b !in lh[..k] ==> Install(l, d, lh, k)[b] == d[b]
    ensures forall t :: 0 <= t < k && lh[t] == b ==> Install(l, d, lh, k)[b] == d[l.start + t + 1]
  {
    if k > 0 {
      InstallAt(l, d, lh, k - 1, b);
      assert lh[..k] == lh[..k - 1] + [lh[k - 1]];
      if lh[k - 1] == b {
        InstallAt(l, d, lh, k - 1, l.start + k);
      }
    }
  }

  /** recover_from_log: install what the header names, then erase the header. */
  function Recovered(l: Layout, d: Disk): (e: Disk)
    requires DiskOk(l, d)
  {
    var e := Install(l, d, HeaderOf(d[l.start]), |HeaderOf(d[l.start])|);
    e[l.start := PutHeader(e[l.start], [])]
  }

  /** Recovery, stated block by block. */
  lemma RecoveredAt(l: Layout, d: Disk, b: nat)
    requires DiskOk(l, d) && Home(l, b)
    ensures |Recovered(l, d)| == l.size
    ensures var lh := HeaderOf(d[l.start]);
            && (b !in lh ==> Recovered(l, d)[b] == d[b])
            && (forall t :: 0 <= t < |lh| && lh[t] == b ==> Recovered(l, d)[b] == d[l.start + t + 1])
  {
    var lh := HeaderOf(d[l.start]);
    InstallAt(l, d, lh, |lh|, b);
    assert lh[..|lh|] == lh;
  }

  /** A disk with an empty log recovers to itself. */
  lemma RecoveredClean(l: Layout, d: Disk)
    requires DiskOk(l, d) && HeaderOf(d[l.start]) == []
    ensures HomeEq(l, Recovered(l, d), d)
  {
    forall b | Home(l, b) ensures Recovered(l, d)[b] == d[b] {
      RecoveredAt(l, d, b);
    }
  }

  /** While the header is clear, a write to a log slot changes nothing that recovery would give. */
  lemma SlotWriteClean(l: Layout, d: Disk, slot: nat, b: Block, img: Disk)
    requires DiskOk(l, d) && HeaderOf(d[l.start]) == [] && HomeEq(l, Recovered(l, d), img)
    requires l.start < slot < |d| && !Home(l, slot)
    ensures var e := d[slot := b];
            DiskOk(l, e) && HeaderOf(e[l.start]) == [] && HomeEq(l, Recovered(l, e), img)
  {
    var e := d[slot := b];
    assert e[l.start] == d[l.start];
    RecoveredClean(l, d);
    RecoveredClean(l, e);
  }

  /** A disk whose header names lh and whose slots hold img there, and whose other home blocks
      hold img, recovers to img. How far installation got does not matter. */
  lemma RecoveredIs(l: Layout, d: Disk, lh: seq<nat>, img: Disk)
    requires DiskOk(l, d) && HeaderOf(d[l.start]) == lh && |img| == l.size
    requires forall t :: 0 <= t < |lh| ==> d[l.start + t + 1] == img[lh[t]]
    requires forall b :: Home(l, b) && b !in lh ==> d[b] == img[b]
    ensures HomeEq(l, Recovered(l, d), img)
  {
    forall b | Home(l, b) ensures Recovered(l, d)[b] == img[b] {
      RecoveredAt(l, d, b);
    }
  }

  /** Conversely, what recovery would install is what the slots hold. */
  lemma RecoveredSlots(l: Layout, d: Disk, img: Disk)
    requires DiskOk(l, d) && HomeEq(l, Recovered(l, d), img)
    ensures var lh := HeaderOf(d[l.start]);
            && (forall t :: 0 <= t < |lh| ==> d[l.start + t + 1] == img[lh[t]])
            && (forall b :: Home(l, b) && b !in lh ==> d[b] == img[b])
  {
    var lh := HeaderOf(d[l.start]);
    forall t | 0 <= t < |lh| ensures d[l.start + t + 1] == img[lh[t]] {
      RecoveredAt(l, d, lh[t]);
    }
    forall b | Home(l, b) && b !in lh ensures d[b] == img[b] {
      RecoveredAt(l, d, b);
    }
  }

  /** The commit point. Once the slots hold img and every block outside lh holds img at home,
      writing the header makes the disk recover to img. */
  lemma HeaderCommits(l: Layout, d: Disk, was: Block, lh: seq<nat>, img: Disk)
    requires LayoutOk(l) && |d| == |img| == l.size && LogOk(l, lh)
    requires forall t :: 0 <= t < |lh| ==> d[l.start + t + 1] == img[lh[t]]
    requires forall b :: Home(l, b) && b !in lh ==> d[b] == img[b]
    ensures var e := d[l.start := PutHeader(was, lh)];
            DiskOk(l, e) && HeaderOf(e[l.start]) == lh && HomeEq(l, Recovered(l, e), img)
  {
    HeaderRoundTrip(was, lh);
    var e := d[l.start := PutHeader(was, lh)];
    RecoveredIs(l, e, lh, img);
  }

  /** Installing one logged block does not change what the disk recovers to. */
  lemma InstallKeeps(l: Layout, d: Disk, t: nat, img: Disk)
    requires DiskOk(l, d) && t < |HeaderOf(d[l.start])| && HomeEq(l, Recovered(l, d), img)
    ensures var lh := HeaderOf(d[l.start]); var e := d[lh[t] := d[l.start + t + 1]];
            && DiskOk(l, e) && HeaderOf(e[l.start]) == lh && HomeEq(l, Recovered(l, e), img)
            && e[lh[t]] == img[lh[t]]
  {
    var lh := HeaderOf(d[l.start]);
    var e := d[lh[t] := d[l.start + t + 1]];
    RecoveredSlots(l, d, img);
    RecoveredIs(l, e, lh, img);
  }

  /** Once every home block holds img, erasing the header keeps img. */
  lemma EraseKeeps(l: Layout, d: Disk, was: Block, img: Disk)
    requires LayoutOk(l) && HomeEq(l, d, img)
    ensures var e := d[l.start := PutHeader(was, [])];
            DiskOk(l, e) && HeaderOf(e[l.start]) == [] && HomeEq(l, Recovered(l, e), img)
  {
    HeaderRoundTrip(was, []);
    RecoveredClean(l, d[l.start := PutHeader(was, [])]);
  }

  // ---------------------------------------------------------------- commit and recovery, write by write

  /** The disk after write_log has copied the first k logged blocks, whose contents are in img. */
  function CopySlots(l: Layout, d: Disk, lh: seq<nat>, img: Disk, k: nat): (e: Disk)
    requires LayoutOk(l) && |d| == |img| == l.size && LogOk(l, lh) && k <= |lh|
    ensures |e| == |d|
    ensures forall b :: 0 <= b < l.size && !(l.start < b <= l.start + k) ==> e[b] == d[b]
    ensures forall t :: 0 <= t < k ==> e[l.start + t + 1] == img[lh[t]]
  {
    if k == 0 then d else CopySlots(l, d, lh, img, k - 1)[l.start + k := img[lh[k - 1]]]
  }

  /** The disk after k block writes of commit(): write_log, write_head, install_trans, write_head. */
  function CommitDisk(l: Layout, d: Disk, lh: seq<nat>, img: Disk, k: nat): Disk
    requires LayoutOk(l) && |d| == |img| == l.size && LogOk(l, lh) && k <= 2 * |lh| + 2
  {
    if k <= |lh| then CopySlots(l, d, lh, img, k)
    else if k <= 2 * |lh| + 1 then Install(l, Headed(l, d, lh, img), lh, k - |lh| - 1)
    else Erased(l, Install(l, Headed(l, d, lh, img), lh, |lh|))
  }

  /** The disk after k block writes of recover_from_log(). */
  function RecoverDisk(l: Layout, d: Disk, k: nat): Disk
    requires DiskOk(l, d) && k <= |HeaderOf(d[l.start])| + 1
  {
    var lh := HeaderOf(d[l.start]);
    if k <= |lh| then Install(l, d, lh, k) else Recovered(l, d)
  }

  /** The disk after each of the first k copies of write_log. */
  function CopyWrites(l: Layout, d: Disk, lh: seq<nat>, img: Disk, k: nat): (w: seq<Disk>)
    requires LayoutOk(l) && |d| == |img| == l.size && LogOk(l, lh) && k <= |lh|
    ensures |w| == k && forall j :: 0 <= j < k ==> w[j] == CopySlots(l, d, lh, img, j + 1)
  {
    if k == 0 then [] else CopyWrites(l, d, lh, img, k - 1) + [CopySlots(l, d, lh, img, k)]
  }

  /** The disk after each of the first k copies of install_trans. */
  function InstallWrites(l: Layout, d: Disk, lh: seq<nat>, k: nat): (w: seq<Disk>)
    requires LayoutOk(l) && |d| == l.size && LogOk(l, lh) && k <= |lh|
    ensures |w| == k && forall j :: 0 <= j < k ==> w[j] == Install(l, d, lh, j + 1)
  {
    if k == 0 then [] else InstallWrites(l, d, lh, k - 1) + [Install(l, d, lh, k)]
  }

  function Erased(l: Layout, d: Disk): Disk
    requires l.start < |d|
  {
    d[l.start := PutHeader(d[l.start], [])]
  }

  /** All block writes of commit, in order: each element is the disk a crash would find. */
  function CommitWrites(l: Layout, d: Disk, lh: seq<nat>, img: Disk): seq<Disk>
    requires LayoutOk(l) && |d| == |img| == l.size && LogOk(l, lh)
  {
    var h := Headed(l, d, lh, img);
    CopyWrites(l, d, lh, img, |lh|) + [h] + InstallWrites(l, h, lh, |lh|) + [Erased(l, Install(l, h, lh, |lh|))]
  }

  /** All block writes of recover_from_log, in order. */
  function RecoverWrites(l: Layout, d: Disk): seq<Disk>
    requires DiskOk(l, d)
  {
    var lh := HeaderOf(d[l.start]);
    InstallWrites(l, d, lh, |lh|) + [Recovered(l, d)]
  }

  lemma CommitWritesAt(l: Layout, d: Disk, lh: seq<nat>, img: Disk, k: nat)
    requires LayoutOk(l) && |d| == |img| == l.size && LogOk(l, lh) && 1 <= k <= 2 * |lh| + 2
    ensures |CommitWrites(l, d, lh, img)| == 2 * |lh| + 2
    ensures CommitWrites(l, d, lh, img)[k - 1] == CommitDisk(l, d, lh, img, k)
  {
    var h := Headed(l, d, lh, img);
    var a, b := CopyWrites(l, d, lh, img, |lh|), InstallWrites(l, h, lh, |lh|);
    if |lh| + 1 < k <= 2 * |lh| + 1 {
      assert CommitWrites(l, d, lh, img)[k - 1] == b[k - |lh| - 2];
    }
  }

  lemma RecoverWritesAt(l: Layout, d: Disk, k: nat)
    requires DiskOk(l, d) && 1 <= k <= |HeaderOf(d[l.start])| + 1
    ensures |RecoverWrites(l, d)| == |HeaderOf(d[l.start])| + 1
    ensures RecoverWrites(l, d)[k - 1] == RecoverDisk(l, d, k)
  {
  }

  lemma {:induction false} InstallRecovers(l: Layout, d: Disk, lh: seq<nat>, k: nat, img: Disk)
    requires DiskOk(l, d) && HeaderOf(d[l.start]) == lh && k <= |lh| && HomeEq(l, Recovered(l, d), img)
    ensures var e := Install(l, d, lh, k);
            DiskOk(l, e) && HeaderOf(e[l.start]) == lh && HomeEq(l, Recovered(l, e), img)
  {
    if k > 0 {
      InstallRecovers(l, d, lh, k - 1, img);
      var c, t := Install(l, d, lh, k - 1), k - 1;
      InstallKeeps(l, c, t, img);
      assert Install(l, d, lh, k) == c[lh[t] := c[l.start + t + 1]];
    }
  }

  /** A crash after any write of recovery loses nothing: what is left recovers to the same home blocks. */
  lemma RecoveryRestarts(l: Layout, d: Disk, k: nat)
    requires DiskOk(l, d) && k <= |HeaderOf(d[l.start])| + 1
    ensures DiskOk(l, RecoverDisk(l, d, k)) && HomeEq(l, Recovered(l, RecoverDisk(l, d, k)), Recovered(l, d))
  {
    var lh := HeaderOf(d[l.start]);
    assert HomeEq(l, Recovered(l, d), Recovered(l, d));
    if k <= |lh| {
      InstallRecovers(l, d, lh, k, Recovered(l, d));
    } else {
      var e := Install(l, d, lh, |lh|);
      EraseKeeps(l, e, e[l.start], Recovered(l, d));
    }
  }

  /** Before the header is written, the disk still recovers to its old home blocks. */
  lemma BeforeHeader(l: Layout, d: Disk, lh: seq<nat>, img: Disk, k: nat)
    requires DiskOk(l, d) && HeaderOf(d[l.start]) == [] && |img| == l.size && LogOk(l, lh) && k <= |lh|
    ensures var e := CopySlots(l, d, lh, img, k); DiskOk(l, e) && HomeEq(l, Recovered(l, e), d)
  {
    RecoveredClean(l, CopySlots(l, d, lh, img, k));
  }

  /** The disk right after the first write_head. */
  function Headed(l: Layout, d: Disk, lh: seq<nat>, img: Disk): (e: Disk)
    requires LayoutOk(l) && |d| == |img| == l.size && LogOk(l, lh)
    ensures |e| == |d|
  {
    var logged := CopySlots(l, d, lh, img, |lh|);
    logged[l.start := PutHeader(logged[l.start], lh)]
  }

  lemma HeadedSlots(l: Layout, d: Disk, lh: seq<nat>, img: Disk)
    requires LayoutOk(l) && |d| == |img| == l.size && LogOk(l, lh)
    ensures forall t :: 0 <= t < |lh| ==> Headed(l, d, lh, img)[l.start + t + 1] == img[lh[t]]
  {
    var logged := CopySlots(l, d, lh, img, |lh|);
    forall t | 0 <= t < |lh| ensures Headed(l, d, lh, img)[l.start + t + 1] == img[lh[t]] {
      assert logged[l.start + t + 1] == img[lh[t]];
    }
  }

  /** From the header on, the disk recovers to the new home blocks. */
  lemma AfterHeader(l: Layout, d: Disk, lh: seq<nat>, img: Disk, k: nat)
    requires LayoutOk(l) && |d| == |img| == l.size && LogOk(l, lh) && k <= |lh|
    requires forall b :: Home(l, b) && b !in lh ==> d[b] == img[b]
    ensures var h := Headed(l, d, lh, img);
            && DiskOk(l, h) && HeaderOf(h[l.start]) == lh
            && DiskOk(l, Install(l, h, lh, k)) && HomeEq(l, Recovered(l, Install(l, h, lh, k)), img)
  {
    var logged := CopySlots(l, d, lh, img, |lh|);
    HeaderCommits(l, logged, logged[l.start], lh, img);
    InstallRecovers(l, Headed(l, d, lh, img), lh, k, img);
  }

  /** Once everything is installed the home blocks are new, and erasing the header keeps them. */
  lemma AfterErase(l: Layout, d: Disk, lh: seq<nat>, img: Disk)
    requires LayoutOk(l) && |d| == |img| == l.size && LogOk(l, lh)
    requires forall b :: Home(l, b) && b !in lh ==> d[b] == img[b]
    ensures var e := Install(l, Headed(l, d, lh, img), lh, |lh|);
            HomeEq(l, e, img) && DiskOk(l, Erased(l, e)) && HomeEq(l, Recovered(l, Erased(l, e)), img)
  {
    var h := Headed(l, d, lh, img);
    AfterHeader(l, d, lh, img, 0);
    var e := Install(l, h, lh, |lh|);
    assert Recovered(l, h) == Erased(l, e);
    EraseKeeps(l, e, e[l.start], img);
  }

  /** Atomicity of one commit: a crash after k of its writes recovers to the old home blocks if the
      header was not among them, and to the new ones if it was. */
  lemma CommitAtomic(l: Layout, d: Disk, lh: seq<nat>, img: Disk, k: nat)
    requires DiskOk(l, d) && HeaderOf(d[l.start]) == [] && |img| == l.size && LogOk(l, lh)
    requires forall b :: Home(l, b) && b !in lh ==> d[b] == img[b]
    requires k <= 2 * |lh| + 2
    ensures var e := CommitDisk(l, d, lh, img, k);
            DiskOk(l, e) && HomeEq(l, Recovered(l, e), if k <= |lh| then d else img)
  {
    if k <= |lh| {
      BeforeHeader(l, d, lh, img, k);
    } else if k <= 2 * |lh| + 1 {
      AfterHeader(l, d, lh, img, k - |lh| - 1);
    } else {
      AfterErase(l, d, lh, img);
    }
  }

  /** Disks left by recoveries that were each cut short by the next crash. */
  ghost predicate CrashChain(l: Layout, ds: seq<Disk>) {
    && |ds| > 0 && (forall i :: 0 <= i < |ds| ==> DiskOk(l, ds[i]))
    && forall i :: 0 <= i < |ds| - 1 ==> CutShort(l, ds[i], ds[i + 1])
  }

  ghost predicate CutShort(l: Layout, d: Disk, e: Disk)
    requires DiskOk(l, d)
  {
    exists k: nat :: k <= |HeaderOf(d[l.start])| + 1 && e == RecoverDisk(l, d, k)
  }

  lemma CutRecovers(l: Layout, d: Disk, e: Disk)
    requires DiskOk(l, d) && CutShort(l, d, e)
    ensures DiskOk(l, e) && HomeEq(l, Recovered(l, e), Recovered(l, d))
  {
    var m: nat :| m <= |HeaderOf(d[l.start])| + 1 && e == RecoverDisk(l, d, m);
    RecoveryRestarts(l, d, m);
  }


  /** However often recovery is cut short, the home blocks it will yield stay the same. */
  lemma {:induction false} ChainRecovers(l: Layout, ds: seq<Disk>, k: nat)
    requires CrashChain(l, ds) && k < |ds|
    ensures HomeEq(l, Recovered(l, ds[k]), Recovered(l, ds[0]))
  {
    if k > 0 {
      ChainRecovers(l, ds, k - 1);
      assert CutShort(l, ds[k - 1], ds[k - 1 + 1]);
      CutRecovers(l, ds[k - 1], ds[k]);
    }
  }

  /** Every disk that commit leaves behind, write by write, recovers to the old home blocks up to its n copies, then to the new. */
  lemma CommitWritesSafe(l: Layout, d: Disk, lh: seq<nat>, img: Disk, k: nat)
    requires DiskOk(l, d) && HeaderOf(d[l.start]) == [] && |img| == l.size && LogOk(l, lh)
    requires forall b :: Home(l, b) && b !in lh ==> d[b] == img[b]
    requires k < |CommitWrites(l, d, lh, img)|
    ensures var e := CommitWrites(l, d, lh, img)[k];
            DiskOk(l, e) && HomeEq(l, Recovered(l, e), if k < |lh| then d else img)
  {
    CommitWritesAt(l, d, lh, img, 1);
    CommitWritesAt(l, d, lh, img, k + 1);
    CommitAtomic(l, d, lh, img, k + 1);
  }

  /** Every disk that recovery leaves behind recovers to what it was recovering. */
  lemma RecoverWritesSafe(l: Layout, d: Disk, k: nat)
    requires DiskOk(l, d) && k < |RecoverWrites(l, d)|
    ensures var e := RecoverWrites(l, d)[k]; DiskOk(l, e) && HomeEq(l, Recovered(l, e), Recovered(l, d))
  {
    RecoverWritesAt(l, d, 1);
    RecoverWritesAt(l, d, k + 1);
    RecoveryRestarts(l, d, k + 1);
  }

  /** A crash anywhere in commit, then any number of crashes inside recovery: the recovery that
      finally completes yields all old or all new home blocks, and new exactly when the commit's first
      write_head had reached the disk. */
  lemma CommitCrashRecover(l: Layout, d: Disk, lh: seq<nat>, img: Disk, k: nat, ds: seq<Disk>)
    requires DiskOk(l, d) && HeaderOf(d[l.start]) == [] && |img| == l.size && LogOk(l, lh)
    requires forall b :: Home(l, b) && b !in lh ==> d[b] == img[b]
    requires k <= 2 * |lh| + 2 && CrashChain(l, ds) && ds[0] == CommitDisk(l, d, lh, img, k)
    ensures HomeEq(l, Recovered(l, ds[|ds| - 1]), if k <= |lh| then d else img)
  {
    CommitAtomic(l, d, lh, img, k);
    ChainRecovers(l, ds, |ds| - 1);
  }
}
