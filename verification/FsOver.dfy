/** A run that needs more than the reservation of an operation: a file that gets one block under each of ten bitmap blocks, and is
    then removed. */
module FsOver {
  import opened Common
  import opened Blocks
  import opened FsLayout
  import opened FsSpec
  import opened FsGrow
  import opened FsBudget
  import opened FsFill
  import opened Fs
  import FsOps
  import LogFormat

  /** A disk of 82000 blocks, with eleven bitmap blocks. */
  function Vast(): Geo {
    Geo(82000, 8000, 33, 540, 560)
  }

  /** Block j of the file, under bitmap block j. */
  function Spot(j: nat): nat {
    if j == 0 then 561 else j * BPB
  }

  /** The file has its first k blocks, and all blocks below m are in use. */
  ghost predicate Spreading(fs: FileSystem, i: nat, k: nat, m: nat, n: nat)
    reads fs
  {
    && fs.g == Vast() && |fs.tab| == 8000 && Packed(fs.g, fs.Now(), m, n) && 1 <= i < n && Short(fs.tab[i], k)
    && forall j {:trigger Spot(j)} :: 0 <= j < k ==> Spot(j) in fs.owner && fs.owner[Spot(j)].0 == i
  }

  /** Files up to the next spot, then one more block for the file. */
  method NextSpot(fs: FileSystem, i: nat, k: nat, n: nat) returns (n': nat)
    requires 1 <= k < 10 && Spreading(fs, i, k, Spot(k - 1) + 1, n) && n <= 3 + 700 * (k - 1)
    modifies fs
    ensures Spreading(fs, i, k + 1, Spot(k) + 1, n') && n' <= 3 + 700 * k
  {
    assert Files(Spot(k) - (Spot(k - 1) + 1)) <= 683;
    ghost var v := fs.Now();
    n' := FillTo(fs, Spot(k - 1) + 1, n, Spot(k));
    ghost var w := fs.Now();
    AppendBlock(fs, i, k, Spot(k), n');
    SpotsKept(v, w, fs.Now(), fs.g, i, k, n);
  }

  lemma SpotsKept(v: View, w: View, x: View, g: Geo, i: nat, k: nat, n: nat)
    requires Later(g, v, w, n) && AppendedTo(w, x, i, k, Spot(k))
    requires forall j {:trigger Spot(j)} :: 0 <= j < k ==> Spot(j) in v.owner && v.owner[Spot(j)].0 == i
    ensures forall j {:trigger Spot(j)} :: 0 <= j < k + 1 ==> Spot(j) in x.owner && x.owner[Spot(j)].0 == i
  {
  }

  /** The file of ten blocks. */
  method SpreadFile() returns (fs: FileSystem, i: nat)
    ensures fresh(fs) && fs.g == Vast() && fs.Valid() && i < |fs.tab| && fs.tab[i].typ != 0
    ensures forall j {:trigger Spot(j)} :: 0 <= j < 10 ==> Spot(j) in FsOps.Owned(fs.owner, i)
  {
    fs := Boot(Vast());
    AddFile(fs, 561, 2);
    i := 2;
    var n, k := 3, 1;
    while k < 10
      invariant 1 <= k <= 10 && fresh(fs) && Spreading(fs, i, k, Spot(k - 1) + 1, n) && n <= 3 + 700 * (k - 1)
    {
      n := NextSpot(fs, i, k, n);
      k := k + 1;
    }
  }

  /** The first n bitmap blocks. */
  ghost function Bitmaps(n: nat): set<nat> {
    if n == 0 then {} else Bitmaps(n - 1) + {539 + n}
  }

  lemma {:induction false} SpotBitmaps(s: set<nat>, n: nat)
    requires forall j {:trigger Spot(j)} :: 0 <= j < n ==> Spot(j) in s
    ensures |Bitmaps(n)| == n && Bitmaps(n) <= BitmapBlocks(Vast(), s) && forall b :: b in Bitmaps(n) ==> b < 540 + n
  {
    if n > 0 {
      SpotBitmaps(s, n - 1);
      assert Spot(n - 1) in s && BitmapBlock(Vast(), Spot(n - 1)) == 539 + n;
    }
  }

  /** A run of the file system, from the image that mkfs builds, whose last operation, an iput, logs more blocks than begin_op reserves
      for it; v is the state before that operation. */
  method FreeOverruns() returns (fs: FileSystem, i: nat, ghost v: View)
    ensures fresh(fs) && fs.Valid() && ViewOk(fs.g, v, -1) && i < |v.tab| && v.tab[i].nlink == 0
    ensures fs.logged == FsOps.FreeLog(fs.g, v, i) && |fs.logged| > LogFormat.MAXOPBLOCKS
  {
    fs, i := SpreadFile();
    FsOps.SetNlink(fs, i, 0);
    fs.logged := {};
    v := fs.Now();
    SpotBitmaps(FsOps.Owned(v.owner, i), 10);
    Smaller(Bitmaps(10), BitmapBlocks(fs.g, FsOps.Owned(v.owner, i)));
    FsOps.FreeInode(fs, i);
  }
}
