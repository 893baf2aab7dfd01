/** A run that needs the whole reservation of an operation. The disk is filled and three files are removed, so that the four lowest free
    blocks lie under four bitmap blocks; then an unaligned chunk takes three data blocks and an indirect block. */
module FsTight {
  import opened Blocks
  import opened FsLayout
  import opened FsSpec
  import opened FsGrow
  import opened FsWrite
  import opened FsBudget
  import opened FsTaken
  import opened FsFill
  import opened Fs
  import LogFormat

  const OFF: nat := 11265              // one byte into file block 11

  /** A disk of 25000 blocks, with four bitmap blocks. */
  function Wide(): Geo {
    Geo(25000, 2100, 33, 170, 180)
  }

  /** As many bytes as filewrite passes to one writei. */
  function Text(): (r: seq<Byte>)
    ensures |r| == MAXWRITE
  {
    seq(MAXWRITE, _ => 0)
  }

  /** Inodes a and b own blocks 8191 and 16383, and all below is in use. */
  method TwoFiles() returns (fs: FileSystem, a: nat, b: nat)
    ensures fresh(fs) && fs.g == Wide() && |fs.tab| == 2100 && Packed(fs.g, fs.Now(), 16384, b + 1)
    ensures 1 <= a < b == 1354 && Sole(fs.owner, a, 8191) && Sole(fs.owner, b, 16383)
  {
    fs := Boot(Wide());
    assert Files(8191 - 181) == 668 && Files(16383 - 8192) == 683;
    a := ReachBlock(fs, 181, 2, 8191);
    ghost var v := fs.Now();
    b := ReachBlock(fs, 8192, a + 1, 16383);
    SoleLater(fs.g, v, fs.Now(), a + 1, a, 8191);
  }

  /** Inode c owns block 16384, inode i has twelve blocks, and all below block 24576 is in use. */
  method ThirdFile(fs: FileSystem) returns (c: nat, i: nat)
    requires fs.g == Wide() && |fs.tab| == 2100 && Packed(fs.g, fs.Now(), 16384, 1355)
    modifies fs
    ensures 1355 <= c < i < |fs.tab| && fs.Valid() && fs.tab[c].typ != 0 && (forall b :: b in fs.owner <==> fs.g.nmeta <= b < 24576)
    ensures Later(fs.g, old(fs.Now()), fs.Now(), 1355) && Sole(fs.owner, c, 16384) && Short(fs.tab[i], NDIRECT)
  {
    assert Files(0) == 0 && Files(24576 - 16397) == 682;
    c := ReachBlock(fs, 16384, 1355, 16384);
    ghost var w := fs.Now();
    i := c + 1;
    FileOf(fs, 16385, i, NDIRECT);
    ghost var x := fs.Now();
    var n := FillTo(fs, 16397, i + 1, 24576);
    LaterThen(fs.g, w, x, fs.Now(), i, i + 1);
    LaterThen(fs.g, old(fs.Now()), w, fs.Now(), 1355, i);
    SoleLater(fs.g, w, fs.Now(), i, c, 16384);
  }

  /** A disk that is full up to block 24576 but for the blocks of three files that were removed, and a file of twelve blocks. */
  method Prepared() returns (fs: FileSystem, i: nat)
    ensures fresh(fs) && fs.g == Wide() && fs.Valid() && i < |fs.tab| && Short(fs.tab[i], NDIRECT)
    ensures FourLowest(fs.g, fs.owner, 8191, 16383, 16384, 24576)
  {
    var a, b, c;
    fs, a, b := TwoFiles();
    ghost var v := fs.Now();
    c, i := ThirdFile(fs);
    SoleLater(fs.g, v, fs.Now(), 1355, a, 8191);
    SoleLater(fs.g, v, fs.Now(), 1355, b, 16383);
    FreeFile(fs, a, 8191);
    FreeFile(fs, b, 16383);
    FreeFile(fs, c, 16384);
  }

  /** That file lacks the file blocks from 12 on, and the indirect block. */
  lemma NeedsFour(v: View, i: nat)
    requires i < |v.tab| && Short(v.tab[i], NDIRECT) && v.tab[i].addrs[INDIRECT] < |v.store| && v.tab[i].addrs[11] != 0
    ensures Hi(OFF, MAXWRITE) == 15 && Needs(v, i, OFF, MAXWRITE) == 4
  {
    var x := v.tab[i];
    assert OFF / BSIZE == 11 && Hi(OFF, MAXWRITE) == 15;
    assert At(v.store, x, Pos(11)) != 0 && At(v.store, x, Pos(12)) == At(v.store, x, Pos(13)) == At(v.store, x, Pos(14)) == 0;
    assert Lacking(v.store, x, 11, 11) == 0;
    assert Lacking(v.store, x, 11, 12) == 0;
    assert Lacking(v.store, x, 11, 13) == 1;
    assert Lacking(v.store, x, 11, 14) == 2;
    assert Lacking(v.store, x, 11, 15) == 3;
  }

  /** A run of the file system, from the image that mkfs builds, whose last chunk logs MAXOPBLOCKS blocks; v is the state before that
      chunk. */
  method BudgetReached() returns (fs: FileSystem, i: nat, ghost v: View)
    ensures fresh(fs) && fs.Valid() && ViewOk(fs.g, v, -1) && v.logged == {} && WriteDone(fs.g, v, fs.Now(), i, OFF, Text())
    ensures Logs(fs.g, v.store, {}, fs.store, fs.logged) && |fs.logged| == LogFormat.MAXOPBLOCKS
  {
    fs, i := Prepared();
    v := fs.Now().(logged := {});
    Starts(fs.g, fs.Now(), i);
    assert FileOk(v.store, v.tab[i]) && At(v.store, v.tab[i], Pos(11)) != 0;
    NeedsFour(v, i);
    assert FourLowest(fs.g, v.owner, 8191, 16383, 16384, 24576) && Apart(fs.g, 8191, 16383, 16384, 24576);
    FourAreFree(fs.g, v.owner, 8191, 16383, 16384, 24576);
    var n := fs.ChunkOp(i, OFF, Text());
  }
}
