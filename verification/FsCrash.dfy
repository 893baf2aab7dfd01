/** The logging layer and the file system together: a crash at any moment leaves a disk from which recovery makes a consistent file
    system, the one after some whole number of commit groups. */
module FsCrash {
  import opened Blocks
  import opened FsLayout
  import opened FsSpec
  import opened FsGrow
  import opened LogFormat
  import opened LogMachine
  import opened LogSafety
  import opened LogRuns
  import F = Fs

  /** The disk holds a consistent file system: some inode table agrees with it, every block has one owner, the bitmap is exact, and no
      file has a hole. */
  ghost predicate HoldsFs(g: Geo, d: Disk) {
    exists tab: seq<Inode>, owner: Owner :: Consistent(g, d, tab, owner, -1)
  }

  /** mkfs puts the log before the inodes. */
  ghost predicate LogBefore(l: Layout, g: Geo) {
    LayoutOk(l) && GeoOk(g) && l.size == g.size && l.start + LOGBLOCKS < g.inodestart
  }

  /** What the log area holds does not matter to the file system. */
  lemma HomeFrame(l: Layout, g: Geo, d: Disk, e: Disk)
    requires LogBefore(l, g) && HomeEq(l, d, e) && HoldsFs(g, d)
    ensures HoldsFs(g, e)
  {
    var tab: seq<Inode>, owner: Owner :| Consistent(g, d, tab, owner, -1);
    forall b | g.inodestart <= b < g.size ensures e[b] == d[b] {
      assert Home(l, b);
    }
    forall b | b in owner && owner[b].1 == INDIRECT && b < g.size ensures e[b] == d[b] {
      assert OwnedOk(g, d, tab, owner, 0, 0, b);
    }
    OwnedFrame(g, d, e, tab, owner, 0, 0);
    BitFrame(g, d, e, owner);
    forall i | 0 <= i < |tab| ensures FileOk(e, tab[i]) && tab[i] == DInode(g, e, i) {
      assert FileOk(d, tab[i]) && tab[i] == DInode(g, d, i);
      assert g.inodestart <= InodeBlock(g, i) < g.size;
    }
    assert Consistent(g, e, tab, owner, -1);
  }

  /** Each commit group takes one consistent file system to the next. */
  ghost predicate Explained(g: Geo, base: Disk, groups: seq<seq<Write>>) {
    forall n {:trigger groups[..n]} :: 0 <= n <= |groups| ==> HoldsFs(g, Image(base, groups[..n]))
  }

  /** The file system survives: at every moment of every run, recovery would leave it consistent. */
  lemma CrashConsistent(l: Layout, g: Geo, run: seq<State>, steps: seq<Step>, k: nat)
    requires IsRun(l, run, steps) && k < |run| && LogBefore(l, g) && Explained(g, run[k].h.base, run[k].h.groups)
    ensures DiskOk(l, run[k].disk) && HoldsFs(g, Recovered(l, run[k].disk))
  {
    CrashSafety(l, run, steps, k);
    var d := Image(run[k].h.base, run[k].h.groups[..Durable(run[k])]);
    HomeFrame(l, g, d, Recovered(l, run[k].disk));
  }

  // ---------------------------------------------------------------- operations as commit groups

  /** One write for each block of s, with what disk e has there. */
  lemma {:induction false} WritesTo(op: nat, e: Disk, s: set<nat>) returns (ws: seq<Write>)
    requires forall b :: b in s ==> b < |e|
    ensures |ws| == |s| && (forall k :: 0 <= k < |ws| ==> ws[k].op == op && ws[k].block in s)
    ensures forall k, m :: 0 <= k < m < |ws| ==> ws[k].block != ws[m].block
    ensures forall d: Disk, b :: |d| == |e| && 0 <= b < |e| ==> Apply(d, ws)[b] == if b in s then e[b] else d[b]
  {
    if s == {} {
      ws := [];
    } else {
      var c :| c in s;
      var rest := WritesTo(op, e, s - {c});
      ws := rest + [Write(op, c, e[c])];
      assert ws[..|ws| - 1] == rest;
    }
  }

  /** A transaction changes only blocks it logs, so its effect is a group of writes to those. */
  lemma GroupOf(g: Geo, op: nat, d: Disk, e: Disk, logged: set<nat>) returns (ws: seq<Write>)
    requires Logs(g, d, {}, e, logged) && |d| == g.size
    ensures Apply(d, ws) == e && |ws| == |logged|
    ensures forall k :: 0 <= k < |ws| ==> ws[k].op == op && g.inodestart <= ws[k].block < g.size
    ensures forall k, m :: 0 <= k < m < |ws| ==> ws[k].block != ws[m].block
  {
    forall b | b in logged ensures g.inodestart <= b < g.size {
      assert LogsBlock(g, d, {}, e, logged, b);
    }
    ws := WritesTo(op, e, logged);
    forall b | 0 <= b < |d| ensures Apply(d, ws)[b] == e[b] {
      assert LogsBlock(g, d, {}, e, logged, b);
    }
  }

  lemma ExplainedMore(g: Geo, base: Disk, groups: seq<seq<Write>>, ws: seq<Write>)
    requires Explained(g, base, groups) && HoldsFs(g, Apply(Image(base, groups), ws))
    ensures Explained(g, base, groups + [ws]) && Image(base, groups + [ws]) == Apply(Image(base, groups), ws)
  {
    var all := groups + [ws];
    assert all[..|all| - 1] == groups;
    forall n | 0 <= n <= |all| ensures HoldsFs(g, Image(base, all[..n])) {
      if n == |all| {
        assert all[..n] == all;
      } else {
        assert all[..n] == groups[..n];
      }
    }
  }

  /** From disk d, commit groups some leave the home blocks that the first of groups leave from base, one after the other. */
  ghost predicate SameEffects(l: Layout, d: Disk, some: seq<seq<Write>>, base: Disk, groups: seq<seq<Write>>) {
    && |some| <= |groups|
    && forall n {:trigger some[..n]} :: 0 <= n <= |some| ==> HomeEq(l, Image(base, groups[..n]), Image(d, some[..n]))
  }

  lemma ExplainedSame(l: Layout, g: Geo, base: Disk, groups: seq<seq<Write>>, d: Disk, some: seq<seq<Write>>)
    requires LogBefore(l, g) && Explained(g, base, groups) && SameEffects(l, d, some, base, groups)
    ensures Explained(g, d, some)
  {
    forall n | 0 <= n <= |some| ensures HoldsFs(g, Image(d, some[..n])) {
      assert HoldsFs(g, Image(base, groups[..n]));
      HomeFrame(l, g, Image(base, groups[..n]), Image(d, some[..n]));
    }
  }

  /** The machine, at moment k of a run, has had the effects of the first of groups on disk base. */
  ghost predicate Carries(l: Layout, run: seq<State>, steps: seq<Step>, k: nat, base: Disk, groups: seq<seq<Write>>) {
    IsRun(l, run, steps) && k < |run| && SameEffects(l, run[k].h.base, run[k].h.groups, base, groups)
  }

  // ---------------------------------------------------------------- a run that carries them

  lemma {:induction false} ApplyHome(l: Layout, d: Disk, e: Disk, ws: seq<Write>)
    requires HomeEq(l, d, e)
    ensures HomeEq(l, Apply(d, ws), Apply(e, ws))
  {
    if ws != [] {
      ApplyHome(l, d, e, ws[..|ws| - 1]);
    }
  }

  lemma {:induction false} ImageHome(l: Layout, d: Disk, e: Disk, groups: seq<seq<Write>>)
    requires HomeEq(l, d, e)
    ensures HomeEq(l, Image(d, groups), Image(e, groups))
  {
    if groups != [] {
      ImageHome(l, d, e, groups[..|groups| - 1]);
      ApplyHome(l, Image(d, groups[..|groups| - 1]), Image(e, groups[..|groups| - 1]), groups[|groups| - 1]);
    }
  }

  /** A disk with an empty log: a zero header. */
  function EmptyLog(l: Layout, d: Disk): Disk
    requires l.start < |d|
  {
    d[l.start := ZeroBlock()]
  }

  lemma EmptyLogOk(l: Layout, d: Disk)
    requires LayoutOk(l) && |d| == l.size
    ensures DiskOk(l, EmptyLog(l, d)) && GetWord(EmptyLog(l, d)[l.start], 0) == 0 && HomeEq(l, d, Recovered(l, EmptyLog(l, d)))
  {
    ZeroWords(0);
    var e := EmptyLog(l, d);
    forall b | Home(l, b) ensures Recovered(l, e)[b] == d[b] {
      RecoveredAt(l, e, b);
    }
  }

  /** Groups that are within the limits of an operation, on home blocks. */
  ghost predicate GroupsOk(g: Geo, groups: seq<seq<Write>>) {
    forall t {:trigger groups[t]} :: 0 <= t < |groups| ==> GroupWithin(g, groups[t], t)
  }

  ghost predicate GroupWithin(g: Geo, ws: seq<Write>, id: nat) {
    |ws| <= MAXOPBLOCKS && GroupMade(g, ws, id)
  }

  /** The machine can carry such groups: there is a run, from a disk with the same home blocks as base, whose groups they are. */
  lemma Carried(l: Layout, g: Geo, base: Disk, groups: seq<seq<Write>>, nbuf: nat) returns (run: seq<State>, steps: seq<Step>)
    requires LogBefore(l, g) && |base| == g.size && GroupsOk(g, groups) && nbuf > MAXOPBLOCKS + 1
    ensures Carries(l, run, steps, |steps|, base, groups) && run[|steps|].h.groups == groups && |run[0].cache.bufs| == nbuf
  {
    var d := EmptyLog(l, base);
    EmptyLogOk(l, base);
    forall t | 0 <= t < |groups| ensures GroupOk(l, groups[t], t) {
      assert GroupWithin(g, groups[t], t);
    }
    run, steps := RunExists(l, d, nbuf, groups);
    var h := run[|steps|].h;
    forall n | 0 <= n <= |groups| ensures HomeEq(l, Image(base, groups[..n]), Image(h.base, h.groups[..n])) {
      ImageHome(l, base, h.base, groups[..n]);
    }
  }

  /** One transaction: any operations of the inode layer, between a begin_op and an end_op. */
  method Transact(fs: F.FileSystem, ops: seq<F.Op>)
    requires fs.Valid()
    modifies fs
    ensures fs.Valid() && Logs(fs.g, old(fs.store), {}, fs.store, fs.logged)
  {
    fs.logged := {};
    LogsNothing(fs.g, fs.store, {});
    var n := 0;
    while n < |ops|
      invariant 0 <= n <= |ops| && fs.Valid() && Logs(fs.g, old(fs.store), {}, fs.store, fs.logged)
    {
      ghost var w := fs.Now();
      fs.Do(ops[n]);
      LogsThen(fs.g, old(fs.store), {}, w.store, w.logged, fs.store, fs.logged);
      n := n + 1;
    }
  }

  /** Any transactions, each committed as one group. Whatever a machine that carries them does, and whenever it loses power, recovery
      leaves a consistent file system; and if each fits its reservation, there is a run that carries them all. */
  method Serve(fs: F.FileSystem, txs: seq<seq<F.Op>>) returns (ghost groups: seq<seq<Write>>)
    requires fs.Valid()
    modifies fs
    ensures fs.Valid() && |groups| == |txs| && Image(old(fs.store), groups) == fs.store
    ensures forall l: Layout, run: seq<State>, steps: seq<Step>, k: nat ::
              LogBefore(l, fs.g) && Carries(l, run, steps, k, old(fs.store), groups) ==>
                DiskOk(l, run[k].disk) && HoldsFs(fs.g, Recovered(l, run[k].disk))
    ensures (forall t :: 0 <= t < |groups| ==> |groups[t]| <= MAXOPBLOCKS) ==>
              forall l: Layout :: LogBefore(l, fs.g) ==>
                exists run: seq<State>, steps: seq<Step> :: Carries(l, run, steps, |steps|, old(fs.store), groups) && run[|steps|].h.groups == groups
  {
    ghost var base := fs.store;
    groups := ServeAll(fs, txs);
    forall l: Layout, run: seq<State>, steps: seq<Step>, k: nat | LogBefore(l, fs.g) && Carries(l, run, steps, k, base, groups)
      ensures DiskOk(l, run[k].disk) && HoldsFs(fs.g, Recovered(l, run[k].disk))
    {
      ExplainedSame(l, fs.g, base, groups, run[k].h.base, run[k].h.groups);
      CrashConsistent(l, fs.g, run, steps, k);
    }
    if forall t :: 0 <= t < |groups| ==> |groups[t]| <= MAXOPBLOCKS {
      forall l: Layout | LogBefore(l, fs.g)
        ensures exists run: seq<State>, steps: seq<Step> :: Carries(l, run, steps, |steps|, base, groups) && run[|steps|].h.groups == groups
      {
        var run, steps := Carried(l, fs.g, base, groups, LOGBLOCKS);
      }
    }
  }

  /** Writes of a group, but for their number. */
  ghost predicate GroupMade(g: Geo, ws: seq<Write>, id: nat) {
    && (forall k :: 0 <= k < |ws| ==> ws[k].op == id && g.inodestart <= ws[k].block < g.size)
    && forall k, m :: 0 <= k < m < |ws| ==> ws[k].block != ws[m].block
  }

  method ServeAll(fs: F.FileSystem, txs: seq<seq<F.Op>>) returns (ghost groups: seq<seq<Write>>)
    requires fs.Valid()
    modifies fs
    ensures fs.Valid() && |groups| == |txs| && Image(old(fs.store), groups) == fs.store && Explained(fs.g, old(fs.store), groups)
    ensures forall t {:trigger groups[t]} :: 0 <= t < |groups| ==> GroupMade(fs.g, groups[t], t)
  {
    ghost var base := fs.store;
    groups := [];
    assert Consistent(fs.g, base, fs.tab, fs.owner, -1);
    var n := 0;
    while n < |txs|
      invariant 0 <= n == |groups| <= |txs| && fs.Valid() && Image(base, groups) == fs.store && Explained(fs.g, base, groups)
      invariant forall t {:trigger groups[t]} :: 0 <= t < |groups| ==> GroupMade(fs.g, groups[t], t)
    {
      ghost var was := fs.store;
      Transact(fs, txs[n]);
      ghost var ws := GroupOf(fs.g, n, was, fs.store, fs.logged);
      assert Consistent(fs.g, fs.store, fs.tab, fs.owner, -1);
      ExplainedMore(fs.g, base, groups, ws);
      groups := groups + [ws];
      n := n + 1;
    }
  }
}
