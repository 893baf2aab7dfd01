/** When nlink is not only at least, but exactly the number of entries: step by step, and where equality is lost. */
module NameExact {
  import opened NameSpec
  import opened NameSteps

  /** Nothing but entries and what is under way accounts for the count. */
  ghost predicate Exact(t: Tree, y: nat)
    requires y < |t.nodes|
  {
    t.nodes[y].nlink == Count(t.nodes, t.linked, y) + t.links[y] + t.unlinks[y]
  }

  ghost predicate AllExact(t: Tree) {
    forall y {:trigger Exact(t, y)} :: 1 <= y < |t.nodes| ==> Exact(t, y)
  }

  // ---------------------------------------------------------------- each step on its own

  lemma LinkStartExact(t: Tree, x: nat, y: nat)
    requires Inv(t) && 1 <= x < |t.nodes| && 1 <= y < |t.nodes|
    ensures Exact(LinkStart(t, x), y) <==> Exact(t, y) && !(y == x && t.nodes[x].nlink == SHRT_MAX)
  {
    SameCount(t, LinkStart(t, x), y, |t.nodes|);
  }

  lemma LinkUndoExact(t: Tree, x: nat, y: nat)
    requires Inv(t) && x in t.links && 1 <= x < |t.nodes| && 1 <= y < |t.nodes|
    ensures Exact(LinkUndo(t, x), y) <==> Exact(t, y)
  {
    SameCount(t, LinkUndo(t, x), y, |t.nodes|);
  }

  lemma UnlinkEndExact(t: Tree, x: nat, y: nat)
    requires Inv(t) && x in t.unlinks && 1 <= x < |t.nodes| && 1 <= y < |t.nodes|
    ensures Exact(UnlinkEnd(t, x), y) <==> Exact(t, y)
  {
    SameCount(t, UnlinkEnd(t, x), y, |t.nodes|);
  }

  lemma SetRefExact(t: Tree, x: nat, ref: nat, y: nat)
    requires x < |t.nodes| && 1 <= y < |t.nodes|
    ensures Exact(SetRef(t, x, ref), y) <==> Exact(t, y)
  {
    SameCount(t, SetRef(t, x, ref), y, |t.nodes|);
  }

  lemma LinkFinishExact(t: Tree, d: nat, name: string, x: nat, y: nat)
    requires Inv(t) && 1 <= d < |t.nodes| && t.nodes[d].typ == T_DIR && !HasName(t.nodes[d].entries, name) && x in t.links
    requires 1 <= y < |t.nodes|
    ensures Exact(LinkFinish(t, d, name, x), y) <==> Exact(t, y)
  {
    assert NodeOk(t, d);
    WithEntryOk(d, t.nodes[d].entries, Dirent(x, name));
    AddEntryCount(t, d, Dirent(x, name), y);
  }

  lemma UnlinkEntryExact(t: Tree, d: nat, s: nat, y: nat)
    requires Unlinkable(t, d, s) && t.nodes[d].entries[s].inum < |t.nodes| && 1 <= y < |t.nodes|
    ensures Exact(UnlinkEntry(t, d, s), y) <==> Exact(t, y)
  {
    Target(t, d, s);
    UnlinkCount(t, d, s, y);
  }

  lemma CreateExact(t: Tree, d: nat, name: string, x: nat, typ: nat, y: nat)
    requires Creatable(t, d, name, x, typ) && 1 <= y < |t.nodes|
    ensures Exact(Create(t, d, name, x, typ), y) <==> Exact(t, y) && !(typ == T_DIR && y == d && t.nodes[d].nlink == SHRT_MAX)
  {
    assert NodeOk(t, x) && x != d;
    FreeUnnamed(t, x);
    CreateCount(t, d, name, x, typ, y);
  }

  /** Freeing an inode loses equality for exactly the inodes that it still holds a link to. */
  lemma FreedExactIff(t: Tree, x: nat, y: nat)
    requires Inv(t) && 1 <= x < |t.nodes| && t.nodes[x].nlink == 0 && 1 <= y < |t.nodes|
    ensures Exact(Freed(t, x), y) <==> Exact(t, y) && (y == x || CountOf(t.nodes[x], y, x in t.linked) == 0)
  {
    FreeUnnamed(t, x);
    assert LinkOk(t, y);
    CountChange(t.nodes, t.linked, x, FREE, Freed(t, x).linked, y, |t.nodes|);
    CountPart(t.nodes, t.linked, x, y, |t.nodes|);
  }

  // ---------------------------------------------------------------- a directory freed with an entry in it

  /** Directory 2 was unlinked while in use, and then given the entry f. */
  function LeakTree(): Tree {
    var root := [Dirent(ROOTINO, "."), Dirent(ROOTINO, "..")];
    Tree([FREE, Node(T_DIR, 1, 1, root), Node(T_DIR, 0, 1, [Dirent(2, "."), Dirent(ROOTINO, ".."), Dirent(3, "f")]), Node(T_FILE, 1, 0, [])],
         {ROOTINO}, multiset{}, multiset{})
  }

  lemma LeakTreeCount(y: nat)
    requires 1 <= y < 4
    ensures Count(LeakTree().nodes, LeakTree().linked, y) == if y == 2 then 0 else 1
    ensures CountOf(LeakTree().nodes[2], y, false) == if y == 3 then 1 else 0
  {
    var t := LeakTree();
    var es := t.nodes[2].entries;
    NewDirCount(ROOTINO, ROOTINO, y);
    NewDirCount(2, ROOTINO, y);
    assert es == [Dirent(2, "."), Dirent(ROOTINO, "..")] + [Dirent(3, "f")];
    CountAppend([Dirent(2, "."), Dirent(ROOTINO, "..")], Dirent(3, "f"), y, false);
    assert CountUpTo(t.nodes, t.linked, y, 1) == 0;
    assert CountUpTo(t.nodes, t.linked, y, 2) == if y == 1 then 1 else 0;
    assert CountUpTo(t.nodes, t.linked, y, 3) == CountUpTo(t.nodes, t.linked, y, 2) + if y == 3 then 1 else 0;
  }

  /** Every count is exact, and the iput that frees the directory leaves f with a link that nothing accounts for. */
  lemma LeakTreeLeaks()
    ensures var t := LeakTree();
            && Inv(t) && AllExact(t) && t.nodes[2].ref == 1 && t.nodes[2].nlink == 0
            && !Exact(Freed(t, 2), 3) && Freed(t, 2).nodes[3].nlink > Count(Freed(t, 2).nodes, Freed(t, 2).linked, 3)
  {
    var t := LeakTree();
    forall y | 1 <= y < |t.nodes| ensures LinkOk(t, y) && Exact(t, y) {
      LeakTreeCount(y);
    }
    LeakTreeCount(3);
    FreedExactIff(t, 2, 3);
    FreedLeaks(t, 2, 2);
  }

  // ---------------------------------------------------------------- the steps of a run

  /** What one process does while it holds the locks it needs. */
  datatype Step =
    | Open(x: nat)
    | Close(x: nat)
    | StartLink(x: nat)
    | EndLink(x: nat, d: nat, name: string, fits: bool)
    | StartUnlink(d: nat, name: string)
    | EndUnlink(x: nat)
    | Make(d: nat, name: string, typ: nat, room: nat)

  /** iput: the inode is freed with its last reference once it has no links. */
  function Dropped(t: Tree, x: nat): Tree
    requires x < |t.nodes|
  {
    var n := t.nodes[x];
    if n.ref == 1 && n.nlink == 0 then Freed(t, x) else if n.ref == 0 then t else SetRef(t, x, n.ref - 1)
  }

  /** Can this step be taken now: inodes in use, and a process that got that far? */
  predicate Ready(nodes: seq<Node>, links: multiset<nat>, unlinks: multiset<nat>, step: Step) {
    match step
    case Open(x) => x < |nodes| && nodes[x].typ != 0
    case Close(x) => 1 <= x < |nodes| && nodes[x].ref > links[x] + unlinks[x]
    case StartLink(x) => 1 <= x < |nodes| && nodes[x].typ != 0
    case EndLink(x, d, _, _) => x in links && d < |nodes| && (d != 0 ==> nodes[d].typ == T_DIR)
    case StartUnlink(d, _) => 1 <= d < |nodes| && nodes[d].typ == T_DIR
    case EndUnlink(x) => x in unlinks
    case Make(d, _, typ, _) => 1 <= d < |nodes| && nodes[d].typ == T_DIR && typ != 0
  }

  ghost predicate Enabled(t: Tree, step: Step) {
    Inv(t) && Ready(t.nodes, t.links, t.unlinks, step)
  }

  /** Does sys_link get its entry? */
  predicate Linkable(t: Tree, d: nat, name: string, fits: bool) {
    0 < d < |t.nodes| && !HasName(t.nodes[d].entries, name) && fits
  }

  /** Slot s is the one that sys_unlink clears: a directory must be empty. */
  ghost predicate Clears(t: Tree, d: nat, name: string, s: nat) {
    && Unlinkable(t, d, s) && t.nodes[d].entries[s].name == name && t.nodes[d].entries[s].inum < |t.nodes|
    && var n := t.nodes[t.nodes[d].entries[s].inum];
       n.typ == T_DIR ==> forall r :: 2 <= r < |n.entries| ==> n.entries[r].inum == 0
  }

  /** A name is in one slot at most; sys_unlink never clears "." or "..". */
  lemma ClearsOne(t: Tree, d: nat, name: string)
    requires d < |t.nodes| && d != 0 && DirOk(d, t.nodes[d].entries)
    ensures forall s: nat, r: nat :: Clears(t, d, name, s) && Live(t.nodes[d].entries, r) && t.nodes[d].entries[r].name == name ==> r == s
    ensures forall s: nat :: Clears(t, d, name, s) ==> name != "." && name != ".." && HasName(t.nodes[d].entries, name)
  {
    var es := t.nodes[d].entries;
    assert Live(es, 0) && Live(es, 1);
    forall s: nat | Clears(t, d, name, s) ensures name != "." && name != ".." && HasName(es, name) {
      assert Live(es, s);
    }
  }

  /** Does create make a new inode? It needs a free one, and room for its entries. */
  predicate Makes(nodes: seq<Node>, d: nat, name: string, typ: nat, room: nat)
    requires d < |nodes|
  {
    && !HasName(nodes[d].entries, name) && (exists x :: 1 <= x < |nodes| && nodes[x].typ == 0)
    && room > if typ == T_DIR then 2 else 0
  }

  /** What a step makes of the tree; one that cannot be taken changes nothing. */
  ghost predicate Follows(t: Tree, step: Step, u: Tree) {
    if !Enabled(t, step) then u == t
    else
      match step
      case Open(x) => u == SetRef(t, x, t.nodes[x].ref + 1)
      case Close(x) => u == Dropped(t, x)
      case StartLink(x) => u == if t.nodes[x].typ == T_DIR then t else LinkStart(t, x)
      case EndLink(x, d, name, fits) =>
        x < |t.nodes| && u == Dropped(if Linkable(t, d, name, fits) then LinkFinish(t, d, name, x) else LinkUndo(t, x), x)
      case StartUnlink(d, name) =>
        || (u == t && !exists s: nat :: Clears(t, d, name, s))
        || (exists s: nat :: Clears(t, d, name, s) && u == UnlinkEntry(t, d, s))
      case EndUnlink(x) => x < |t.nodes| && u == Dropped(UnlinkEnd(t, x), x)
      case Make(d, name, typ, room) =>
        if Makes(t.nodes, d, name, typ, room) then exists x :: MadeAt(t, d, name, x, typ) && u == Create(t, d, name, x, typ)
        else if HasName(t.nodes[d].entries, name) then exists s: nat :: OpenedAt(t, d, name, typ, s, u)
        else u == t
  }

  /** create takes the lowest free inode. */
  ghost predicate MadeAt(t: Tree, d: nat, name: string, x: nat, typ: nat) {
    Creatable(t, d, name, x, typ) && forall y :: 1 <= y < x ==> t.nodes[y].typ != 0
  }

  /** create of a name that is there opens it, if a file is asked for and it is a file or a device. */
  ghost predicate OpenedAt(t: Tree, d: nat, name: string, typ: nat, s: nat, u: Tree)
    requires d < |t.nodes|
  {
    && Live(t.nodes[d].entries, s) && t.nodes[d].entries[s].name == name
    && var x := t.nodes[d].entries[s].inum;
       if x < |t.nodes| && typ == T_FILE && (t.nodes[x].typ == T_FILE || t.nodes[x].typ == T_DEVICE)
       then u == SetRef(t, x, t.nodes[x].ref + 1) else u == t
  }

  // ---------------------------------------------------------------- where equality is lost

  /** Does this step take the count of y past the largest short? */
  predicate Wraps(t: Tree, step: Step, y: nat) {
    y < |t.nodes| && t.nodes[y].nlink == SHRT_MAX &&
    match step
    case StartLink(x) => y == x && t.nodes[x].typ != T_DIR
    case Make(d, name, typ, room) => y == d && typ == T_DIR && Makes(t.nodes, d, name, typ, room)
    case _ => false
  }

  /** Does this step free a directory that still holds a link to y? */
  ghost predicate Leaks(t: Tree, step: Step, y: nat) {
    match step
    case Close(x) => x < |t.nodes| && y != x && t.nodes[x].ref == 1 && t.nodes[x].nlink == 0 && CountOf(t.nodes[x], y, x in t.linked) > 0
    case EndUnlink(x) => x < |t.nodes| && y != x && t.nodes[x].ref == 1 && t.nodes[x].nlink == 1 && CountOf(t.nodes[x], y, x in t.linked) > 0
    case _ => false
  }

  lemma DroppedExact(t: Tree, x: nat, y: nat)
    requires Inv(t) && 1 <= x < |t.nodes| && 1 <= y < |t.nodes|
    ensures Exact(Dropped(t, x), y) <==>
            Exact(t, y) && !(t.nodes[x].ref == 1 && t.nodes[x].nlink == 0 && y != x && CountOf(t.nodes[x], y, x in t.linked) > 0)
  {
    var n := t.nodes[x];
    if n.ref == 1 && n.nlink == 0 {
      FreedExactIff(t, x, y);
    } else if n.ref > 0 {
      SetRefExact(t, x, n.ref - 1, y);
    }
  }

  lemma EndLinkExact(t: Tree, x: nat, d: nat, name: string, fits: bool, u: Tree, y: nat)
    requires Enabled(t, EndLink(x, d, name, fits)) && Follows(t, EndLink(x, d, name, fits), u) && 1 <= y < |t.nodes|
    ensures |u.nodes| == |t.nodes| && (Exact(u, y) <==> Exact(t, y))
  {
    assert NodeOk(t, x);
    var w := if Linkable(t, d, name, fits) then LinkFinish(t, d, name, x) else LinkUndo(t, x);
    if Linkable(t, d, name, fits) {
      LinkFinishKeeps(t, d, name, x);
      LinkFinishExact(t, d, name, x, y);
    } else {
      LinkUndoKeeps(t, x);
      LinkUndoExact(t, x, y);
    }
    DroppedExact(w, x, y);
  }

  lemma StartUnlinkExact(t: Tree, d: nat, name: string, u: Tree, y: nat)
    requires Enabled(t, StartUnlink(d, name)) && Follows(t, StartUnlink(d, name), u) && 1 <= y < |t.nodes|
    ensures |u.nodes| == |t.nodes| && (Exact(u, y) <==> Exact(t, y))
  {
    if s: nat :| Clears(t, d, name, s) && u == UnlinkEntry(t, d, s) {
      UnlinkEntryExact(t, d, s, y);
    }
  }

  lemma EndUnlinkExact(t: Tree, x: nat, u: Tree, y: nat)
    requires Enabled(t, EndUnlink(x)) && Follows(t, EndUnlink(x), u) && 1 <= y < |t.nodes|
    ensures |u.nodes| == |t.nodes| && (Exact(u, y) <==> Exact(t, y) && !Leaks(t, EndUnlink(x), y))
  {
    UnlinkEndKeeps(t, x);
    UnlinkEndExact(t, x, y);
    DroppedExact(UnlinkEnd(t, x), x, y);
  }

  /** Over one step the count of y stays exact, or stays inexact, except that it is lost exactly when it wraps, and when a freed
      directory still held a link to y. */
  lemma StepExact(t: Tree, step: Step, u: Tree, y: nat)
    requires Enabled(t, step) && Follows(t, step, u) && 1 <= y < |t.nodes|
    ensures |u.nodes| == |t.nodes| && (Exact(u, y) <==> Exact(t, y) && !Wraps(t, step, y) && !Leaks(t, step, y))
  {
    match step {
      case Open(x) => SetRefExact(t, x, t.nodes[x].ref + 1, y);
      case Close(x) => DroppedExact(t, x, y);
      case StartLink(x) => LinkStartExact(t, x, y);
      case EndLink(x, d, name, fits) => EndLinkExact(t, x, d, name, fits, u, y);
      case StartUnlink(d, name) => StartUnlinkExact(t, d, name, u, y);
      case EndUnlink(x) => EndUnlinkExact(t, x, u, y);
      case Make(d, name, typ, room) => MakeExact(t, d, name, typ, room, u, y);
    }
  }

  lemma MakeExact(t: Tree, d: nat, name: string, typ: nat, room: nat, u: Tree, y: nat)
    requires Enabled(t, Make(d, name, typ, room)) && Follows(t, Make(d, name, typ, room), u) && 1 <= y < |t.nodes|
    ensures |u.nodes| == |t.nodes| && (Exact(u, y) <==> Exact(t, y) && !Wraps(t, Make(d, name, typ, room), y))
  {
    if Makes(t.nodes, d, name, typ, room) {
      var x :| MadeAt(t, d, name, x, typ) && u == Create(t, d, name, x, typ);
      CreateExact(t, d, name, x, typ, y);
    } else if HasName(t.nodes[d].entries, name) {
      var s: nat :| OpenedAt(t, d, name, typ, s, u);
      var x := t.nodes[d].entries[s].inum;
      if u != t {
        SetRefExact(t, x, t.nodes[x].ref + 1, y);
      }
    }
  }

  // ---------------------------------------------------------------- whole runs

  ghost predicate IsRun(trace: seq<Tree>, steps: seq<Step>) {
    |trace| == |steps| + 1 && forall i {:trigger steps[i]} :: 0 <= i < |steps| ==> Follows(trace[i], steps[i], trace[i + 1])
  }

  lemma RunMore(trace: seq<Tree>, steps: seq<Step>, n: nat, u: Tree)
    requires n < |steps| && IsRun(trace, steps[..n]) && Follows(trace[n], steps[n], u)
    ensures IsRun(trace + [u], steps[..n + 1])
  {
    var more, done := trace + [u], steps[..n + 1];
    forall i | 0 <= i < |done| ensures Follows(more[i], done[i], more[i + 1]) {
      if i < n {
        assert steps[..n][i] == done[i];
      }
    }
  }

  ghost predicate AnyWraps(t: Tree, step: Step) {
    Enabled(t, step) && exists y :: Wraps(t, step, y)
  }

  /** No step but the last wraps a count, and that one does exactly if wrapped. */
  ghost predicate WrapsLast(trace: seq<Tree>, steps: seq<Step>, n: nat, wrapped: bool) {
    && n < |trace| && n <= |steps| && (wrapped ==> n > 0)
    && forall i {:trigger steps[i]} :: 0 <= i < n ==> (AnyWraps(trace[i], steps[i]) <==> wrapped && i == n - 1)
  }

  ghost predicate Loses(t: Tree, step: Step, y: nat) {
    Enabled(t, step) && (Wraps(t, step, y) || Leaks(t, step, y))
  }

  /** In every run, nlink of y equals the entries that name it and what is under way exactly as long as it did at the start, its
      count has not wrapped, and no directory was freed that still held a link to y. */
  lemma {:induction false} RunExact(trace: seq<Tree>, steps: seq<Step>, k: nat, y: nat)
    requires IsRun(trace, steps) && k < |trace| && 1 <= y < |trace[0].nodes|
    ensures |trace[k].nodes| == |trace[0].nodes|
    ensures Exact(trace[k], y) <==> Exact(trace[0], y) && forall i {:trigger steps[i]} :: 0 <= i < k ==> !Loses(trace[i], steps[i], y)
  {
    if k > 0 {
      RunExact(trace, steps, k - 1, y);
      var t, step := trace[k - 1], steps[k - 1];
      if Enabled(t, step) {
        StepExact(t, step, trace[k], y);
      }
    }
  }
}
