/** kernel/sysfile.c and the directory part of kernel/fs.c in their own form. Each method is one stretch of code
    that runs under the inode locks it needs, so any interleaving of processes is a sequence of calls. */
module Names {
  import opened NameSpec
  import opened NameSteps
  import opened NameExact

  // ---------------------------------------------------------------- directories as maps

  /** What the directory maps name to; 0 for nothing. */
  ghost function Find(es: seq<Dirent>, name: string): nat {
    if es == [] then 0
    else if es[0].inum != 0 && es[0].name == name then es[0].inum
    else Find(es[1..], name)
  }

  lemma {:induction false} FindIs(es: seq<Dirent>, name: string, s: nat)
    requires s < |es| && es[s].inum != 0 && es[s].name == name
    requires forall r :: 0 <= r < |es| && r != s && es[r].inum != 0 ==> es[r].name != name
    ensures Find(es, name) == es[s].inum
  {
    if s > 0 {
      FindIs(es[1..], name, s - 1);
    }
  }

  lemma {:induction false} FindNone(es: seq<Dirent>, name: string)
    requires forall r :: 0 <= r < |es| && es[r].inum != 0 ==> es[r].name != name
    ensures Find(es, name) == 0
  {
    if es != [] {
      FindNone(es[1..], name);
    }
  }

  /** Slots that agree on the live entries called name map it alike. */
  lemma {:induction false} FindPut(es: seq<Dirent>, s: nat, e: Dirent, name: string)
    requires s < |es| && (es[s].inum == 0 || es[s].name != name) && (e.inum == 0 || e.name != name)
    ensures Find(es[s := e], name) == Find(es, name)
  {
    if s == 0 {
      assert es[s := e][1..] == es[1..];
    } else {
      assert es[s := e][1..] == es[1..][s - 1 := e];
      FindPut(es[1..], s - 1, e, name);
    }
  }

  lemma {:induction false} FindAppend(es: seq<Dirent>, e: Dirent, name: string)
    requires e.inum == 0 || e.name != name
    ensures Find(es + [e], name) == Find(es, name)
  {
    if es != [] {
      assert (es + [e])[1..] == es[1..] + [e];
      FindAppend(es[1..], e, name);
    }
  }

  /** dirlink adds one name to the map. */
  lemma FindLinked(d: nat, es: seq<Dirent>, e: Dirent, name: string)
    requires DirOk(d, es) && d != 0 && e.inum != 0 && !HasName(es, e.name)
    ensures Find(WithEntry(es, e), name) == if name == e.name then e.inum else Find(es, name)
  {
    var s := FirstFree(es);
    if name == e.name {
      var fs := WithEntry(es, e);
      forall r | 0 <= r < |fs| && r != s && fs[r].inum != 0 ensures fs[r].name != name {
        assert r < |es| && es[r] == fs[r] && Live(es, r);
      }
      FindIs(fs, name, s);
    } else if s < |es| {
      FindPut(es, s, e, name);
    } else {
      FindAppend(es, e, name);
    }
  }

  /** unlink removes one name from the map. */
  lemma FindUnlinked(d: nat, es: seq<Dirent>, s: nat, name: string)
    requires DirOk(d, es) && s < |es| && es[s].inum != 0
    ensures Find(es[s := Dirent(0, "")], name) == if name == es[s].name then 0 else Find(es, name)
  {
    if name == es[s].name {
      var fs := es[s := Dirent(0, "")];
      forall r | 0 <= r < |fs| && fs[r].inum != 0 ensures fs[r].name != name {
        assert Live(es, r) && Live(es, s);
      }
      FindNone(fs, name);
    } else {
      FindPut(es, s, Dirent(0, ""), name);
    }
  }

  /** A root directory with nothing in it. */
  function RootNode(): Node {
    Node(T_DIR, 1, 0, [Dirent(ROOTINO, "."), Dirent(ROOTINO, "..")])
  }

  class FileTree {
    var nodes: seq<Node>
    var links: multiset<nat>      // inodes whose sys_link is between its two halves
    var unlinks: multiset<nat>    // inodes whose sys_unlink has cleared the entry only
    ghost var linked: set<nat>

    ghost function T(): Tree
      reads this
    {
      Tree(nodes, linked, links, unlinks)
    }

    ghost predicate Valid()
      reads this
    {
      Inv(T())
    }

    /** dirlookup: the slot that holds name, or -1. */
    method Dirlookup(d: nat, name: string) returns (s: int)
      requires d < |nodes| && nodes[d].typ == T_DIR
      ensures s == -1 <==> !HasName(nodes[d].entries, name)
      ensures s != -1 ==> 0 <= s < |nodes[d].entries| && Live(nodes[d].entries, s) && nodes[d].entries[s].name == name
    {
      var es := nodes[d].entries;
      s := 0;
      while s < |es|
        invariant 0 <= s <= |es| && forall r :: 0 <= r < s && Live(es, r) ==> es[r].name != name
      {
        if es[s].inum != 0 && es[s].name == name {
          assert Live(es, s);
          return;
        }
        s := s + 1;
      }
      s := -1;
    }

    /** dirlink: fails if the name is there, or if writei has no room for the slot. */
    method Dirlink(d: nat, name: string, inum: nat, room: bool) returns (ok: bool)
      requires d < |nodes| && nodes[d].typ == T_DIR
      modifies this`nodes
      ensures ok <==> !HasName(old(nodes)[d].entries, name) && room
      ensures ok ==> T() == AddEntry(old(T()), d, Dirent(inum, name))
      ensures !ok ==> nodes == old(nodes)
    {
      var found := Dirlookup(d, name);
      if found != -1 || !room {
        return false;
      }
      var es := nodes[d].entries;
      var off := 0;
      while off < |es| && es[off].inum != 0
        invariant 0 <= off <= |es| && forall r :: 0 <= r < off ==> es[r].inum != 0
      {
        off := off + 1;
      }
      assert off == FirstFree(es);
      es := if off < |es| then es[off := Dirent(inum, name)] else es + [Dirent(inum, name)];
      nodes := nodes[d := nodes[d].(entries := es)];
      ok := true;
    }

    /** isdirempty: whether nothing but "." and ".." is left. */
    method IsDirEmpty(x: nat) returns (r: bool)
      requires x < |nodes| && x != 0 && DirOk(x, nodes[x].entries)
      ensures r <==> forall s :: 0 <= s < |nodes[x].entries| && Live(nodes[x].entries, s) ==>
                       nodes[x].entries[s].name == "." || nodes[x].entries[s].name == ".."
    {
      var es := nodes[x].entries;
      assert Live(es, 0) && Live(es, 1);
      var off := 2;
      while off < |es|
        invariant 2 <= off <= |es| && forall s :: 2 <= s < off ==> es[s].inum == 0
      {
        if es[off].inum != 0 {
          assert Live(es, off);
          return false;
        }
        off := off + 1;
      }
      return true;
    }

    /** iget. */
    method Iget(x: nat)
      requires Valid() && x < |nodes| && nodes[x].typ != 0
      modifies this`nodes
      ensures Valid() && nodes == old(nodes)[x := old(nodes)[x].(ref := old(nodes)[x].ref + 1)]
    {
      assert NodeOk(T(), x);
      SetRefKeeps(T(), x, nodes[x].ref + 1);
      nodes := nodes[x := nodes[x].(ref := nodes[x].ref + 1)];
    }

    /** iput by a holder of a reference: it never frees an inode that an entry still names. */
    method Iput(x: nat, valid: bool) returns (freed: bool)
      requires Valid() && 1 <= x < |nodes| && nodes[x].ref > links[x] + unlinks[x]
      modifies this`nodes, this`linked
      ensures Valid()
      ensures freed <==> old(nodes)[x].ref == 1 && valid && old(nodes)[x].nlink == 0
      ensures freed ==> forall d, s :: 0 <= d < |old(nodes)| && old(nodes)[d].typ == T_DIR && 0 <= s < |old(nodes)[d].entries| ==>
                          !Counts(old(nodes)[d].entries[s], x, d in old(linked))
      ensures T() == if freed then Freed(old(T()), x) else SetRef(old(T()), x, old(nodes)[x].ref - 1)
    {
      assert NodeOk(T(), x);
      freed := nodes[x].ref == 1 && valid && nodes[x].nlink == 0;
      if freed {
        FreedKeeps(T(), x);
        nodes := nodes[x := nodes[x].(typ := 0, entries := [])];
        linked := linked - {x};
      } else {
        SetRefKeeps(T(), x, nodes[x].ref - 1);
      }
      nodes := nodes[x := nodes[x].(ref := nodes[x].ref - 1)];
      assert freed ==> nodes == old(nodes)[x := FREE];
    }

    /** sys_link up to iunlock(ip); a directory cannot be linked. The invariant survives unless the count wraps. */
    method LinkBegin(x: nat) returns (ok: bool)
      requires Valid() && 1 <= x < |nodes| && nodes[x].typ != 0
      modifies this`nodes, this`links
      ensures ok <==> old(nodes)[x].typ != T_DIR
      ensures ok ==> T() == LinkStart(old(T()), x) && (Valid() <==> old(nodes)[x].nlink != SHRT_MAX)
      ensures !ok ==> T() == old(T())
    {
      if nodes[x].typ == T_DIR {
        return false;
      }
      LinkStartKeeps(T(), x);
      nodes := nodes[x := nodes[x].(nlink := Incremented(nodes[x].nlink), ref := nodes[x].ref + 1)];
      links := links + multiset{x};
      ok := true;
    }

    /** The rest of sys_link: the entry in dp, or the count back down. d is 0 when nameiparent fails. */
    method LinkEnd(x: nat, d: nat, name: string, room: bool) returns (ok: bool)
      requires Valid() && x in links && d < |nodes| && (d != 0 ==> nodes[d].typ == T_DIR)
      modifies this
      ensures Valid() && 1 <= x < |nodes| == old(|nodes|)
      ensures ok <==> d != 0 && !HasName(old(nodes)[d].entries, name) && room
      ensures T() == Dropped(if ok then LinkFinish(old(T()), d, name, x) else LinkUndo(old(T()), x), x)
    {
      ok := LinkSettle(x, d, name, room);
      var freed := Iput(x, true);
    }

    /** The entry, or the count back down. */
    method LinkSettle(x: nat, d: nat, name: string, room: bool) returns (ok: bool)
      requires Valid() && x in links && d < |nodes| && (d != 0 ==> nodes[d].typ == T_DIR)
      modifies this`nodes, this`links
      ensures Valid() && 1 <= x < |nodes| == old(|nodes|) && nodes[x].ref > links[x] + unlinks[x]
      ensures ok <==> d != 0 && !HasName(old(nodes)[d].entries, name) && room
      ensures T() == if ok then LinkFinish(old(T()), d, name, x) else LinkUndo(old(T()), x)
    {
      ok := false;
      if d != 0 {
        ok := LinkEntry(x, d, name, room);
      }
      if !ok {
        LinkBack(x);
      }
    }

    method LinkBack(x: nat)
      requires Valid() && x in links
      modifies this`nodes, this`links
      ensures Valid() && 1 <= x < |nodes| == old(|nodes|) && T() == LinkUndo(old(T()), x) && nodes[x].ref > links[x] + unlinks[x]
    {
      LinkUndoKeeps(T(), x);
      nodes := nodes[x := nodes[x].(nlink := nodes[x].nlink - 1)];
      links := links - multiset{x};
    }

    method LinkEntry(x: nat, d: nat, name: string, room: bool) returns (ok: bool)
      requires Valid() && x in links && 1 <= d < |nodes| && nodes[d].typ == T_DIR
      modifies this`nodes, this`links
      ensures Valid() && 1 <= x < |nodes| == old(|nodes|)
      ensures ok <==> !HasName(old(nodes)[d].entries, name) && room
      ensures ok ==> T() == LinkFinish(old(T()), d, name, x) && nodes[x].ref > links[x] + unlinks[x]
      ensures !ok ==> T() == old(T())
    {
      ghost var t := T();
      ok := Dirlink(d, name, x, room);
      if ok {
        LinkFinishKeeps(t, d, name, x);
        links := links - multiset{x};
      }
    }

    /** sys_unlink while it holds the directory: the panic "nlink < 1" cannot happen. Returns the inode, or 0. */
    method UnlinkBegin(d: nat, name: string) returns (x: nat, ghost s: int)
      requires Valid() && 1 <= d < |nodes| && nodes[d].typ == T_DIR
      modifies this
      ensures Valid() && links == old(links) && |nodes| == old(|nodes|)
      ensures x == 0 ==> T() == old(T()) && !exists r: nat :: Clears(old(T()), d, name, r)
      ensures x != 0 ==>
                && x < |nodes| && name != "." && name != ".." && s >= 0 && Clears(old(T()), d, name, s)
                && old(nodes)[d].entries[s] == Dirent(x, name) && T() == UnlinkEntry(old(T()), d, s)
    {
      s := -1;
      assert NodeOk(T(), d);
      ClearsOne(T(), d, name);
      if name == "." || name == ".." {
        return 0, s;
      }
      var off := Dirlookup(d, name);
      if off == -1 {
        return 0, s;
      }
      UnlinkEntryKeeps(T(), d, off);
      Target(T(), d, off);
      x := nodes[d].entries[off].inum;
      assert nodes[x].nlink >= 1;
      if nodes[x].typ == T_DIR {
        var empty := IsDirEmpty(x);
        if !empty {
          return 0, s;
        }
      }
      s := off;
      ClearEntry(d, off, x);
    }

    /** sys_unlink's writes under the directory's lock. */
    method ClearEntry(d: nat, off: nat, x: nat)
      requires d < |nodes| && off < |nodes[d].entries| && nodes[d].entries[off].inum == x < |nodes| && x != d
      modifies this
      ensures T() == UnlinkEntry(old(T()), d, off)
    {
      nodes := nodes[d := nodes[d].(entries := nodes[d].entries[off := Dirent(0, "")])];
      if nodes[x].typ == T_DIR {
        nodes := nodes[d := nodes[d].(nlink := nodes[d].nlink - 1)];
        linked := linked - {x};
      }
      nodes := nodes[x := nodes[x].(ref := nodes[x].ref + 1)];
      unlinks := unlinks + multiset{x};
    }

    /** The rest of sys_unlink: the link goes, and the inode with its last reference. */
    method UnlinkEnd(x: nat) returns (freed: bool)
      requires Valid() && x in unlinks
      modifies this
      ensures Valid() && |nodes| == old(|nodes|) && x < |nodes| && T() == Dropped(NameSteps.UnlinkEnd(old(T()), x), x)
      ensures 1 <= x < old(|nodes|) && (freed <==> old(nodes)[x].ref == 1 && old(nodes)[x].nlink == 1)
    {
      UnlinkEndKeeps(T(), x);
      nodes := nodes[x := nodes[x].(nlink := nodes[x].nlink - 1)];
      unlinks := unlinks - multiset{x};
      freed := Iput(x, true);
    }

    /** ialloc: the lowest free inode, or 0. */
    method Ialloc() returns (x: nat)
      requires Valid()
      ensures x != 0 ==> x < |nodes| && nodes[x].typ == 0 && forall y :: 1 <= y < x ==> nodes[y].typ != 0
      ensures x == 0 ==> forall y :: 1 <= y < |nodes| ==> nodes[y].typ != 0
    {
      x := 1;
      while x < |nodes|
        invariant 1 <= x <= |nodes| && forall y :: 1 <= y < x ==> nodes[y].typ != 0
      {
        if nodes[x].typ == 0 {
          return;
        }
        x := x + 1;
      }
      x := 0;
    }

    /** create: room is how many of its directory writes succeed before the disk is full. The result is the inode,
        or 0 on failure, and a failure after ialloc leaves no trace. */
    method Create(d: nat, name: string, typ: nat, room: nat) returns (x: nat, ghost isNew: bool)
      requires Valid() && 1 <= d < |nodes| && nodes[d].typ == T_DIR && typ != 0
      modifies this`nodes, this`linked
      ensures x == 0 ==> T() == old(T())
      ensures isNew <==> Makes(old(nodes), d, name, typ, room)
      ensures isNew ==> x != 0
      ensures !isNew ==> Valid() && |nodes| == old(|nodes|) && (x != 0 ==> typ == T_FILE)
      ensures HasName(old(nodes)[d].entries, name) ==> exists s: nat :: OpenedAt(old(T()), d, name, typ, s, T())
      ensures !isNew && !HasName(old(nodes)[d].entries, name) ==> x == 0
      ensures isNew ==>
                && MadeAt(old(T()), d, name, x, typ) && T() == NameSteps.Create(old(T()), d, name, x, typ)
                && (Valid() <==> !(typ == T_DIR && old(nodes)[d].nlink == SHRT_MAX))
    {
      isNew := false;
      var s := Dirlookup(d, name);
      if s != -1 {
        x := nodes[d].entries[s].inum;
        if x < |nodes| && typ == T_FILE && (nodes[x].typ == T_FILE || nodes[x].typ == T_DEVICE) {
          Iget(x);
          assert OpenedAt(old(T()), d, name, typ, s, T());
          return;
        }
        assert OpenedAt(T(), d, name, typ, s, T());
        return 0, false;
      }
      x := Ialloc();
      if x == 0 {
        return;
      }
      CreateKeeps(T(), d, name, x, typ);
      assert NodeOk(T(), x);
      ghost var was := nodes;
      var ok := CreateEntries(d, name, x, typ, room);
      if !ok {
        nodes := nodes[x := FREE];
        assert nodes == was;
        return 0, false;
      }
      isNew := true;
    }

    /** create between ialloc and iunlockput(dp). */
    method CreateEntries(d: nat, name: string, x: nat, typ: nat, room: nat) returns (ok: bool)
      requires d < |nodes| && nodes[d].typ == T_DIR && 1 <= x < |nodes| && x != d && nodes[x].typ == 0 && typ != 0
      requires !HasName(nodes[d].entries, name)
      modifies this`nodes, this`linked
      ensures ok <==> room > if typ == T_DIR then 2 else 0
      ensures ok ==> T() == NameSteps.Create(old(T()), d, name, x, typ)
      ensures !ok ==> |nodes| == old(|nodes|) && linked == old(linked)
                      && forall y :: 0 <= y < |nodes| && y != x ==> nodes[y] == old(nodes)[y]
    {
      nodes := nodes[x := Node(typ, 0, 1, [])];
      nodes := nodes[x := nodes[x].(nlink := 1)];
      ghost var t := T();
      if typ == T_DIR {
        ok := Dirlink(x, ".", x, room > 0);
        if !ok {
          return;
        }
        assert nodes[x].entries == [Dirent(x, ".")];
        ok := Dirlink(x, "..", d, room > 1);
        if !ok {
          return;
        }
        assert FirstFree([Dirent(x, ".")]) == 1;
        assert nodes[x].entries == [Dirent(x, "."), Dirent(d, "..")];
      }
      assert T() == Allocate(old(T()), d, x, typ);
      ok := Dirlink(d, name, x, room > if typ == T_DIR then 2 else 0);
      if !ok {
        return;
      }
      if typ == T_DIR {
        nodes := nodes[d := nodes[d].(nlink := Incremented(nodes[d].nlink))];
        linked := linked + {x};
      }
    }

    /** A file tree with n inodes and nothing but the root directory. */
    constructor (n: nat)
      requires n > ROOTINO
      ensures Valid() && AllExact(T()) && |nodes| == n && linked == {ROOTINO} && links == unlinks == multiset{}
      ensures forall x :: 0 <= x < n ==> nodes[x] == if x == ROOTINO then RootNode() else FREE
    {
      nodes := seq(n, x => if x == ROOTINO then RootNode() else FREE);
      links, unlinks, linked := multiset{}, multiset{}, {ROOTINO};
      new;
      RootOnly(T());
    }

    /** One step. wrapped tells that it took a link count past the largest short, which the step and the state before it decide. */
    method Take(step: Step) returns (wrapped: bool)
      requires Valid() && Ready(nodes, links, unlinks, step)
      modifies this
      ensures Follows(old(T()), step, T()) && (Valid() <==> !wrapped)
      ensures wrapped <==> exists y :: Wraps(old(T()), step, y)
    {
      wrapped := false;
      match step {
        case Open(x) =>
          Iget(x);
        case Close(x) =>
          var freed := Iput(x, true);
        case StartLink(x) =>
          wrapped := TakeLink(x);
        case EndLink(x, d, name, fits) =>
          var ok := LinkEnd(x, d, name, fits);
        case StartUnlink(d, name) =>
          var x, s := UnlinkBegin(d, name);
        case EndUnlink(x) =>
          var freed := UnlinkEnd(x);
        case Make(d, name, typ, room) =>
          wrapped := TakeMake(d, name, typ, room);
      }
    }

    method TakeLink(x: nat) returns (wrapped: bool)
      requires Valid() && Ready(nodes, links, unlinks, StartLink(x))
      modifies this
      ensures Follows(old(T()), StartLink(x), T()) && (Valid() <==> !wrapped)
      ensures wrapped <==> exists y :: Wraps(old(T()), StartLink(x), y)
    {
      wrapped := nodes[x].typ != T_DIR && nodes[x].nlink == SHRT_MAX;
      assert Wraps(T(), StartLink(x), x) <==> wrapped;
      var ok := LinkBegin(x);
    }

    method TakeMake(d: nat, name: string, typ: nat, room: nat) returns (wrapped: bool)
      requires Valid() && Ready(nodes, links, unlinks, Make(d, name, typ, room))
      modifies this
      ensures Follows(old(T()), Make(d, name, typ, room), T()) && (Valid() <==> !wrapped)
      ensures wrapped <==> exists y :: Wraps(old(T()), Make(d, name, typ, room), y)
    {
      var full := typ == T_DIR && nodes[d].nlink == SHRT_MAX;
      assert Wraps(T(), Make(d, name, typ, room), d) <==> full && Makes(nodes, d, name, typ, room);
      var x, isNew := Create(d, name, typ, room);
      wrapped := full && x != 0;
    }

    method TakeIfReady(step: Step) returns (wrapped: bool)
      requires Valid()
      modifies this
      ensures Follows(old(T()), step, T()) && (Valid() <==> !wrapped) && (wrapped <==> AnyWraps(old(T()), step))
    {
      wrapped := false;
      if Ready(nodes, links, unlinks, step) {
        wrapped := Take(step);
      }
    }

    /** Any interleaving keeps the promise about link counts, up to the first step, if there is one, that takes a count past the
        largest short. The history shows the tree between steps. */
    method Run(steps: seq<Step>) returns (wrapped: bool, n: nat, ghost trace: seq<Tree>)
      requires Valid()
      modifies this
      ensures n <= |steps| && (!wrapped ==> n == |steps|) && IsRun(trace, steps[..n]) && trace[0] == old(T()) && trace[n] == T()
      ensures (Valid() <==> !wrapped) && WrapsLast(trace, steps, n, wrapped)
    {
      wrapped, n, trace := false, 0, [T()];
      while n < |steps| && !wrapped
        invariant n <= |steps| && IsRun(trace, steps[..n]) && trace[0] == old(T()) && trace[n] == T() && (Valid() <==> !wrapped)
        invariant WrapsLast(trace, steps, n, wrapped)
      {
        wrapped := TakeIfReady(steps[n]);
        RunMore(trace, steps, n, T());
        trace, n := trace + [T()], n + 1;
      }
    }
  }

  lemma RootOnly(t: Tree)
    requires |t.nodes| > ROOTINO && t.links == multiset{} && t.unlinks == multiset{} && t.linked == {ROOTINO}
    requires t.nodes[ROOTINO] == RootNode()
    requires forall x :: 0 <= x < |t.nodes| && x != ROOTINO ==> t.nodes[x] == FREE
    ensures Inv(t) && AllExact(t)
  {
    forall x | 1 <= x < |t.nodes| ensures LinkOk(t, x) && Exact(t, x) {
      RootCount(t, x, |t.nodes|);
    }
  }

  lemma {:induction false} RootCount(t: Tree, x: nat, k: nat)
    requires |t.nodes| > ROOTINO && t.linked == {ROOTINO} && k <= |t.nodes| && x != 0
    requires t.nodes[ROOTINO] == RootNode()
    requires forall y :: 0 <= y < |t.nodes| && y != ROOTINO ==> t.nodes[y] == FREE
    ensures CountUpTo(t.nodes, t.linked, x, k) == if k > ROOTINO && x == ROOTINO then 1 else 0
  {
    if k > 0 {
      RootCount(t, x, k - 1);
      NewDirCount(ROOTINO, ROOTINO, x);
    }
  }

  /** The first two slots of a directory, and one name after them. */
  function Slots(x: nat, parent: nat, e: Dirent): seq<Dirent> {
    [Dirent(x, "."), Dirent(parent, ".."), e]
  }

  /** A directory d in the root, made and kept open. */
  method MakeOpen() returns (fs: FileTree)
    ensures fresh(fs) && fs.Valid() && |fs.nodes| == 4 && fs.links == fs.unlinks == multiset{} && fs.nodes[3] == FREE
    ensures fs.nodes[1] == Node(T_DIR, 2, 0, Slots(1, 1, Dirent(2, "d"))) && fs.nodes[2] == Node(T_DIR, 1, 1, [Dirent(2, "."), Dirent(1, "..")])
  {
    fs := new FileTree(4);
    assert fs.nodes[2].typ == 0 && !HasName(fs.nodes[1].entries, "d");
    var d;
    ghost var isNew;
    d, isNew := fs.Create(ROOTINO, "d", T_DIR, 3);
    assert d == 2;
  }

  /** The slot of d is the one that unlink clears. */
  lemma OpenClears(t: Tree)
    requires Inv(t) && |t.nodes| == 4 && t.nodes[1] == Node(T_DIR, 2, 0, Slots(1, 1, Dirent(2, "d")))
    requires t.nodes[2] == Node(T_DIR, 1, 1, [Dirent(2, "."), Dirent(1, "..")])
    ensures Clears(t, 1, "d", 2) && forall s: nat :: Clears(t, 1, "d", s) ==> s == 2
    ensures UnlinkEntry(t, 1, 2).nodes[2] == Node(T_DIR, 1, 2, [Dirent(2, "."), Dirent(1, "..")])
  {
    assert Unlinkable(t, 1, 2) && NodeOk(t, 1);
    ClearsOne(t, 1, "d");
    assert Live(t.nodes[1].entries, 2);
  }

  /** It is unlinked while it is open. */
  method UnlinkOpen() returns (fs: FileTree)
    ensures fresh(fs) && fs.Valid() && |fs.nodes| == 4 && fs.links == fs.unlinks == multiset{} && fs.nodes[3] == FREE
    ensures fs.nodes[1].typ == T_DIR && fs.nodes[2] == Node(T_DIR, 0, 1, [Dirent(2, "."), Dirent(1, "..")])
  {
    fs := MakeOpen();
    OpenClears(fs.T());
    var x, freed;
    ghost var s;
    x, s := fs.UnlinkBegin(ROOTINO, "d");
    freed := fs.UnlinkEnd(x);
  }

  /** A run in which equality is lost: directory d is made and kept open, unlinked, given the file f, and closed. */
  method LoseLink() returns (fs: FileTree)
    ensures fresh(fs) && fs.Valid() && !AllExact(fs.T())
  {
    fs := UnlinkOpen();
    assert fs.nodes[3].typ == 0 && !HasName(fs.nodes[2].entries, "f");
    var f, freed;
    ghost var isNew;
    f, isNew := fs.Create(2, "f", T_FILE, 1);
    assert f == 3;
    ghost var t := fs.T();
    assert t.nodes[2] == Node(T_DIR, 0, 1, Slots(2, 1, Dirent(3, "f")));
    CountHas(t.nodes[2].entries, 2, 3, 2 in t.linked);
    FreedExactIff(t, 2, 3);
    freed := fs.Iput(2, true);
    assert !Exact(fs.T(), 3);
  }
}
