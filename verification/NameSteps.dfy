/** The steps of link, unlink, create and iput as the locks order them, and the proof that each keeps the
    promise about link counts. */
module NameSteps {
  import opened NameSpec

  /** One more link, on a 16-bit short. */
  function Incremented(n: int): int {
    if n == SHRT_MAX then -SHRT_MAX - 1 else n + 1
  }

  function FirstFree(es: seq<Dirent>): (s: nat)
    ensures s <= |es| && (s < |es| ==> es[s].inum == 0) && forall r :: 0 <= r < s ==> es[r].inum != 0
  {
    if es == [] then 0 else if es[0].inum == 0 then 0 else
      var s := FirstFree(es[1..]);
      assert forall r :: 0 < r < s + 1 ==> es[r] == es[1..][r - 1];
      s + 1
  }

  /** dirlink's write: the first empty slot, or a new one at the end. */
  function WithEntry(es: seq<Dirent>, e: Dirent): seq<Dirent> {
    var s := FirstFree(es);
    if s < |es| then es[s := e] else es + [e]
  }

  predicate HasName(es: seq<Dirent>, name: string) {
    exists s :: 0 <= s < |es| && Live(es, s) && es[s].name == name
  }

  lemma WithEntryCount(es: seq<Dirent>, e: Dirent, x: nat, linked: bool)
    requires x != 0
    ensures CountIn(WithEntry(es, e), x, linked) == CountIn(es, x, linked) + if Counts(e, x, linked) then 1 else 0
  {
    var s := FirstFree(es);
    if s < |es| {
      CountPut(es, s, e, x, linked);
    } else {
      CountAppend(es, e, x, linked);
    }
  }

  lemma WithEntryOk(d: nat, es: seq<Dirent>, e: Dirent)
    requires DirOk(d, es) && d != 0 && e.inum != 0 && !HasName(es, e.name)
    ensures DirOk(d, WithEntry(es, e)) && FirstFree(es) >= 2 && e.name != "." && e.name != ".."
  {
    assert Live(es, 0) && Live(es, 1);
    assert es[0].name == "." && es[1].name == "..";
  }

  // ---------------------------------------------------------------- link

  /** sys_link's first half: the count goes up before the entry exists. */
  function LinkStart(t: Tree, x: nat): Tree
    requires x < |t.nodes|
  {
    var n := t.nodes[x];
    t.(nodes := t.nodes[x := n.(nlink := Incremented(n.nlink), ref := n.ref + 1)], links := t.links + multiset{x})
  }

  /** Only counters of x change: the directories, and so every count, stay. */
  ghost predicate SameDirs(t: Tree, u: Tree) {
    && |u.nodes| == |t.nodes| && u.linked == t.linked
    && forall x {:trigger u.nodes[x]} :: 0 <= x < |t.nodes| ==>
         u.nodes[x].typ == t.nodes[x].typ && u.nodes[x].entries == t.nodes[x].entries
  }

  lemma {:induction false} SameCount(t: Tree, u: Tree, x: nat, k: nat)
    requires SameDirs(t, u) && k <= |t.nodes|
    ensures CountUpTo(u.nodes, u.linked, x, k) == CountUpTo(t.nodes, t.linked, x, k)
  {
    if k > 0 {
      SameCount(t, u, x, k - 1);
      var j := k - 1;
      assert u.nodes[j].typ == t.nodes[j].typ && u.nodes[j].entries == t.nodes[j].entries;
    }
  }

  lemma SameDirsSlots(t: Tree, u: Tree)
    requires Inv(t) && SameDirs(t, u)
    ensures RootOk(u)
    ensures forall d, s {:trigger SlotOk(u, d, s)} :: 0 <= d < |u.nodes| && 0 <= s < |u.nodes[d].entries| ==> SlotOk(u, d, s)
    ensures forall d, s, s' {:trigger OneName(u, d, s, s')} ::
          0 <= d < |u.nodes| && 0 <= s < |u.nodes[d].entries| && 0 <= s' < |u.nodes[d].entries| ==> OneName(u, d, s, s')
  {
    forall d, s | 0 <= d < |u.nodes| && 0 <= s < |u.nodes[d].entries| ensures SlotOk(u, d, s) {
      assert SlotOk(t, d, s);
    }
    forall d, s, s' | 0 <= d < |u.nodes| && 0 <= s < |u.nodes[d].entries| && 0 <= s' < |u.nodes[d].entries|
      ensures OneName(u, d, s, s')
    {
      assert OneName(t, d, s, s');
      assert SlotOk(t, d, s);
    }
  }

  /** A step that only moves counters keeps the invariant when each inode's counters still balance. */
  lemma CountersKeep(t: Tree, u: Tree)
    requires Inv(t) && SameDirs(t, u)
    requires forall x {:trigger NodeOk(u, x)} :: 0 <= x < |u.nodes| ==> NodeOk(u, x)
    requires forall x :: x in u.links || x in u.unlinks ==> 1 <= x < |u.nodes|
    requires forall x {:trigger u.nodes[x]} :: 1 <= x < |u.nodes| ==>
               u.nodes[x].nlink - u.links[x] - u.unlinks[x] >= t.nodes[x].nlink - t.links[x] - t.unlinks[x]
    ensures Inv(u)
  {
    SameDirsSlots(t, u);
    forall x | 1 <= x < |u.nodes| ensures LinkOk(u, x) {
      assert LinkOk(t, x);
      SameCount(t, u, x, |t.nodes|);
    }
  }

  lemma LinkStartKeeps(t: Tree, x: nat)
    requires Inv(t) && 1 <= x < |t.nodes| && t.nodes[x].typ != 0 && t.nodes[x].typ != T_DIR
    ensures Inv(LinkStart(t, x)) <==> t.nodes[x].nlink != SHRT_MAX
  {
    var u := LinkStart(t, x);
    assert LinkOk(t, x);
    if t.nodes[x].nlink == SHRT_MAX {
      assert !LinkOk(u, x);
    } else {
      forall y | 0 <= y < |u.nodes| ensures NodeOk(u, y) {
        assert NodeOk(t, y);
      }
      CountersKeep(t, u);
    }
  }

  /** sys_link's failure: the count goes down again. */
  function LinkUndo(t: Tree, x: nat): Tree
    requires x < |t.nodes|
  {
    t.(nodes := t.nodes[x := t.nodes[x].(nlink := t.nodes[x].nlink - 1)], links := t.links - multiset{x})
  }

  lemma LinkUndoKeeps(t: Tree, x: nat)
    requires Inv(t) && x in t.links
    ensures x < |t.nodes| && Inv(LinkUndo(t, x)) && t.nodes[x].nlink >= 1 && LinkUndo(t, x).nodes[x].ref > LinkUndo(t, x).links[x] + LinkUndo(t, x).unlinks[x]
  {
    var u := LinkUndo(t, x);
    assert LinkOk(t, x);
    assert NodeOk(t, x);
    forall y | 0 <= y < |u.nodes| ensures NodeOk(u, y) {
      assert NodeOk(t, y);
    }
    CountersKeep(t, u);
  }

  /** sys_unlink's last step on the inode. */
  function UnlinkEnd(t: Tree, x: nat): Tree
    requires x < |t.nodes|
  {
    t.(nodes := t.nodes[x := t.nodes[x].(nlink := t.nodes[x].nlink - 1)], unlinks := t.unlinks - multiset{x})
  }

  lemma UnlinkEndKeeps(t: Tree, x: nat)
    requires Inv(t) && x in t.unlinks
    ensures x < |t.nodes| && Inv(UnlinkEnd(t, x)) && t.nodes[x].nlink >= 1
    ensures UnlinkEnd(t, x).nodes[x].ref > UnlinkEnd(t, x).links[x] + UnlinkEnd(t, x).unlinks[x]
  {
    var u := UnlinkEnd(t, x);
    assert LinkOk(t, x);
    assert NodeOk(t, x);
    forall y | 0 <= y < |u.nodes| ensures NodeOk(u, y) {
      assert NodeOk(t, y);
    }
    CountersKeep(t, u);
  }

  /** Taking or dropping a reference. */
  function SetRef(t: Tree, x: nat, ref: nat): Tree
    requires x < |t.nodes|
  {
    t.(nodes := t.nodes[x := t.nodes[x].(ref := ref)])
  }

  lemma SetRefKeeps(t: Tree, x: nat, ref: nat)
    requires Inv(t) && x < |t.nodes| && t.nodes[x].typ != 0 && ref >= t.links[x] + t.unlinks[x]
    ensures Inv(SetRef(t, x, ref))
  {
    var u := SetRef(t, x, ref);
    forall y | 0 <= y < |u.nodes| ensures NodeOk(u, y) {
      assert NodeOk(t, y);
    }
    CountersKeep(t, u);
  }

  // ---------------------------------------------------------------- entries

  /** dirlink of a name that directory d does not have. */
  function AddEntry(t: Tree, d: nat, e: Dirent): Tree
    requires d < |t.nodes|
  {
    t.(nodes := t.nodes[d := t.nodes[d].(entries := WithEntry(t.nodes[d].entries, e))])
  }

  lemma AddEntryCount(t: Tree, d: nat, e: Dirent, y: nat)
    requires d < |t.nodes| && t.nodes[d].typ == T_DIR && e.name != "." && e.name != ".." && y != 0
    ensures Count(AddEntry(t, d, e).nodes, t.linked, y) == Count(t.nodes, t.linked, y) + if e.inum == y then 1 else 0
  {
    var n := AddEntry(t, d, e).nodes[d];
    CountChange(t.nodes, t.linked, d, n, t.linked, y, |t.nodes|);
    WithEntryCount(t.nodes[d].entries, e, y, d in t.linked);
  }

  /** A new entry for x in directory d, where x is no directory or has d as its parent and no other entry. */
  lemma AddEntrySlots(t: Tree, d: nat, e: Dirent)
    requires Inv(t) && 1 <= d < |t.nodes| && t.nodes[d].typ == T_DIR && !HasName(t.nodes[d].entries, e.name)
    requires 1 <= e.inum < |t.nodes| && t.nodes[e.inum].typ != 0 && t.nodes[e.inum].typ != T_DIR
    ensures var u := AddEntry(t, d, e);
            && RootOk(u)
            && (forall x {:trigger NodeOk(u, x)} :: 0 <= x < |u.nodes| ==> NodeOk(u, x))
            && (forall c, s {:trigger SlotOk(u, c, s)} :: 0 <= c < |u.nodes| && 0 <= s < |u.nodes[c].entries| ==> SlotOk(u, c, s))
            && (forall c, s, s' {:trigger OneName(u, c, s, s')} ::
                  0 <= c < |u.nodes| && 0 <= s < |u.nodes[c].entries| && 0 <= s' < |u.nodes[c].entries| ==> OneName(u, c, s, s'))
  {
    var u, es := AddEntry(t, d, e), t.nodes[d].entries;
    var f := FirstFree(es);
    assert NodeOk(t, d);
    WithEntryOk(d, es, e);
    forall x | 0 <= x < |u.nodes| ensures NodeOk(u, x) {
      assert NodeOk(t, x);
    }
    forall c, s | 0 <= c < |u.nodes| && 0 <= s < |u.nodes[c].entries| ensures SlotOk(u, c, s) {
      if !(c == d && s == f) {
        assert SlotOk(t, c, s);
      }
    }
    forall c, s, s' | 0 <= c < |u.nodes| && 0 <= s < |u.nodes[c].entries| && 0 <= s' < |u.nodes[c].entries|
      ensures OneName(u, c, s, s')
    {
      if !(c == d && (s == f || s' == f)) {
        assert OneName(t, c, s, s');
      }
    }
  }

  /** sys_link's second half. */
  function LinkFinish(t: Tree, d: nat, name: string, x: nat): Tree
    requires d < |t.nodes|
  {
    AddEntry(t, d, Dirent(x, name)).(links := t.links - multiset{x})
  }

  lemma LinkFinishKeeps(t: Tree, d: nat, name: string, x: nat)
    requires Inv(t) && 1 <= d < |t.nodes| && t.nodes[d].typ == T_DIR && !HasName(t.nodes[d].entries, name) && x in t.links
    ensures Inv(LinkFinish(t, d, name, x)) && x < |t.nodes|
    ensures var u := LinkFinish(t, d, name, x); u.nodes[x].ref > u.links[x] + u.unlinks[x]
  {
    assert NodeOk(t, x) && NodeOk(t, d);
    WithEntryOk(d, t.nodes[d].entries, Dirent(x, name));
    AddEntrySlots(t, d, Dirent(x, name));
    var u, w := LinkFinish(t, d, name, x), AddEntry(t, d, Dirent(x, name));
    forall y | 0 <= y < |u.nodes| ensures NodeOk(u, y) { assert NodeOk(w, y); }
    forall c, s | 0 <= c < |u.nodes| && 0 <= s < |u.nodes[c].entries| ensures SlotOk(u, c, s) { assert SlotOk(w, c, s); }
    forall c, s, s' | 0 <= c < |u.nodes| && 0 <= s < |u.nodes[c].entries| && 0 <= s' < |u.nodes[c].entries|
      ensures OneName(u, c, s, s') { assert OneName(w, c, s, s'); }
    forall y | 1 <= y < |u.nodes| ensures LinkOk(u, y) {
      assert LinkOk(t, y);
      AddEntryCount(t, d, Dirent(x, name), y);
    }
  }

  // ---------------------------------------------------------------- unlink

  /** sys_unlink's work on the directory: slot s is cleared, and a directory's parent loses its link. */
  function UnlinkEntry(t: Tree, d: nat, s: nat): Tree
    requires d < |t.nodes| && s < |t.nodes[d].entries| && t.nodes[d].entries[s].inum < |t.nodes|
  {
    var x := t.nodes[d].entries[s].inum;
    var dir := t.nodes[x].typ == T_DIR;
    var n := t.nodes[d].(entries := t.nodes[d].entries[s := Dirent(0, "")],
                         nlink := t.nodes[d].nlink - if dir then 1 else 0);
    var nodes := t.nodes[d := n];
    t.(nodes := nodes[x := nodes[x].(ref := nodes[x].ref + 1)],
       linked := if dir then t.linked - {x} else t.linked, unlinks := t.unlinks + multiset{x})
  }

  ghost predicate Unlinkable(t: Tree, d: nat, s: nat) {
    && Inv(t) && 1 <= d < |t.nodes| && t.nodes[d].typ == T_DIR
    && 2 <= s < |t.nodes[d].entries| && t.nodes[d].entries[s].inum != 0
  }

  /** What the slot names: in use, and never the directory itself. */
  lemma Target(t: Tree, d: nat, s: nat)
    requires Unlinkable(t, d, s)
    ensures var x := t.nodes[d].entries[s].inum;
            && 1 <= x < |t.nodes| && x != d && t.nodes[x].typ != 0 && t.nodes[x].nlink >= 1 && x != ROOTINO
            && t.nodes[d].entries[s].name != "." && t.nodes[d].entries[s].name != ".."
            && (t.nodes[x].typ == T_DIR ==> x in t.linked && DirOk(x, t.nodes[x].entries) && t.nodes[x].entries[1].inum == d)
  {
    var e := t.nodes[d].entries[s];
    assert NodeOk(t, d) && SlotOk(t, d, s);
    assert Live(t.nodes[d].entries, 0) && Live(t.nodes[d].entries, 1) && Live(t.nodes[d].entries, s);
    assert NodeOk(t, e.inum) && LinkOk(t, e.inum);
    CountEntry(t.nodes, t.linked, d, s, e.inum);
  }

  lemma UnlinkCount(t: Tree, d: nat, s: nat, y: nat)
    requires Unlinkable(t, d, s) && t.nodes[d].entries[s].inum < |t.nodes| && y != 0
    ensures var x := t.nodes[d].entries[s].inum;
            Count(UnlinkEntry(t, d, s).nodes, UnlinkEntry(t, d, s).linked, y)
            == Count(t.nodes, t.linked, y) - (if y == x then 1 else 0) - if t.nodes[x].typ == T_DIR && y == d then 1 else 0
  {
    Target(t, d, s);
    var u, x, es := UnlinkEntry(t, d, s), t.nodes[d].entries[s].inum, t.nodes[d].entries;
    var mid := t.nodes[d := u.nodes[d]];
    CountChange(t.nodes, t.linked, d, u.nodes[d], t.linked, y, |t.nodes|);
    CountPut(es, s, Dirent(0, ""), y, d in t.linked);
    CountChange(mid, t.linked, x, u.nodes[x], u.linked, y, |t.nodes|);
    assert mid[x := u.nodes[x]] == u.nodes;
    if t.nodes[x].typ == T_DIR {
      assert OneParent(t.nodes[x].entries) by {
        forall r | 2 <= r < |t.nodes[x].entries| && t.nodes[x].entries[r].inum != 0 ensures t.nodes[x].entries[r].name != ".." {
          assert Live(t.nodes[x].entries, r) && Live(t.nodes[x].entries, 1);
        }
      }
      CountLinked(t.nodes[x].entries, y);
    }
  }

  lemma UnlinkSlots(t: Tree, d: nat, s: nat)
    requires Unlinkable(t, d, s) && t.nodes[d].entries[s].inum < |t.nodes|
    ensures var u := UnlinkEntry(t, d, s);
            && (forall c, r {:trigger SlotOk(u, c, r)} :: 0 <= c < |u.nodes| && 0 <= r < |u.nodes[c].entries| ==> SlotOk(u, c, r))
            && (forall c, r, r' {:trigger OneName(u, c, r, r')} ::
                  0 <= c < |u.nodes| && 0 <= r < |u.nodes[c].entries| && 0 <= r' < |u.nodes[c].entries| ==> OneName(u, c, r, r'))
  {
    Target(t, d, s);
    var u, x := UnlinkEntry(t, d, s), t.nodes[d].entries[s].inum;
    forall c, r | 0 <= c < |u.nodes| && 0 <= r < |u.nodes[c].entries| ensures SlotOk(u, c, r) {
      assert SlotOk(t, c, r);
      if c == d && r != s {
        assert OneName(t, d, r, s) && OneName(t, d, s, r);
      }
    }
    forall c, r, r' | 0 <= c < |u.nodes| && 0 <= r < |u.nodes[c].entries| && 0 <= r' < |u.nodes[c].entries|
      ensures OneName(u, c, r, r')
    {
      assert OneName(t, c, r, r');
    }
  }

  lemma UnlinkEntryKeeps(t: Tree, d: nat, s: nat)
    requires Unlinkable(t, d, s)
    ensures t.nodes[d].entries[s].inum < |t.nodes| && t.nodes[t.nodes[d].entries[s].inum].nlink >= 1
    ensures Inv(UnlinkEntry(t, d, s))
  {
    Target(t, d, s);
    UnlinkSlots(t, d, s);
    var u, x := UnlinkEntry(t, d, s), t.nodes[d].entries[s].inum;
    forall y | 0 <= y < |u.nodes| ensures NodeOk(u, y) {
      assert NodeOk(t, y);
    }
    forall y | 1 <= y < |u.nodes| ensures LinkOk(u, y) {
      assert LinkOk(t, y);
      UnlinkCount(t, d, s, y);
    }
  }

  // ---------------------------------------------------------------- create

  /** ialloc and the setting up of a new inode: one link, and the first two slots of a directory. */
  function Allocate(t: Tree, d: nat, x: nat, typ: nat): Tree
    requires x < |t.nodes|
  {
    var es := if typ == T_DIR then [Dirent(x, "."), Dirent(d, "..")] else [];
    t.(nodes := t.nodes[x := Node(typ, 1, 1, es)])
  }

  /** create's success: the entry, and for a directory the link from its "..". */
  function Create(t: Tree, d: nat, name: string, x: nat, typ: nat): Tree
    requires x < |t.nodes| && d < |t.nodes|
  {
    var u := AddEntry(Allocate(t, d, x, typ), d, Dirent(x, name));
    if typ == T_DIR then
      u.(nodes := u.nodes[d := u.nodes[d].(nlink := Incremented(u.nodes[d].nlink))], linked := u.linked + {x})
    else u
  }

  ghost predicate Creatable(t: Tree, d: nat, name: string, x: nat, typ: nat) {
    && Inv(t) && 1 <= d < |t.nodes| && t.nodes[d].typ == T_DIR && !HasName(t.nodes[d].entries, name)
    && 1 <= x < |t.nodes| && t.nodes[x].typ == 0 && typ != 0
  }

  /** Nothing names a free inode but stale ".." entries. */
  lemma FreeUnnamed(t: Tree, x: nat)
    requires Inv(t) && 1 <= x < |t.nodes| && t.nodes[x].nlink == 0
    ensures Count(t.nodes, t.linked, x) == 0 && t.links[x] == 0 && t.unlinks[x] == 0 && x != ROOTINO
    ensures forall d, s :: 0 <= d < |t.nodes| && t.nodes[d].typ == T_DIR && 0 <= s < |t.nodes[d].entries| ==>
              !Counts(t.nodes[d].entries[s], x, d in t.linked)
  {
    assert LinkOk(t, x);
    CountEntry(t.nodes, t.linked, ROOTINO, 1, ROOTINO);
    forall d, s | 0 <= d < |t.nodes| && t.nodes[d].typ == T_DIR && 0 <= s < |t.nodes[d].entries|
      ensures !Counts(t.nodes[d].entries[s], x, d in t.linked)
    {
      if Counts(t.nodes[d].entries[s], x, d in t.linked) {
        CountEntry(t.nodes, t.linked, d, s, x);
      }
    }
  }

  lemma CreateCount(t: Tree, d: nat, name: string, x: nat, typ: nat, y: nat)
    requires Creatable(t, d, name, x, typ) && y != 0
    ensures var u := Create(t, d, name, x, typ);
            Count(u.nodes, u.linked, y) == Count(t.nodes, t.linked, y) + (if y == x then 1 else 0)
                                           + if typ == T_DIR && y == d then 1 else 0
  {
    assert NodeOk(t, x) && NodeOk(t, d);
    WithEntryOk(d, t.nodes[d].entries, Dirent(x, name));
    var a := Allocate(t, d, x, typ);
    CountChange(t.nodes, t.linked, x, a.nodes[x], t.linked, y, |t.nodes|);
    NewDirCount(x, d, y);
    AddEntryCount(a, d, Dirent(x, name), y);
    if typ == T_DIR {
      var b, u := AddEntry(a, d, Dirent(x, name)), Create(t, d, name, x, typ);
      CountChange(b.nodes, b.linked, x, b.nodes[x], u.linked, y, |b.nodes|);
      assert b.nodes[x := b.nodes[x]] == b.nodes;
      CountChange(b.nodes, u.linked, d, u.nodes[d], u.linked, y, |b.nodes|);
    }
  }

  /** A new directory holds a link to its parent once it is linked, and none before. */
  lemma NewDirCount(x: nat, d: nat, y: nat)
    requires y != 0
    ensures CountIn([Dirent(x, "."), Dirent(d, "..")], y, false) == 0
    ensures CountIn([Dirent(x, "."), Dirent(d, "..")], y, true) == if y == d then 1 else 0
  {
    var es := [Dirent(x, "."), Dirent(d, "..")];
    assert es[..1] == [es[0]] && es[..1][..0] == [];
    assert CountIn(es[..1], y, false) == CountIn(es[..1], y, true) == 0;
  }

  lemma CreateSlots(t: Tree, d: nat, name: string, x: nat, typ: nat)
    requires Creatable(t, d, name, x, typ)
    ensures var u := Create(t, d, name, x, typ);
            forall c, r {:trigger SlotOk(u, c, r)} :: 0 <= c < |u.nodes| && 0 <= r < |u.nodes[c].entries| ==> SlotOk(u, c, r)
  {
    var u, es := Create(t, d, name, x, typ), t.nodes[d].entries;
    var f := FirstFree(es);
    assert NodeOk(t, x) && NodeOk(t, d);
    WithEntryOk(d, es, Dirent(x, name));
    FreeUnnamed(t, x);
    forall c, r | 0 <= c < |u.nodes| && 0 <= r < |u.nodes[c].entries| ensures SlotOk(u, c, r) {
      if c != x && !(c == d && r == f) {
        assert SlotOk(t, c, r);
      }
    }
  }

  lemma CreateNames(t: Tree, d: nat, name: string, x: nat, typ: nat)
    requires Creatable(t, d, name, x, typ)
    ensures var u := Create(t, d, name, x, typ);
            forall c, r, r' {:trigger OneName(u, c, r, r')} ::
              0 <= c < |u.nodes| && 0 <= r < |u.nodes[c].entries| && 0 <= r' < |u.nodes[c].entries| ==> OneName(u, c, r, r')
  {
    var u, f := Create(t, d, name, x, typ), FirstFree(t.nodes[d].entries);
    assert NodeOk(t, x) && NodeOk(t, d);
    forall c, r, r' | 0 <= c < |u.nodes| && 0 <= r < |u.nodes[c].entries| && 0 <= r' < |u.nodes[c].entries|
      ensures OneName(u, c, r, r')
    {
      if c == d && (r == f || r' == f) {
        NotNamed(t, d, if r == f then r' else r, x, f);
      } else if c != x {
        assert OneName(t, c, r, r') && SlotOk(t, c, r);
      }
    }
  }

  /** The slots of d past "." and ".." do not name x when nothing does. */
  lemma NotNamed(t: Tree, d: nat, r: nat, x: nat, f: nat)
    requires Inv(t) && 1 <= d < |t.nodes| && t.nodes[d].typ == T_DIR && 1 <= x < |t.nodes| && t.nodes[x].nlink == 0
    ensures 2 <= r < |t.nodes[d].entries| && r != f ==> t.nodes[d].entries[r].inum != x
  {
    if 2 <= r < |t.nodes[d].entries| && t.nodes[d].entries[r].inum == x {
      assert NodeOk(t, d);
      assert Live(t.nodes[d].entries, r) && Live(t.nodes[d].entries, 0) && Live(t.nodes[d].entries, 1);
      FreeUnnamed(t, x);
      assert Counts(t.nodes[d].entries[r], x, d in t.linked);
    }
  }

  lemma CreateNode(t: Tree, d: nat, name: string, x: nat, typ: nat, y: nat)
    requires Creatable(t, d, name, x, typ) && y < |t.nodes|
    ensures NodeOk(Create(t, d, name, x, typ), y)
  {
    assert NodeOk(t, y);
    if y == x {
      CreateNew(t, d, name, x, typ);
    } else if y == d {
      WithEntryOk(d, t.nodes[d].entries, Dirent(x, name));
    }
  }

  lemma CreateNew(t: Tree, d: nat, name: string, x: nat, typ: nat)
    requires Creatable(t, d, name, x, typ)
    ensures x != d && NodeOk(Create(t, d, name, x, typ), x)
  {
    assert NodeOk(t, x);
    FreeUnnamed(t, x);
  }

  lemma CreateNodes(t: Tree, d: nat, name: string, x: nat, typ: nat)
    requires Creatable(t, d, name, x, typ)
    ensures var u := Create(t, d, name, x, typ);
            RootOk(u) && forall y {:trigger NodeOk(u, y)} :: 0 <= y < |u.nodes| ==> NodeOk(u, y)
  {
    var u := Create(t, d, name, x, typ);
    assert NodeOk(t, d);
    forall y | 0 <= y < |u.nodes| ensures NodeOk(u, y) {
      CreateNode(t, d, name, x, typ, y);
    }
  }

  /** create keeps the promise, unless the parent's count wraps around. */
  lemma CreateKeeps(t: Tree, d: nat, name: string, x: nat, typ: nat)
    requires Creatable(t, d, name, x, typ)
    ensures Inv(Create(t, d, name, x, typ)) <==> !(typ == T_DIR && t.nodes[d].nlink == SHRT_MAX)
  {
    var u := Create(t, d, name, x, typ);
    CreateNodes(t, d, name, x, typ);
    assert LinkOk(t, d) && LinkOk(t, x) && NodeOk(t, x);
    if typ == T_DIR && t.nodes[d].nlink == SHRT_MAX {
      assert !LinkOk(u, d);
    } else {
      CreateSlots(t, d, name, x, typ);
      CreateNames(t, d, name, x, typ);
      forall y | 1 <= y < |u.nodes| ensures LinkOk(u, y) {
        assert LinkOk(t, y);
        CreateCount(t, d, name, x, typ, y);
      }
    }
  }

  // ---------------------------------------------------------------- iput

  /** iput of the last reference to an inode without links. */
  function Freed(t: Tree, x: nat): Tree
    requires x < |t.nodes|
  {
    t.(nodes := t.nodes[x := FREE], linked := t.linked - {x})
  }

  lemma FreedKeeps(t: Tree, x: nat)
    requires Inv(t) && 1 <= x < |t.nodes| && t.nodes[x].nlink == 0
    ensures Inv(Freed(t, x))
    ensures forall d, s :: 0 <= d < |t.nodes| && t.nodes[d].typ == T_DIR && 0 <= s < |t.nodes[d].entries| ==>
              !Counts(t.nodes[d].entries[s], x, d in t.linked)
  {
    var u := Freed(t, x);
    FreeUnnamed(t, x);
    forall y | 0 <= y < |u.nodes| ensures NodeOk(u, y) {
      assert NodeOk(t, y);
    }
    forall y | 1 <= y < |u.nodes| ensures LinkOk(u, y) {
      assert LinkOk(t, y);
      CountChange(t.nodes, t.linked, x, u.nodes[x], u.linked, y, |t.nodes|);
    }
    forall c, r | 0 <= c < |u.nodes| && 0 <= r < |u.nodes[c].entries| ensures SlotOk(u, c, r) {
      assert SlotOk(t, c, r);
      if t.nodes[c].typ == T_DIR { NotNamed(t, c, r, x, |t.nodes[c].entries|); }
    }
    forall c, r, r' | 0 <= c < |u.nodes| && 0 <= r < |u.nodes[c].entries| && 0 <= r' < |u.nodes[c].entries|
      ensures OneName(u, c, r, r')
    {
      assert OneName(t, c, r, r');
    }
  }

  /** Why nlink is only at least the number of entries: a directory that was unlinked while in use, given an entry
      and then freed, leaves the file it named with a link that nothing accounts for. */
  lemma FreedLeaks(t: Tree, x: nat, s: nat)
    requires Inv(t) && 1 <= x < |t.nodes| && t.nodes[x].typ == T_DIR && t.nodes[x].nlink == 0
    requires 2 <= s < |t.nodes[x].entries| && t.nodes[x].entries[s].inum != 0
    ensures var f, u := t.nodes[x].entries[s].inum, Freed(t, x);
            && 1 <= f < |u.nodes| && f != x
            && u.nodes[f].nlink > Count(u.nodes, u.linked, f) + u.links[f] + u.unlinks[f]
  {
    var f, u := t.nodes[x].entries[s].inum, Freed(t, x);
    Target(t, x, s);
    assert LinkOk(t, f);
    CountChange(t.nodes, t.linked, x, FREE, u.linked, f, |t.nodes|);
    CountHas(t.nodes[x].entries, s, f, x in t.linked);
  }
}
