/** Directories and link counts: what every inode's nlink is worth. */
module NameSpec {
  const T_DIR: nat := 1
  const T_FILE: nat := 2
  const T_DEVICE: nat := 3
  const ROOTINO: nat := 1
  const DIRSIZ: nat := 14
  const SHRT_MAX: int := 32767

  /** A directory slot; inum 0 is an empty one. */
  datatype Dirent = Dirent(inum: nat, name: string)

  /** An inode with its table entry: link count, references, and the slots if it is a directory. */
  datatype Node = Node(typ: nat, nlink: int, ref: nat, entries: seq<Dirent>)

  /** A free inode: no links, no references, nothing in it. */
  const FREE: Node := Node(0, 0, 0, [])

  /** The file tree, and what is under way: directories that some entry names (or the root), links made before
      their entry, and entries removed before their link. */
  datatype Tree = Tree(nodes: seq<Node>, linked: set<nat>, links: multiset<nat>, unlinks: multiset<nat>)

  /** Does this slot, of a directory that is linked or not, hold a link to x? */
  predicate Counts(e: Dirent, x: nat, linked: bool) {
    e.inum == x && e.name != "." && (e.name == ".." ==> linked)
  }

  ghost function CountIn(es: seq<Dirent>, x: nat, linked: bool): nat {
    if es == [] then 0
    else CountIn(es[..|es| - 1], x, linked) + if Counts(es[|es| - 1], x, linked) then 1 else 0
  }

  /** The links to x that directory d holds. */
  ghost function CountOf(n: Node, x: nat, linked: bool): nat {
    if n.typ == T_DIR then CountIn(n.entries, x, linked) else 0
  }

  ghost function CountUpTo(nodes: seq<Node>, linked: set<nat>, x: nat, k: nat): nat
    requires k <= |nodes|
  {
    if k == 0 then 0 else CountUpTo(nodes, linked, x, k - 1) + CountOf(nodes[k - 1], x, k - 1 in linked)
  }

  /** The entries that name x, not counting "." and the ".." of unlinked directories. */
  ghost function Count(nodes: seq<Node>, linked: set<nat>, x: nat): nat {
    CountUpTo(nodes, linked, x, |nodes|)
  }

  // ---------------------------------------------------------------- counting

  lemma {:induction false} CountPut(es: seq<Dirent>, s: nat, e: Dirent, x: nat, linked: bool)
    requires s < |es|
    ensures CountIn(es[s := e], x, linked) + (if Counts(es[s], x, linked) then 1 else 0)
         == CountIn(es, x, linked) + (if Counts(e, x, linked) then 1 else 0)
  {
    var fs := es[s := e];
    if s == |es| - 1 {
      assert fs[..|fs| - 1] == es[..|es| - 1];
    } else {
      assert fs[..|fs| - 1] == es[..|es| - 1][s := e];
      CountPut(es[..|es| - 1], s, e, x, linked);
    }
  }

  lemma CountAppend(es: seq<Dirent>, e: Dirent, x: nat, linked: bool)
    ensures CountIn(es + [e], x, linked) == CountIn(es, x, linked) + if Counts(e, x, linked) then 1 else 0
  {
    assert (es + [e])[..|es|] == es;
  }

  lemma {:induction false} CountHas(es: seq<Dirent>, s: nat, x: nat, linked: bool)
    requires s < |es| && Counts(es[s], x, linked)
    ensures CountIn(es, x, linked) >= 1
  {
    if s < |es| - 1 {
      CountHas(es[..|es| - 1], s, x, linked);
    }
  }

  /** No slot past the first two of a directory is called ".." . */
  ghost predicate OneParent(es: seq<Dirent>) {
    |es| >= 2 && es[0].name == "." && es[1].name == ".." && forall s :: 2 <= s < |es| && es[s].inum != 0 ==> es[s].name != ".."
  }

  /** Linking a directory adds one link to its parent. */
  lemma {:induction false} CountLinked(es: seq<Dirent>, x: nat)
    requires OneParent(es) && x != 0
    ensures CountIn(es, x, true) == CountIn(es, x, false) + if es[1].inum == x then 1 else 0
  {
    if |es| == 2 {
      assert es[..1][..0] == [] && es[..|es| - 1] == es[..1];
      assert CountIn(es[..1], x, true) == CountIn(es[..1], x, false) == 0;
    } else {
      CountLinked(es[..|es| - 1], x);
    }
  }

  /** Changing one directory changes the count by what that directory holds. */
  lemma {:induction false} CountChange(nodes: seq<Node>, linked: set<nat>, d: nat, n: Node, linked': set<nat>, x: nat, k: nat)
    requires d < |nodes| && k <= |nodes| && forall j :: j != d ==> (j in linked' <==> j in linked)
    ensures CountUpTo(nodes[d := n], linked', x, k)
         == if d < k then CountUpTo(nodes, linked, x, k) - CountOf(nodes[d], x, d in linked) + CountOf(n, x, d in linked')
            else CountUpTo(nodes, linked, x, k)
  {
    if k > 0 {
      CountChange(nodes, linked, d, n, linked', x, k - 1);
    }
  }

  lemma {:induction false} CountPart(nodes: seq<Node>, linked: set<nat>, d: nat, x: nat, k: nat)
    requires d < k <= |nodes|
    ensures CountUpTo(nodes, linked, x, k) >= CountOf(nodes[d], x, d in linked)
  {
    if d < k - 1 {
      CountPart(nodes, linked, d, x, k - 1);
    }
  }

  /** Every entry that counts, counts. */
  lemma CountEntry(nodes: seq<Node>, linked: set<nat>, d: nat, s: nat, x: nat)
    requires d < |nodes| && nodes[d].typ == T_DIR && s < |nodes[d].entries| && Counts(nodes[d].entries[s], x, d in linked)
    ensures Count(nodes, linked, x) >= 1
  {
    CountHas(nodes[d].entries, s, x, d in linked);
    CountPart(nodes, linked, d, x, |nodes|);
  }

  // ---------------------------------------------------------------- the invariant

  predicate Live(es: seq<Dirent>, s: nat) {
    s < |es| && es[s].inum != 0
  }

  /** A directory: "." and ".." first, then files; no name twice. */
  ghost predicate DirOk(x: nat, es: seq<Dirent>) {
    && |es| >= 2 && es[0] == Dirent(x, ".") && es[1].name == ".." && es[1].inum != 0
    && (forall s, t :: 0 <= s < |es| && 0 <= t < |es| && s != t && Live(es, s) && Live(es, t) ==> es[s].name != es[t].name)
  }

  ghost predicate NodeOk(t: Tree, x: nat)
    requires x < |t.nodes|
  {
    && (t.nodes[x].typ == T_DIR ==> DirOk(x, t.nodes[x].entries))
    && (t.nodes[x].typ == 0 ==> t.nodes[x] == FREE)
    && (x in t.linked ==> t.nodes[x].typ == T_DIR)
    && (x in t.links ==> t.nodes[x].typ != 0 && t.nodes[x].typ != T_DIR)
    && t.nodes[x].ref >= t.links[x] + t.unlinks[x]
  }

  /** Slot s of directory d names an inode in use; if that is a directory, it is linked and d is its parent. */
  ghost predicate SlotOk(t: Tree, d: nat, s: nat)
    requires d < |t.nodes| && s < |t.nodes[d].entries|
  {
    t.nodes[d].typ == T_DIR && s >= 2 && Live(t.nodes[d].entries, s) ==>
      var x := t.nodes[d].entries[s].inum;
      && x < |t.nodes| && t.nodes[x].typ != 0
      && (t.nodes[x].typ == T_DIR ==>
            x in t.linked && x != d && x != ROOTINO && |t.nodes[x].entries| >= 2 && t.nodes[x].entries[1].inum == d)
  }

  /** At most one entry of a directory names the directory x. */
  ghost predicate OneName(t: Tree, d: nat, s: nat, s': nat)
    requires d < |t.nodes| && s < |t.nodes[d].entries| && s' < |t.nodes[d].entries|
  {
    var es := t.nodes[d].entries;
    t.nodes[d].typ == T_DIR && 2 <= s < s' && Live(es, s) && es[s].inum == es[s'].inum < |t.nodes| ==>
      t.nodes[es[s].inum].typ != T_DIR
  }

  /** The promise: nlink covers every entry and everything under way. */
  ghost predicate LinkOk(t: Tree, x: nat)
    requires x < |t.nodes|
  {
    t.nodes[x].nlink >= Count(t.nodes, t.linked, x) + t.links[x] + t.unlinks[x]
  }

  /** The root is linked, and its own parent; there is no inode 0. */
  ghost predicate RootOk(t: Tree) {
    && ROOTINO < |t.nodes| && t.nodes[0].typ == 0 && t.nodes[ROOTINO].typ == T_DIR && ROOTINO in t.linked
    && |t.nodes[ROOTINO].entries| >= 2 && t.nodes[ROOTINO].entries[1] == Dirent(ROOTINO, "..")
  }

  ghost predicate Inv(t: Tree) {
    && RootOk(t)
    && (forall x {:trigger NodeOk(t, x)} :: 0 <= x < |t.nodes| ==> NodeOk(t, x))
    && (forall d, s {:trigger SlotOk(t, d, s)} :: 0 <= d < |t.nodes| && 0 <= s < |t.nodes[d].entries| ==> SlotOk(t, d, s))
    && (forall d, s, s' {:trigger OneName(t, d, s, s')} ::
          0 <= d < |t.nodes| && 0 <= s < |t.nodes[d].entries| && 0 <= s' < |t.nodes[d].entries| ==> OneName(t, d, s, s'))
    && (forall x {:trigger LinkOk(t, x)} :: 1 <= x < |t.nodes| ==> LinkOk(t, x))
    && (forall x :: x in t.links || x in t.unlinks || x in t.linked ==> 1 <= x < |t.nodes|)
  }
}
