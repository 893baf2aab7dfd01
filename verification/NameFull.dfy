/** A run that takes a link count to the largest short: a file with 32767 names in two directories. */
module NameFull {
  import opened FsLayout
  import opened NameSpec
  import opened NameSteps
  import opened NameExact
  import opened Names
  import Blocks

  /** How many entries the largest file holds. */
  const MAXENTRIES: nat := MAXFILE * Blocks.BSIZE / 16

  function Letter(k: nat): char
    requires k < 32
  {
    (65 + k) as char
  }

  /** The k-th name: four letters, the last three of which spell k. */
  function Name(k: nat): (s: string)
    requires k < 32768
    ensures |s| == 4
  {
    ['l', Letter(k / 1024), Letter(k / 32 % 32), Letter(k % 32)]
  }

  function Value(s: string): int
    requires |s| == 4
  {
    (s[1] as int - 65) * 1024 + (s[2] as int - 65) * 32 + (s[3] as int - 65)
  }

  lemma Digits(k: nat)
    ensures k == k / 1024 * 1024 + k / 32 % 32 * 32 + k % 32
  {
    var q := k / 32;
    assert k == q * 32 + k % 32 && q == q / 32 * 32 + q % 32 && q / 32 == k / 1024;
  }

  lemma ValueOf(k: nat)
    requires k < 32768
    ensures Value(Name(k)) == k
  {
    Digits(k);
    var a, b, c := k / 1024, k / 32 % 32, k % 32;
    assert Name(k) == ['l', Letter(a), Letter(b), Letter(c)];
  }

  /** Of the names above, only the first k are used. */
  ghost predicate Below(es: seq<Dirent>, k: nat) {
    forall s {:trigger Live(es, s)} :: 0 <= s < |es| && Live(es, s) && |es[s].name| == 4 ==> Value(es[s].name) < k
  }

  lemma NewName(es: seq<Dirent>, k: nat)
    requires Below(es, k) && k < 32768
    ensures !HasName(es, Name(k))
  {
    ValueOf(k);
  }

  lemma BelowMore(es: seq<Dirent>, k: nat, x: nat)
    requires Below(es, k) && k < 32768
    ensures Below(WithEntry(es, Dirent(x, Name(k))), k + 1) && |WithEntry(es, Dirent(x, Name(k)))| <= |es| + 1
  {
    ValueOf(k);
    var fs := WithEntry(es, Dirent(x, Name(k)));
    forall s | 0 <= s < |fs| && Live(fs, s) && |fs[s].name| == 4 ensures Value(fs[s].name) < k + 1 {
      if s < |es| && fs[s] == es[s] { assert Live(es, s); }
    }
  }

  /** The file, inode 3, has k names beside its first, in the root and in directory 2. */
  ghost predicate Linking(t: Tree, k: nat) {
    && Inv(t) && AllExact(t) && |t.nodes| == 4 && t.links == t.unlinks == multiset{}
    && t.nodes[1].typ == t.nodes[2].typ == T_DIR && t.nodes[3] == Node(T_FILE, k + 1, 1, [])
    && Below(t.nodes[1].entries, k) && Below(t.nodes[2].entries, k)
    && |t.nodes[1].entries| <= 4 + (if k < 16383 then k else 16383) && |t.nodes[2].entries| <= 2 + (if k < 16383 then 0 else k - 16383)
  }

  /** The tree after one more link. */
  function Linked(t: Tree, d: nat, k: nat): Tree
    requires |t.nodes| == 4 && d < 4 && k < 32768
  {
    Dropped(LinkFinish(LinkStart(t, 3), d, Name(k), 3), 3)
  }

  lemma LinkedIs(t: Tree, d: nat, k: nat)
    requires Linking(t, k) && k < 32766 && (d == 1 || d == 2)
    ensures var u := Linked(t, d, k);
            && |u.nodes| == 4 && u.links == u.unlinks == multiset{} && u.nodes[3] == Node(T_FILE, k + 2, 1, [])
            && u.nodes[d] == t.nodes[d].(entries := WithEntry(t.nodes[d].entries, Dirent(3, Name(k))))
            && forall j :: 1 <= j < 3 && j != d ==> u.nodes[j] == t.nodes[j]
  {
    assert (t.links + multiset{3}) - multiset{3} == multiset{};
  }

  lemma LinkedExact(t: Tree, d: nat, k: nat, y: nat)
    requires Linking(t, k) && k < 32766 && (d == 1 || d == 2) && 1 <= y < 4
    requires Inv(LinkStart(t, 3)) && Inv(LinkFinish(LinkStart(t, 3), d, Name(k), 3)) && !HasName(t.nodes[d].entries, Name(k))
    ensures Exact(Linked(t, d, k), y)
  {
    var u := LinkStart(t, 3);
    assert Exact(t, y);
    LinkStartExact(t, 3, y);
    LinkFinishExact(u, d, Name(k), 3, y);
    DroppedExact(LinkFinish(u, d, Name(k), 3), 3, y);
  }

  /** One call of link, from its first half to its last. */
  method LinkOnce(fs: FileTree, k: nat)
    requires Linking(fs.T(), k) && k < 32766
    modifies fs
    ensures Linking(fs.T(), k + 1)
  {
    ghost var t := fs.T();
    var d := if k < 16383 then 1 else 2;
    NewName(fs.nodes[d].entries, k);
    BelowMore(fs.nodes[d].entries, k, 3);
    LinkedIs(t, d, k);
    var ok := fs.LinkBegin(3);
    LinkFinishKeeps(fs.T(), d, Name(k), 3);
    ok := fs.LinkEnd(3, d, Name(k), true);
    forall y | 1 <= y < 4 ensures Exact(fs.T(), y) {
      LinkedExact(t, d, k, y);
    }
    StillBelow(t, fs.T(), d, k);
  }

  lemma StillBelow(t: Tree, u: Tree, d: nat, k: nat)
    requires Linking(t, k) && k < 32766 && d == (if k < 16383 then 1 else 2) && u == Linked(t, d, k) && Inv(u) && AllExact(u)
    ensures Linking(u, k + 1)
  {
    LinkedIs(t, d, k);
    BelowMore(t.nodes[d].entries, k, 3);
    forall j | 1 <= j < 3 && j != d ensures Below(u.nodes[j].entries, k + 1) {
      assert u.nodes[j] == t.nodes[j];
      forall s | 0 <= s < |u.nodes[j].entries| && Live(u.nodes[j].entries, s) && |u.nodes[j].entries[s].name| == 4
        ensures Value(u.nodes[j].entries[s].name) < k + 1 {
        assert Live(t.nodes[j].entries, s);
      }
    }
  }

  /** A directory d in the root. */
  method OneName() returns (fs: FileTree)
    ensures fresh(fs) && fs.Valid() && AllExact(fs.T()) && |fs.nodes| == 4 && fs.links == fs.unlinks == multiset{} && fs.nodes[3] == FREE
    ensures fs.nodes[1] == Node(T_DIR, 2, 0, Slots(1, 1, Dirent(2, "d"))) && fs.nodes[2] == Node(T_DIR, 1, 1, [Dirent(2, "."), Dirent(1, "..")])
  {
    fs := new FileTree(4);
    ghost var t := fs.T();
    assert fs.nodes[2].typ == 0 && !HasName(fs.nodes[1].entries, "d");
    var x;
    ghost var isNew;
    x, isNew := fs.Create(ROOTINO, "d", T_DIR, 3);
    assert x == 2;
    MadeExact(t, "d", 2, T_DIR);
  }

  lemma MadeExact(t: Tree, name: string, x: nat, typ: nat)
    requires Creatable(t, ROOTINO, name, x, typ) && AllExact(t) && t.nodes[ROOTINO].nlink < SHRT_MAX
    ensures AllExact(Create(t, ROOTINO, name, x, typ))
  {
    var u := Create(t, ROOTINO, name, x, typ);
    forall y | 1 <= y < |u.nodes| ensures Exact(u, y) {
      assert Exact(t, y);
      CreateExact(t, ROOTINO, name, x, typ, y);
    }
  }

  /** A directory d and a file f in the root. */
  method TwoNames() returns (fs: FileTree)
    ensures fresh(fs) && Linking(fs.T(), 0)
  {
    fs := OneName();
    ghost var t := fs.T();
    assert fs.nodes[3].typ == 0 && !HasName(fs.nodes[1].entries, "f");
    var x;
    ghost var isNew;
    x, isNew := fs.Create(ROOTINO, "f", T_FILE, 1);
    assert x == 3;
    MadeExact(t, "f", 3, T_FILE);
    assert fs.nodes[1].entries == Slots(1, 1, Dirent(2, "d")) + [Dirent(3, "f")];
  }

  /** A run of links after which every count is exact, every directory is within the size of a file, and one more link to f makes its
      count wrap around and breaks the promise. */
  method FullLinks() returns (fs: FileTree)
    ensures fresh(fs) && fs.Valid() && AllExact(fs.T()) && |fs.nodes| == 4 && fs.links == fs.unlinks == multiset{}
    ensures forall x :: 0 <= x < 4 ==> |fs.nodes[x].entries| <= MAXENTRIES
    ensures fs.nodes[3].typ == T_FILE && fs.nodes[3].nlink == SHRT_MAX && !Inv(LinkStart(fs.T(), 3))
  {
    fs := TwoNames();
    var k := 0;
    while k < 32766
      invariant k <= 32766 && fresh(fs) && Linking(fs.T(), k)
    {
      LinkOnce(fs, k);
      k := k + 1;
    }
    LinkStartKeeps(fs.T(), 3);
    assert NodeOk(fs.T(), 0);
  }
}
