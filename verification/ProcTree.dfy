/** A process and all that it forks: what each of them sees depends on the images alone, not on which requests are lazy, and no process
    sees what another does. */
module ProcTree {
  import opened PageSpec
  import opened PageRanges
  import opened PageViews
  import opened UserImage
  import opened Pager
  import opened ProcSpec
  import opened Procs

  /** What one process sees of memory. */
  datatype Space = Space(img: seq<Mapping>, sz: nat)

  /** Process who, counted in the order of the forks, does something, or forks. */
  datatype TreeOp = Use(who: nat, op: UserOp) | Split(who: nat)

  /** Each operation is one of a process that exists by then. */
  predicate Fitting(n: nat, ops: seq<TreeOp>)
    decreases ops
  {
    ops != [] ==> ops[0].who < n && (ops[0].Use? ==> OpOk(ops[0].op)) && Fitting(n + if ops[0].Split? then 1 else 0, ops[1..])
  }

  /** What an operation means: a child starts with what its parent sees, and from then on the two are apart. */
  function TreeStep(ps: seq<Space>, op: TreeOp): (r: (Out, seq<Space>))
    requires op.who < |ps|
    ensures |r.1| == |ps| + if op.Split? then 1 else 0
  {
    match op
    case Use(who, uop) => var (out, img, sz) := Step(ps[who].img, ps[who].sz, uop); (out, ps[who := Space(img, sz)])
    case Split(who) => (Forked(true), ps + [ps[who]])
  }

  function TreeOutcomes(ps: seq<Space>, ops: seq<TreeOp>): seq<Out>
    requires Fitting(|ps|, ops)
    decreases ops
  {
    if ops == [] then []
    else var (out, qs) := TreeStep(ps, ops[0]); [out] + TreeOutcomes(qs, ops[1..])
  }

  /** The most pages that an operation may take. */
  function CostOf(ps: seq<Space>, op: TreeOp): nat
    requires op.who < |ps|
  {
    match op
    case Use(who, uop) => 3 * PagesOf(uop)
    case Split(who) => 4 + 3 * Up(ps[who].sz)
  }

  function TreeCost(ps: seq<Space>, ops: seq<TreeOp>): nat
    requires Fitting(|ps|, ops)
    decreases ops
  {
    if ops == [] then 0 else CostOf(ps, ops[0]) + TreeCost(TreeStep(ps, ops[0]).1, ops[1..])
  }

  function Splits(ops: seq<TreeOp>): nat {
    if ops == [] then 0 else (if ops[0].Split? then 1 else 0) + Splits(ops[1..])
  }

  predicate SameTreeRequest(a: TreeOp, b: TreeOp) {
    if a.Use? then b.Use? && a.who == b.who && SameRequest(a.op, b.op) else a == b
  }

  /** Which requests are lazy makes no difference to any of the processes. */
  lemma {:induction false} TreeLaziness(ps: seq<Space>, ops: seq<TreeOp>, ops': seq<TreeOp>)
    requires Fitting(|ps|, ops) && Fitting(|ps|, ops') && |ops| == |ops'|
    requires forall k :: 0 <= k < |ops| ==> SameTreeRequest(ops[k], ops'[k])
    ensures TreeOutcomes(ps, ops) == TreeOutcomes(ps, ops')
    decreases ops
  {
    if ops != [] {
      assert SameTreeRequest(ops[0], ops'[0]);
      forall k | 0 <= k < |ops[1..]| ensures SameTreeRequest(ops[1..][k], ops'[1..][k]) {
        assert SameTreeRequest(ops[k + 1], ops'[k + 1]);
      }
      TreeLaziness(TreeStep(ps, ops[0]).1, ops[1..], ops'[1..]);
    }
  }

  /** Process p of the tree, in slot j of the process table, sees its space. */
  ghost predicate StandsAt(s: Vm, procs: seq<Proc>, j: nat, p: Space) {
    j < |procs| && procs[j] != UNUSED && procs[j].sz == p.sz && Image(s, procs[j].pagetable, procs[j].sz) == p.img
  }

  /** The processes of the tree, each in a slot of its own. */
  ghost predicate Stand(s: Vm, procs: seq<Proc>, slots: seq<nat>, ps: seq<Space>) {
    && |slots| == |ps| && (forall a, b :: 0 <= a < b < |slots| ==> slots[a] != slots[b])
    && forall a {:trigger StandsAt(s, procs, slots[a], ps[a])} :: 0 <= a < |slots| ==> StandsAt(s, procs, slots[a], ps[a])
  }

  ghost function Unused(procs: seq<Proc>): set<nat> {
    set j: nat | j < |procs| && procs[j] == UNUSED
  }

  /** After a step of the process in slot j the others stand as before. */
  lemma UseStands(s: Vm, t: Vm, procs: seq<Proc>, tramp: nat, slots: seq<nat>, ps: seq<Space>, who: nat, p: Space, sz: nat)
    requires KInv(s, procs, tramp) && Stand(s, procs, slots, ps) && who < |slots| && slots[who] < |procs| && procs[slots[who]] != UNUSED
    requires Did(s, t, procs[slots[who]].pagetable)
    requires StandsAt(t, procs[slots[who] := procs[slots[who]].(sz := sz)], slots[who], p)
    ensures Stand(t, procs[slots[who] := procs[slots[who]].(sz := sz)], slots, ps[who := p])
  {
    var j := slots[who];
    var procs', ps' := procs[j := procs[j].(sz := sz)], ps[who := p];
    forall a | 0 <= a < |slots| ensures StandsAt(t, procs', slots[a], ps'[a]) {
      if a != who {
        assert StandsAt(s, procs, slots[a], ps[a]) && slots[a] != j;
        DidUnseen(s, t, procs, tramp, j, slots[a]);
      }
    }
  }

  /** After a fork the child stands beside the others. */
  lemma SplitStands(s: Vm, t: Vm, procs: seq<Proc>, slots: seq<nat>, ps: seq<Space>, who: nat, j: nat, child: Proc)
    requires Stand(s, procs, slots, ps) && who < |slots| && slots[who] < |procs| && j < |procs| && procs[j] == UNUSED
    requires AllSeeSame(s, t, procs) && child != UNUSED
    requires StandsAt(t, procs[j := child], j, ps[who])
    ensures Stand(t, procs[j := child], slots + [j], ps + [ps[who]])
  {
    var procs', slots', ps' := procs[j := child], slots + [j], ps + [ps[who]];
    forall a | 0 <= a < |slots| ensures slots[a] != j && StandsAt(t, procs', slots[a], ps[a]) {
      assert StandsAt(s, procs, slots[a], ps[a]);
      assert SameTo(s, t, procs[slots[a]]);
    }
    forall a | 0 <= a < |slots'| ensures StandsAt(t, procs', slots'[a], ps'[a]) {
      if a < |slots| { assert slots'[a] == slots[a] && ps'[a] == ps[a]; }
    }
  }

  /** Every process of the tree is in the process table. */
  ghost predicate Live(procs: seq<Proc>, slots: seq<nat>) {
    forall a :: 0 <= a < |slots| ==> slots[a] < |procs| && procs[slots[a]] != UNUSED
  }

  /** One process does something to its memory; fine tells that no process ran short of memory before. */
  method UseOne(k: Kernel, slots: seq<nat>, who: nat, op: UserOp, ghost ps: seq<Space>, ghost fine: bool) returns (out: Out, ghost short: bool)
    requires k.Valid() && Live(k.procs, slots) && who < |slots| && OpOk(op) && (fine ==> Stand(k.vm.S(), k.procs, slots, ps))
    modifies k, k.vm
    ensures k.Valid() && Live(k.procs, slots) && Unused(k.procs) == Unused(old(k.procs))
    ensures Spends(old(k.vm.S()), k.vm.S(), 3 * PagesOf(op), short) && (short ==> Failed(out))
    ensures fine && !short ==> out == TreeStep(ps, Use(who, op)).0 && Stand(k.vm.S(), k.procs, slots, TreeStep(ps, Use(who, op)).1)
  {
    ghost var s, procs := k.vm.S(), k.procs;
    if fine { assert StandsAt(s, procs, slots[who], ps[who]); }
    out, short := k.Do(slots[who], op);
    if fine && !short {
      ghost var p := k.procs[slots[who]];
      UseStands(s, k.vm.S(), procs, k.tramp, slots, ps, who, Space(Image(k.vm.S(), p.pagetable, p.sz), p.sz), p.sz);
    }
  }

  /** One process forks. */
  method SplitOne(k: Kernel, slots: seq<nat>, who: nat, ghost ps: seq<Space>, ghost fine: bool) returns (ok: bool, slots': seq<nat>)
    requires k.Valid() && Live(k.procs, slots) && who < |slots| && (fine ==> Stand(k.vm.S(), k.procs, slots, ps))
    modifies k, k.vm
    ensures k.Valid() && (ok ==> Live(k.procs, slots') && |slots'| == |slots| + 1)
    ensures fine && !ok ==> Unused(old(k.procs)) == {} || |old(k.vm.freelist)| < CostOf(ps, Split(who))
    ensures fine && ok ==> Stand(k.vm.S(), k.procs, slots', ps + [ps[who]]) && |old(k.vm.freelist)| <= |k.vm.freelist| + CostOf(ps, Split(who))
    ensures fine && ok ==> |Unused(old(k.procs))| == |Unused(k.procs)| + 1
  {
    ghost var s, procs := k.vm.S(), k.procs;
    if fine { assert StandsAt(s, procs, slots[who], ps[who]); }
    var j;
    j, ok := k.Kfork(slots[who]);
    slots' := slots + [j];
    if fine && ok {
      SplitStands(s, k.vm.S(), procs, slots, ps, who, j, k.procs[j]);
      assert j in Unused(procs) && Unused(k.procs) == Unused(procs) - {j};
    }
  }

  lemma TreeNext(ps: seq<Space>, ops: seq<TreeOp>, outs: seq<Out>)
    requires Fitting(|ps|, ops) && ops != []
    ensures var (out, qs) := TreeStep(ps, ops[0]);
            && outs + TreeOutcomes(ps, ops) == (outs + [out]) + TreeOutcomes(qs, ops[1..])
            && TreeCost(ps, ops) == CostOf(ps, ops[0]) + TreeCost(qs, ops[1..])
            && Splits(ops) == (if ops[0].Split? then 1 else 0) + Splits(ops[1..])
  {
    var (out, qs) := TreeStep(ps, ops[0]);
    assert outs + ([out] + TreeOutcomes(qs, ops[1..])) == (outs + [out]) + TreeOutcomes(qs, ops[1..]);
  }

  /** Where a run stands: the processes see qs, rest is still to do, and no more was spent than the part that is done may cost. */
  ghost predicate Underway(k: Kernel, slots: seq<nat>, qs: seq<Space>, rest: seq<TreeOp>, outs: seq<Out>, all: seq<Out>, cost: nat, splits: nat,
                           pages: nat, unused: nat)
    reads k, k.vm
  {
    && k.Valid() && Stand(k.vm.S(), k.procs, slots, qs) && Fitting(|qs|, rest) && all == outs + TreeOutcomes(qs, rest)
    && pages + TreeCost(qs, rest) <= |k.vm.freelist| + cost && unused + Splits(rest) <= |Unused(k.procs)| + splits
  }

  /** The next operation of the run; stop tells that a fork failed. */
  method TreeTurn(k: Kernel, slots: seq<nat>, ops: seq<TreeOp>, outs: seq<Out>, ghost qs: seq<Space>, ghost all: seq<Out>, ghost cost: nat,
                  ghost splits: nat, ghost pages: nat, ghost unused: nat, ghost fine: bool)
    returns (out: Out, slots': seq<nat>, stop: bool, ghost fine': bool)
    requires k.Valid() && Live(k.procs, slots) && ops != [] && Fitting(|slots|, ops)
    requires fine ==> Underway(k, slots, qs, ops, outs, all, cost, splits, pages, unused)
    modifies k, k.vm
    ensures k.Valid() && (stop ==> !fine') && (!stop ==> Live(k.procs, slots') && Fitting(|slots'|, ops[1..]))
    ensures fine && !fine' ==> Failed(out) && (pages < cost || unused < splits)
    ensures fine' ==> fine && Underway(k, slots', TreeStep(qs, ops[0]).1, ops[1..], outs + [out], all, cost, splits, pages, unused)
  {
    if fine { TreeNext(qs, ops, outs); }
    slots', stop := slots, false;
    match ops[0] {
      case Use(who, op) =>
        ghost var short;
        out, short := UseOne(k, slots, who, op, qs, fine);
        fine' := fine && !short;
      case Split(who) =>
        var ok;
        ok, slots' := SplitOne(k, slots, who, qs, fine);
        out, stop, fine' := Forked(ok), !ok, fine && ok;
    }
  }

  /** Any run of a tree of processes gives what the images give, when memory and process slots suffice for what it may need. It ends
      early at a fork that fails. */
  method RunTree(k: Kernel, i: nat, ops: seq<TreeOp>) returns (outs: seq<Out>, ghost short: bool)
    requires k.Valid() && i < |k.procs| && k.procs[i] != UNUSED && Fitting(1, ops)
    modifies k, k.vm
    ensures k.Valid() && |outs| <= |ops| && (short ==> exists n :: 0 <= n < |outs| && Failed(outs[n]))
    ensures var ps := [Space(Image(old(k.vm.S()), old(k.procs)[i].pagetable, old(k.procs)[i].sz), old(k.procs)[i].sz)];
            && (!short ==> outs == TreeOutcomes(ps, ops))
            && (|old(k.vm.freelist)| >= TreeCost(ps, ops) && |Unused(old(k.procs))| >= Splits(ops) ==> !short)
  {
    ghost var ps := [Space(Image(k.vm.S(), k.procs[i].pagetable, k.procs[i].sz), k.procs[i].sz)];
    ghost var all, cost, splits, pages, unused := TreeOutcomes(ps, ops), TreeCost(ps, ops), Splits(ops), |k.vm.freelist|, |Unused(k.procs)|;
    var slots, rest := [i], ops;
    ghost var qs := ps;
    outs, short := [], false;
    assert StandsAt(k.vm.S(), k.procs, slots[0], ps[0]);
    while rest != []
      invariant |outs| + |rest| == |ops| && k.Valid() && Live(k.procs, slots) && Fitting(|slots|, rest)
      invariant !short ==> Underway(k, slots, qs, rest, outs, all, cost, splits, pages, unused)
      invariant short ==> (pages < cost || unused < splits) && exists n :: 0 <= n < |outs| && Failed(outs[n])
      decreases |rest|
    {
      var out, stop;
      ghost var fine, before := !short, outs;
      out, slots, stop, fine := TreeTurn(k, slots, rest, outs, qs, all, cost, splits, pages, unused, fine);
      outs := outs + [out];
      assert outs[|before|] == out && forall n :: 0 <= n < |before| ==> outs[n] == before[n];
      short := !fine;
      if stop {
        return;
      }
      if fine { qs := TreeStep(qs, rest[0]).1; }
      rest := rest[1..];
    }
  }

  /** Two kernels whose processes look alike give the same outcomes to two such runs that differ only in which requests are lazy. */
  method RunTreeBoth(a: Kernel, i: nat, ops: seq<TreeOp>, b: Kernel, j: nat, ops': seq<TreeOp>) returns (outs: seq<Out>, outs': seq<Out>)
    requires a != b && a.vm != b.vm && a.Valid() && b.Valid() && Fitting(1, ops) && Fitting(1, ops') && |ops| == |ops'|
    requires i < |a.procs| && a.procs[i] != UNUSED && j < |b.procs| && b.procs[j] != UNUSED && a.procs[i].sz == b.procs[j].sz
    requires Image(a.vm.S(), a.procs[i].pagetable, a.procs[i].sz) == Image(b.vm.S(), b.procs[j].pagetable, b.procs[j].sz)
    requires forall k :: 0 <= k < |ops| ==> SameTreeRequest(ops[k], ops'[k])
    requires var ps := [Space(Image(a.vm.S(), a.procs[i].pagetable, a.procs[i].sz), a.procs[i].sz)];
             && |a.vm.freelist| >= TreeCost(ps, ops) && |Unused(a.procs)| >= Splits(ops)
             && |b.vm.freelist| >= TreeCost(ps, ops') && |Unused(b.procs)| >= Splits(ops')
    modifies a, a.vm, b, b.vm
    ensures outs == outs' && a.Valid() && b.Valid()
  {
    TreeLaziness([Space(Image(a.vm.S(), a.procs[i].pagetable, a.procs[i].sz), a.procs[i].sz)], ops, ops');
    ghost var short, short';
    outs, short := RunTree(a, i, ops);
    outs', short' := RunTree(b, j, ops');
  }
}
