/** A full log: three operations have logged ten blocks each, and one of them has changed a logged block once more. */
module LogFull {
  import opened Blocks
  import opened BufCache
  import opened LogFormat
  import opened LogMachine
  import opened LogSafety

  const L: Layout := Layout(2, 200)

  function ZeroDisk(): Disk {
    seq(200, _ => ZeroBlock())
  }

  /** The n blocks from a on. */
  function Range(a: nat, n: nat): (r: set<nat>)
    ensures |r| == n && forall b :: b in r <==> a <= b < a + n
  {
    if n == 0 then {} else Range(a, n - 1) + {a + n - 1}
  }

  /** Operation p has logged ten blocks: 100 to 109, 110 to 119 or 120 to 129. */
  ghost predicate LoggedTen(op: Op, p: nat) {
    op.id == p && |op.blocks| == 10 && forall b :: b in op.blocks <==> 100 + 10 * p <= b < 110 + 10 * p
  }

  ghost predicate TenEach(ops: map<Pid, Op>) {
    ops.Keys == {0, 1, 2} && forall p {:trigger ops[p]} :: p in ops ==> LoggedTen(ops[p], p)
  }

  lemma SomeOp(p: nat, n: nat) returns (op: Op)
    requires n == 10
    ensures LoggedTen(op, p)
  {
    op := Op(p, Range(100 + 10 * p, n));
  }

  lemma SomeOps() returns (ops: map<Pid, Op>)
    ensures TenEach(ops)
  {
    var a := SomeOp(0, 10);
    var b := SomeOp(1, 10);
    var c := SomeOp(2, 10);
    ops := map[0 := a, 1 := b, 2 := c];
  }

  /** The writes so far: the thirty logged ones, and one more to the first block. */
  function Writes(): seq<Write> {
    seq(30, k requires 0 <= k < 30 => Write(k / 10, 100 + k, ZeroBlock())) + [Write(0, 100, ZeroBlock())]
  }

  function FullState(ops: map<Pid, Op>): State {
    State(ZeroDisk(),
          Cache(seq(30, i requires 0 <= i < 30 => Buf(DEV, 100 + i, true, if i == 0 then 2 else 1, ZeroBlock())),
                seq(30, i requires 0 <= i < 30 => i)),
          seq(30, i => BufLock(if i == 0 then Some(0) else None, multiset{})),
          {0}, seq(30, i requires 0 <= i < 30 => 100 + i), 3, false,
          ops, Idle, 0,
          History(ZeroDisk(), [], Writes(), {}, 0, 3))
  }

  /** Writing zeroes over zeroes. */
  lemma {:induction false} ApplyZeroes(ws: seq<Write>)
    requires forall k :: 0 <= k < |ws| ==> ws[k].data == ZeroBlock()
    ensures Apply(ZeroDisk(), ws) == ZeroDisk()
  {
    if ws != [] {
      ApplyZeroes(ws[..|ws| - 1]);
    }
  }

  lemma FullCacheInv(ops: map<Pid, Op>)
    requires TenEach(ops)
    ensures CacheInv(L, FullState(ops)) && PinInv(FullState(ops)) && DirtyInv(L, FullState(ops))
  {
    var s := FullState(ops);
    forall i | 0 <= i < |s.cache.bufs| ensures i in s.cache.lru && Pinned(s, s.cache.bufs[i].blockno) && BufOk(L, s, i) {
      assert s.cache.lru[i] == i && s.lh[i] == 100 + i;
    }
    forall t | 0 <= t < |s.lh| ensures Cached(s, s.lh[t]) {
      assert s.cache.bufs[t].valid && Key(s.cache.bufs[t], DEV, s.lh[t]);
    }
  }

  lemma FullContentInv(ops: map<Pid, Op>)
    requires TenEach(ops)
    ensures ContentInv(L, FullState(ops)) && DurableInv(L, FullState(ops))
  {
    var s := FullState(ops);
    ApplyZeroes(s.h.cur);
    assert Latest(s) == ZeroDisk();
    ZeroWords(0);
    assert HeaderOf(s.disk[L.start]) == [];
    RecoveredClean(L, s.disk);
    forall i | 0 <= i < |s.cache.bufs| ensures Shows(L, s, s.cache.bufs[i]) {}
    forall b: nat ensures DiskShows(L, s, b) {}
  }

  lemma OpsUsed(ops: map<Pid, Op>)
    requires TenEach(ops)
    ensures Unused(ops) == 0 && |ops| == 3
  {
    var two := ops - {0};
    var one := two - {1};
    UnusedSplit(ops, 0);
    UnusedSplit(two, 1);
    UnusedSplit(one, 2);
    assert one - {2} == map[];
    assert |ops| == |ops.Keys|;
  }

  lemma FullHistoryInv(ops: map<Pid, Op>)
    requires TenEach(ops)
    ensures HistoryInv(FullState(ops))
  {
    var s := FullState(ops);
    OpsUsed(ops);
    forall k | 0 <= k < |s.h.cur| ensures exists p :: p in s.ops && s.ops[p].id == s.h.cur[k].op {
      var p := s.h.cur[k].op;
      assert p in s.ops && s.ops[p].id == p;
    }
  }

  lemma FullBudgetInv(ops: map<Pid, Op>)
    requires TenEach(ops)
    ensures BudgetInv(FullState(ops))
  {
    var s := FullState(ops);
    OpsUsed(ops);
    forall b | 100 <= b < 130 ensures b in s.lh {
      assert s.lh[b - 100] == b;
    }
  }

  lemma FullInv(ops: map<Pid, Op>)
    requires TenEach(ops)
    ensures Inv(L, FullState(ops))
  {
    FullCacheInv(ops);
    FullContentInv(ops);
    FullHistoryInv(ops);
    FullBudgetInv(ops);
  }

  /** The invariant holds, process 0 holds the buffer of a block that is in the log and has changed it, and log_write panics: it
      looks at the length of the log before it looks for the block. */
  lemma AbsorbedWritePanics() returns (s: State, b: nat)
    ensures Inv(L, s) && b in s.lh && 0 in s.ops && 0 in s.dirty && Holds(s, 0, 0, b) && b in s.ops[0].blocks && LogWritePanics(s)
  {
    var ops := SomeOps();
    FullInv(ops);
    s, b := FullState(ops), 100;
    assert s.lh[0] == 100;
  }
}
