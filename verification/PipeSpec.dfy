/** Pipes (kernel/pipe.c): what was written, what was read, and the ring of bytes between. */
module PipeSpec {
  import opened Blocks

  const PIPESIZE: nat := 512

  /** A byte and the call that wrote it. */
  datatype Sent = Sent(src: nat, ch: Byte)

  datatype Status = Ready | Asleep | Done(r: int)

  /** A call of pipewrite or piperead: the indices at which copyin or copyout fails, the bytes moved so far, and where it stands. */
  datatype Call =
    | Write(buf: seq<Byte>, bad: set<nat>, i: nat, at: Status)
    | Read(n: nat, bad: set<nat>, got: seq<Byte>, at: Status)

  /** The call, standing elsewhere. */
  function At(c: Call, st: Status): Call {
    match c
    case Write(buf, bad, i, _) => Write(buf, bad, i, st)
    case Read(n, bad, got, _) => Read(n, bad, got, st)
  }

  /** nread and nwrite are 32-bit counters. */
  function Wrap(n: nat): Word {
    n % UINT_LIMIT
  }

  /** The ring holds the bytes from t on. */
  ghost predicate Ring(data: seq<Byte>, written: seq<Sent>, t: nat) {
    && |data| == PIPESIZE && t <= |written| <= t + PIPESIZE
    && (forall k {:trigger written[k]} :: t <= k < |written| ==> data[k % PIPESIZE] == written[k].ch)
  }

  lemma EmptyIff(t: nat, w: nat)
    requires t <= w <= t + PIPESIZE
    ensures Wrap(t) == Wrap(w) <==> t == w
  {
  }

  lemma FullIff(t: nat, w: nat)
    requires t <= w <= t + PIPESIZE
    ensures Wrap(w) == Wrap(Wrap(t) + PIPESIZE) <==> w == t + PIPESIZE
  {
  }

  lemma WrapIndex(t: nat, j: nat)
    ensures Wrap(Wrap(t) + j) % PIPESIZE == (t + j) % PIPESIZE
  {
    WrapSlot(Wrap(t) + j);
    WrapSlot(t);
    assert (Wrap(t) + j) % 512 == (t + j) % 512;
  }

  lemma WrapNext(n: nat)
    ensures Wrap(Wrap(n) + 1) == Wrap(n + 1)
  {
  }

  lemma WrapSlot(n: nat)
    ensures Wrap(n) % 512 == n % 512
  {
    assert n == 512 * (8388608 * (n / 0x1_0000_0000)) + Wrap(n);
  }

  lemma WrapLength(t: nat, w: nat)
    requires t <= w <= t + PIPESIZE
    ensures (Wrap(w) - Wrap(t)) % UINT_LIMIT == w - t
  {
  }

  /** The counters, wrapped or not, give the length of the unread bytes and the place of each in the ring. */
  lemma RingSlice(data: seq<Byte>, written: seq<Sent>, t: nat, j: nat)
    requires Ring(data, written, t)
    ensures (Wrap(|written|) - Wrap(t)) % UINT_LIMIT == |written| - t <= PIPESIZE
    ensures t + j < |written| ==> data[Wrap(Wrap(t) + j) % PIPESIZE] == written[t + j].ch
  {
    WrapLength(t, |written|);
    WrapIndex(t, j);
  }

  /** A byte stored at the write counter joins the ring and disturbs no unread byte. */
  lemma RingPut(data: seq<Byte>, written: seq<Sent>, t: nat, s: Sent)
    requires Ring(data, written, t) && |written| < t + PIPESIZE
    ensures Ring(data[Wrap(|written|) % PIPESIZE := s.ch], written + [s], t)
  {
    var w := |written|;
    assert Wrap(w) % PIPESIZE == w % PIPESIZE;
    forall k | t <= k < w ensures k % PIPESIZE != w % PIPESIZE {
      ModApart(k, w);
    }
  }

  lemma ModApart(k: nat, w: nat)
    requires k < w < k + PIPESIZE
    ensures k % PIPESIZE != w % PIPESIZE
  {
  }

  /** The byte at the read counter is the oldest unread one, and the ring without it is what is left. */
  lemma RingGet(data: seq<Byte>, written: seq<Sent>, t: nat)
    requires Ring(data, written, t) && t < |written|
    ensures data[Wrap(t) % PIPESIZE] == written[t].ch && Ring(data, written, t + 1)
  {
    assert Wrap(t) % PIPESIZE == t % PIPESIZE;
  }

  /** What a call has written, in order. */
  ghost function Put(written: seq<Sent>, id: nat): seq<Byte> {
    if written == [] then [] else
      var n := |written| - 1;
      Put(written[..n], id) + if written[n].src == id then [written[n].ch] else []
  }

  /** What a call has read, in order, when the bytes were taken by the calls listed. */
  ghost function Got(written: seq<Sent>, taken: seq<nat>, id: nat): seq<Byte>
    requires |taken| <= |written|
  {
    if taken == [] then [] else
      var n := |taken| - 1;
      Got(written, taken[..n], id) + if taken[n] == id then [written[n].ch] else []
  }

  lemma PutOne(written: seq<Sent>, s: Sent, id: nat)
    ensures Put(written + [s], id) == Put(written, id) + if s.src == id then [s.ch] else []
  {
    assert (written + [s])[..|written|] == written;
  }

  lemma GotOne(written: seq<Sent>, taken: seq<nat>, src: nat, id: nat)
    requires |taken| < |written|
    ensures Got(written, taken + [src], id) == Got(written, taken, id) + if src == id then [written[|taken|].ch] else []
  {
    assert (taken + [src])[..|taken|] == taken;
  }

  /** Later writes do not change what was read. */
  lemma {:induction false} GotSame(written: seq<Sent>, s: Sent, taken: seq<nat>, id: nat)
    requires |taken| <= |written|
    ensures Got(written + [s], taken, id) == Got(written, taken, id)
  {
    if taken != [] {
      GotSame(written, s, taken[..|taken| - 1], id);
    }
  }

  /** A call has moved what its state says it has. */
  ghost predicate CallOk(written: seq<Sent>, taken: seq<nat>, id: nat, c: Call) {
    && |taken| <= |written|
    && match c
       case Write(buf, _, i, _) => i <= |buf| && Put(written, id) == buf[..i] && Got(written, taken, id) == []
       case Read(n, _, got, _) => |got| <= n && Got(written, taken, id) == got && Put(written, id) == []
  }

  /** Every byte belongs to a call. */
  ghost predicate CallsOk(written: seq<Sent>, taken: seq<nat>, calls: map<nat, Call>) {
    && |taken| <= |written|
    && (forall id {:trigger CallOk(written, taken, id, calls[id])} :: id in calls ==> CallOk(written, taken, id, calls[id]))
    && (forall id: nat {:trigger Put(written, id)} :: id !in calls ==> Put(written, id) == [])
    && (forall id: nat {:trigger Got(written, taken, id)} :: id !in calls ==> Got(written, taken, id) == [])
  }

  /** A byte written moves its own call and no other. */
  lemma CallPut(written: seq<Sent>, taken: seq<nat>, s: Sent, id: nat, c: Call)
    requires CallOk(written, taken, id, c)
    ensures id != s.src ==> CallOk(written + [s], taken, id, c)
    ensures id == s.src && c.Write? && c.i < |c.buf| && c.buf[c.i] == s.ch ==> CallOk(written + [s], taken, id, c.(i := c.i + 1))
  {
    PutOne(written, s, id);
    GotSame(written, s, taken, id);
    if c.Write? && c.i < |c.buf| {
      assert c.buf[..c.i + 1] == c.buf[..c.i] + [c.buf[c.i]];
    }
  }

  lemma CallsPut(written: seq<Sent>, taken: seq<nat>, calls: map<nat, Call>, id: nat)
    requires CallsOk(written, taken, calls) && id in calls && calls[id].Write? && calls[id].i < |calls[id].buf|
    ensures var c := calls[id];
            CallsOk(written + [Sent(id, c.buf[c.i])], taken, calls[id := c.(i := c.i + 1)])
  {
    var c := calls[id];
    var s := Sent(id, c.buf[c.i]);
    var w, now := written + [s], calls[id := c.(i := c.i + 1)];
    forall j | j in now ensures CallOk(w, taken, j, now[j]) {
      assert CallOk(written, taken, j, calls[j]);
      CallPut(written, taken, s, j, calls[j]);
    }
    forall j: nat | j !in now ensures Put(w, j) == [] && Got(w, taken, j) == [] {
      PutOne(written, s, j);
      GotSame(written, s, taken, j);
    }
  }

  /** A byte read moves its own call and no other. */
  lemma CallTake(written: seq<Sent>, taken: seq<nat>, src: nat, id: nat, c: Call)
    requires CallOk(written, taken, id, c) && |taken| < |written|
    ensures id != src ==> CallOk(written, taken + [src], id, c)
    ensures id == src && c.Read? && |c.got| < c.n ==> CallOk(written, taken + [src], id, c.(got := c.got + [written[|taken|].ch]))
  {
    GotOne(written, taken, src, id);
  }

  lemma CallsTake(written: seq<Sent>, taken: seq<nat>, calls: map<nat, Call>, id: nat)
    requires CallsOk(written, taken, calls) && id in calls && calls[id].Read? && |calls[id].got| < calls[id].n && |taken| < |written|
    ensures var c := calls[id];
            CallsOk(written, taken + [id], calls[id := c.(got := c.got + [written[|taken|].ch])])
  {
    var c := calls[id];
    var t, now := taken + [id], calls[id := c.(got := c.got + [written[|taken|].ch])];
    forall j | j in now ensures CallOk(written, t, j, now[j]) {
      assert CallOk(written, taken, j, calls[j]);
      CallTake(written, taken, id, j, calls[j]);
    }
    forall j: nat | j !in now ensures Got(written, t, j) == [] {
      GotOne(written, taken, id, j);
    }
  }

  /** The same calls, standing elsewhere. */
  ghost predicate Moved(calls: map<nat, Call>, now: map<nat, Call>) {
    now.Keys == calls.Keys && forall id {:trigger now[id]} :: id in calls ==> now[id] == At(calls[id], now[id].at)
  }

  lemma CallsMoved(written: seq<Sent>, taken: seq<nat>, calls: map<nat, Call>, now: map<nat, Call>)
    requires CallsOk(written, taken, calls) && Moved(calls, now)
    ensures CallsOk(written, taken, now)
  {
    forall id | id in now ensures CallOk(written, taken, id, now[id]) {
      assert CallOk(written, taken, id, calls[id]);
    }
  }

  // ---------------------------------------------------------------- sleeping

  /** A wakeup on one side makes every call that sleeps there ready. */
  function Woken(calls: map<nat, Call>, writers: bool): map<nat, Call> {
    map id | id in calls :: if calls[id].at == Asleep && calls[id].Write? == writers then At(calls[id], Ready) else calls[id]
  }

  predicate Sleeps(calls: map<nat, Call>, id: nat, writers: bool) {
    id in calls && calls[id].at == Asleep && calls[id].Write? == writers
  }

  predicate Pends(calls: map<nat, Call>, id: nat, writers: bool) {
    id in calls && !calls[id].at.Done? && calls[id].Write? == writers
  }

  ghost predicate AnyAsleep(calls: map<nat, Call>, writers: bool) {
    exists id: nat {:trigger Sleeps(calls, id, writers)} :: Sleeps(calls, id, writers)
  }

  ghost predicate AnyPending(calls: map<nat, Call>, writers: bool) {
    exists id: nat {:trigger Pends(calls, id, writers)} :: Pends(calls, id, writers)
  }

  /** Who sleeps: a writer only while the ring is full and the pipe can be read, a reader only while the pipe can be written,
      and never a writer and a reader at once. An end with a call in progress is open. */
  ghost predicate Waits(calls: map<nat, Call>, unread: nat, readopen: bool, writeopen: bool) {
    && (AnyAsleep(calls, true) ==> unread == PIPESIZE && readopen && !AnyAsleep(calls, false))
    && (AnyAsleep(calls, false) ==> writeopen)
    && (AnyPending(calls, true) ==> writeopen) && (AnyPending(calls, false) ==> readopen)
  }

  /** wakeup leaves no call of its kind asleep, and the others where they are. */
  lemma WokenAsleep(calls: map<nat, Call>, writers: bool)
    ensures Moved(calls, Woken(calls, writers)) && !AnyAsleep(Woken(calls, writers), writers)
    ensures AnyAsleep(Woken(calls, writers), !writers) == AnyAsleep(calls, !writers)
    ensures AnyPending(Woken(calls, writers), true) == AnyPending(calls, true) && AnyPending(Woken(calls, writers), false) == AnyPending(calls, false)
  {
    var now := Woken(calls, writers);
    var others := !writers;
    if id: nat :| Sleeps(calls, id, others) {
      assert Sleeps(now, id, others);
    }
    if id: nat :| Sleeps(now, id, others) {
      assert Sleeps(calls, id, others);
    }
    forall id: nat, w ensures Pends(now, id, w) == Pends(calls, id, w) {
    }
    forall w ensures AnyPending(now, w) == AnyPending(calls, w) {
      SamePending(calls, now, w);
    }
  }

  lemma SamePending(calls: map<nat, Call>, now: map<nat, Call>, w: bool)
    requires forall id: nat {:trigger Pends(calls, id, w)} {:trigger Pends(now, id, w)} :: Pends(now, id, w) == Pends(calls, id, w)
    ensures AnyPending(now, w) == AnyPending(calls, w)
  {
  }

  /** One call moves on: the others sleep as they did. */
  lemma OneMoves(calls: map<nat, Call>, id: nat, c: Call, writers: bool)
    requires id in calls && calls[id].at == Ready && c.Write? == calls[id].Write?
    ensures var now := calls[id := c];
            && AnyAsleep(now, writers) == (AnyAsleep(calls, writers) || (c.at == Asleep && c.Write? == writers))
            && (AnyPending(now, writers) ==> AnyPending(calls, writers)) && AnyPending(calls, c.Write?)
  {
    var now := calls[id := c];
    assert Sleeps(now, id, writers) == (c.at == Asleep && c.Write? == writers) && Pends(calls, id, c.Write?);
    if j: nat :| Sleeps(calls, j, writers) {
      assert Sleeps(now, j, writers);
    }
    if j: nat :| Sleeps(now, j, writers) {
      assert j != id ==> Sleeps(calls, j, writers);
    }
    if j: nat :| Pends(now, j, writers) {
      assert Pends(calls, j, writers);
    }
  }

  /** A read that has not returned has read nothing: it copies in its last turn. */
  ghost predicate Begun(calls: map<nat, Call>) {
    forall id: nat {:trigger Pends(calls, id, false)} :: Pends(calls, id, false) ==> calls[id].got == []
  }

  lemma BegunWoken(calls: map<nat, Call>, writers: bool)
    requires Begun(calls)
    ensures Begun(Woken(calls, writers))
  {
    var now := Woken(calls, writers);
    forall id: nat | Pends(now, id, false) ensures now[id].got == [] {
      assert Pends(calls, id, false);
    }
  }

  lemma BegunMoves(calls: map<nat, Call>, id: nat, c: Call)
    requires Begun(calls) && (c.Write? || c.at.Done? || c.got == [])
    ensures Begun(calls[id := c])
  {
    var now := calls[id := c];
    forall j: nat | Pends(now, j, false) ensures now[j].got == [] {
      assert j != id ==> Pends(calls, j, false);
    }
  }

  // ---------------------------------------------------------------- whole streams

  /** The m bytes written from t on. */
  ghost function Chars(written: seq<Sent>, t: nat, m: nat): (r: seq<Byte>)
    requires t + m <= |written|
    ensures |r| == m
  {
    if m == 0 then [] else Chars(written, t, m - 1) + [written[t + m - 1].ch]
  }

  lemma {:induction false} CharsPrefix(written: seq<Sent>, m: nat, n: nat)
    requires m <= n <= |written|
    ensures Chars(written, 0, n)[..m] == Chars(written, 0, m)
  {
    if m < n {
      CharsPrefix(written, m, n - 1);
    }
  }

  lemma {:induction false} CharsSame(a: seq<Sent>, b: seq<Sent>, m: nat)
    requires m <= |a| && m <= |b| && a[..m] == b[..m]
    ensures Chars(a, 0, m) == Chars(b, 0, m)
  {
    if m > 0 {
      assert a[m - 1] == a[..m][m - 1] && b[m - 1] == b[..m][m - 1] && a[..m - 1] == a[..m][..m - 1] && b[..m - 1] == b[..m][..m - 1];
      CharsSame(a, b, m - 1);
    }
  }

  /** A stream with one writer is what that writer put in. */
  lemma {:induction false} OneWriter(written: seq<Sent>, id: nat)
    requires forall j: nat {:trigger Put(written, j)} :: j != id ==> Put(written, j) == []
    ensures Put(written, id) == Chars(written, 0, |written|)
  {
    if written != [] {
      var n := |written| - 1;
      assert Put(written, written[n].src) != [];
      forall j: nat | j != id ensures Put(written[..n], j) == [] {
        assert Put(written, j) == [];
      }
      OneWriter(written[..n], id);
      CharsSame(written, written[..n], n);
    }
  }

  /** Bytes with one reader are all in that reader's hands. */
  lemma {:induction false} OneReader(written: seq<Sent>, taken: seq<nat>, id: nat)
    requires |taken| <= |written| && forall j: nat {:trigger Got(written, taken, j)} :: j != id ==> Got(written, taken, j) == []
    ensures Got(written, taken, id) == Chars(written, 0, |taken|)
  {
    if taken != [] {
      var n := |taken| - 1;
      assert Got(written, taken, taken[n]) != [];
      forall j: nat | j != id ensures Got(written, taken[..n], j) == [] {
        assert Got(written, taken, j) == [];
      }
      OneReader(written, taken[..n], id);
    }
  }

  lemma CharsAt(written: seq<Sent>, j: nat)
    requires j < |written|
    ensures Chars(written, 0, |written|)[j] == written[j].ch
  {
    CharsPrefix(written, j + 1, |written|);
    assert Chars(written, 0, |written|)[..j + 1][j] == Chars(written, 0, j + 1)[j];
  }

  /** Between one writer and one reader, each has its own part of the same stream. */
  lemma OnePair(written: seq<Sent>, taken: seq<nat>, calls: map<nat, Call>, w: nat, r: nat)
    requires CallsOk(written, taken, calls) && calls.Keys == {w, r} && calls[w].Write? && calls[r].Read?
    ensures calls[w].i == |written| <= |calls[w].buf| && calls[w].buf[..calls[w].i] == Chars(written, 0, |written|)
    ensures calls[r].got == Chars(written, 0, |taken|) == calls[w].buf[..|taken|]
  {
    assert CallOk(written, taken, w, calls[w]) && CallOk(written, taken, r, calls[r]);
    OneWriter(written, w);
    OneReader(written, taken, r);
    CharsPrefix(written, |taken|, |written|);
    assert calls[w].buf[..calls[w].i][..|taken|] == calls[w].buf[..|taken|];
  }

  /** Every byte written is among the bytes of the call that wrote it. */
  lemma {:induction false} PutHolds(written: seq<Sent>, k: nat)
    requires k < |written|
    ensures Put(written, written[k].src) != []
    decreases |written|
  {
    var n := |written| - 1;
    if k < n {
      PutHolds(written[..n], k);
    }
  }

  lemma {:induction false} GotHolds(written: seq<Sent>, taken: seq<nat>, k: nat)
    requires k < |taken| <= |written|
    ensures Got(written, taken, taken[k]) != []
    decreases |taken|
  {
    var n := |taken| - 1;
    if k < n {
      GotHolds(written, taken[..n], k);
    }
  }

  /** For any calls: each byte of the stream was written by one write call and, once taken, by one read call. */
  lemma EveryByte(written: seq<Sent>, taken: seq<nat>, calls: map<nat, Call>, k: nat)
    requires CallsOk(written, taken, calls) && k < |written|
    ensures written[k].src in calls && calls[written[k].src].Write?
    ensures k < |taken| ==> taken[k] in calls && calls[taken[k]].Read?
  {
    PutHolds(written, k);
    var w := written[k].src;
    assert w in calls;
    assert CallOk(written, taken, w, calls[w]);
    if k < |taken| {
      GotHolds(written, taken, k);
      assert taken[k] in calls;
      assert CallOk(written, taken, taken[k], calls[taken[k]]);
    }
  }
}
