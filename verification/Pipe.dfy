/** The pipe of kernel/pipe.c with the calls in progress on it, each run from one sleep to the next under the pipe's lock. */
module Pipe {
  import opened Blocks
  import opened PipeSpec

  /** How a turn of pipewrite ends, having written m bytes into room bytes of space; killed is seen at test k of the loop. */
  ghost predicate WriteEnd(c: Call, m: nat, st: Status, room: nat, readopen: bool, k: nat)
    requires c.Write?
  {
    && m <= room && m <= k && c.i + m <= |c.buf| && (m > 0 ==> readopen) && (forall p :: c.i <= p < c.i + m ==> p !in c.bad)
    && if c.i + m == |c.buf| then st == Done(c.i + m)
       else if !readopen || m == k then st == Done(-1)
       else if m == room then st == Asleep
       else st == Done(c.i + m) && c.i + m in c.bad
  }

  /** A turn of pipewrite can end in one way only. */
  lemma WriteEndsOnce(c: Call, m: nat, st: Status, n: nat, su: Status, room: nat, readopen: bool, k: nat)
    requires c.Write? && WriteEnd(c, m, st, room, readopen, k) && WriteEnd(c, n, su, room, readopen, k)
    ensures m == n && st == su
  {
  }

  /** Will pipewrite, with this much room and killed seen at test k, be killed between two bytes? */
  ghost predicate KilledMidway(c: Call, room: nat, readopen: bool, k: nat)
    requires c.Write?
  {
    readopen && 0 < k <= room && c.i + k < |c.buf| && forall p :: c.i <= p < c.i + k ==> p !in c.bad
  }

  /** It is known before the turn whether it fails after its first byte. */
  lemma MidwayIff(c: Call, m: nat, st: Status, room: nat, readopen: bool, k: nat)
    requires c.Write? && WriteEnd(c, m, st, room, readopen, k)
    ensures st == Done(-1) && m > 0 <==> KilledMidway(c, room, readopen, k)
  {
  }

  /** How a turn of piperead ends, having read m of the unread bytes. */
  ghost predicate ReadEnd(c: Call, m: nat, st: Status, unread: nat, writeopen: bool, killed: bool)
    requires c.Read?
  {
    && m <= unread && m <= c.n && (forall p :: 0 <= p < m ==> p !in c.bad)
    && if unread == 0 && writeopen then m == 0 && st == if killed then Done(-1) else Asleep
       else if m < unread && m < c.n then m in c.bad && st == if m == 0 then Done(-1) else Done(m)
       else st == Done(m)
  }

  lemma ReadEndsOnce(c: Call, m: nat, st: Status, n: nat, su: Status, unread: nat, writeopen: bool, killed: bool)
    requires c.Read? && ReadEnd(c, m, st, unread, writeopen, killed) && ReadEnd(c, n, su, unread, writeopen, killed)
    ensures m == n && st == su
  {
  }

  /** The bytes that m steps of a write add. */
  ghost function Sends(c: Call, id: nat, m: nat): seq<Sent>
    requires c.Write? && c.i + m <= |c.buf|
  {
    seq(m, j requires 0 <= j < m => Sent(id, c.buf[c.i + j]))
  }

  /** The calls after a turn of pipewrite: unless it fails, it has woken the readers. */
  function AfterWrite(calls: map<nat, Call>, id: nat, c: Call, st: Status): map<nat, Call>
  {
    (if st == Done(-1) then calls else Woken(calls, false))[id := At(c, st)]
  }

  lemma AfterSame(calls: map<nat, Call>, id: nat, c: Call, st: Status)
    requires id in calls && calls[id].at == Ready && c.Write?
    ensures AfterWrite(calls[id := c], id, c, st) == AfterWrite(calls, id, c, st) && Moved(calls[id := c], AfterWrite(calls, id, c, st))
  {
    WokenAsleep(calls[id := c], false);
    var a, b := Woken(calls[id := c], false)[id := At(c, st)], Woken(calls, false)[id := At(c, st)];
    assert a.Keys == b.Keys;
    assert a == b;
  }

  lemma WriteWaits(calls: map<nat, Call>, id: nat, m: nat, st: Status, unread: nat, readopen: bool, writeopen: bool, k: nat)
    requires Waits(calls, unread, readopen, writeopen) && unread <= PIPESIZE && id in calls && calls[id].Write? && calls[id].at == Ready
    requires WriteEnd(calls[id], m, st, PIPESIZE - unread, readopen, k)
    ensures var now := AfterWrite(calls, id, calls[id].(i := calls[id].i + m), st);
            && Waits(now, unread + m, readopen, writeopen) && (Begun(calls) ==> Begun(now))
            && (AnyAsleep(now, false) <==> st == Done(-1) && AnyAsleep(calls, false))
  {
    var c, them := At(calls[id].(i := calls[id].i + m), st), if st == Done(-1) then calls else Woken(calls, false);
    WokenAsleep(calls, false);
    OneMoves(them, id, c, true);
    OneMoves(them, id, c, false);
    if Begun(calls) {
      BegunWoken(calls, false);
      BegunMoves(them, id, c);
    }
  }

  /** The calls after a turn of piperead: unless it sleeps or was killed waiting, it has woken the writers. */
  function AfterRead(calls: map<nat, Call>, id: nat, c: Call, st: Status, waited: bool): map<nat, Call>
  {
    (if waited then calls else Woken(calls, true))[id := At(c, st)]
  }

  lemma AfterReadSame(calls: map<nat, Call>, id: nat, c: Call, st: Status, waited: bool)
    requires id in calls && calls[id].at == Ready && c.Read?
    ensures AfterRead(calls[id := c], id, c, st, waited) == AfterRead(calls, id, c, st, waited)
    ensures Moved(calls[id := c], AfterRead(calls, id, c, st, waited))
  {
    WokenAsleep(calls[id := c], true);
    var a, b := Woken(calls[id := c], true)[id := At(c, st)], Woken(calls, true)[id := At(c, st)];
    assert a.Keys == b.Keys;
    assert a == b;
  }

  lemma ReadWaits(calls: map<nat, Call>, id: nat, c: Call, m: nat, st: Status, unread: nat, readopen: bool, writeopen: bool, killed: bool)
    requires Waits(calls, unread, readopen, writeopen) && id in calls && calls[id].Read? && calls[id].at == Ready
    requires ReadEnd(calls[id], m, st, unread, writeopen, killed) && c.Read? && (st == Asleep ==> c.got == [])
    ensures var now := AfterRead(calls, id, c, st, unread == 0 && writeopen);
            && Waits(now, unread - m, readopen, writeopen) && (Begun(calls) ==> Begun(now))
            && (AnyAsleep(now, false) ==> AnyAsleep(calls, false) || unread == 0)
  {
    var them := if unread == 0 && writeopen then calls else Woken(calls, true);
    WokenAsleep(calls, true);
    OneMoves(them, id, At(c, st), true);
    OneMoves(them, id, At(c, st), false);
    if Begun(calls) {
      BegunWoken(calls, true);
      BegunMoves(them, id, At(c, st));
    }
  }

  lemma Entering(written: seq<Sent>, taken: seq<nat>, calls: map<nat, Call>, id: nat, c: Call)
    requires CallsOk(written, taken, calls) && id !in calls && c.at == Ready && (if c.Write? then c.i == 0 else c.got == [])
    ensures CallsOk(written, taken, calls[id := c])
    ensures forall w :: AnyAsleep(calls[id := c], w) == AnyAsleep(calls, w)
    ensures forall w :: AnyPending(calls[id := c], w) ==> AnyPending(calls, w) || c.Write? == w
  {
    var now := calls[id := c];
    forall j | j in now ensures CallOk(written, taken, j, now[j]) {
      if j in calls { assert CallOk(written, taken, j, calls[j]); }
    }
    forall j: nat, w ensures Sleeps(now, j, w) == Sleeps(calls, j, w) && (Pends(now, j, w) ==> Pends(calls, j, w) || c.Write? == w) {
    }
    forall w ensures AnyAsleep(now, w) == AnyAsleep(calls, w) {
      if j: nat :| Sleeps(calls, j, w) { assert Sleeps(now, j, w); }
    }
  }

  lemma PendingIff(calls: map<nat, Call>, writers: bool)
    ensures AnyPending(calls, writers) <==> !forall j | j in calls :: calls[j].at.Done? || calls[j].Write? != writers
  {
    if j :| j in calls && !calls[j].at.Done? && calls[j].Write? == writers {
      assert Pends(calls, j, writers);
    }
  }

  /** One sleeper is woken. */
  lemma Rousing(calls: map<nat, Call>, id: nat)
    requires id in calls && calls[id].at == Asleep
    ensures Moved(calls, calls[id := At(calls[id], Ready)])
    ensures forall w :: AnyAsleep(calls[id := At(calls[id], Ready)], w) ==> AnyAsleep(calls, w)
    ensures forall w :: AnyPending(calls[id := At(calls[id], Ready)], w) ==> AnyPending(calls, w)
  {
    var now := calls[id := At(calls[id], Ready)];
    forall j: nat, w ensures (Sleeps(now, j, w) ==> Sleeps(calls, j, w)) && Pends(now, j, w) == Pends(calls, j, w) {
    }
  }

  lemma BegunRoused(calls: map<nat, Call>, id: nat)
    requires Begun(calls) && id in calls && calls[id].at == Asleep
    ensures Begun(calls[id := At(calls[id], Ready)])
  {
    assert calls[id].Read? ==> Pends(calls, id, false);
    BegunMoves(calls, id, At(calls[id], Ready));
  }

  /** What can happen to a pipe: a call starts, runs a turn, is killed (and woken, if kill finds it asleep), or an end is closed. */
  datatype Event =
    | BeginWrite(buf: seq<Byte>, bad: set<nat>)
    | BeginRead(n: nat, bad: set<nat>)
    | Resume(k: nat)
    | Kill(woken: bool)
    | Close(writable: bool)

  /** A pipe and its calls at one moment; unread counts the bytes in the ring. */
  datatype Snap = Snap(calls: map<nat, Call>, killed: set<nat>, unread: int, readopen: bool, writeopen: bool)

  /** No reader sleeps while there are bytes to read. */
  ghost predicate Quiet(s: Snap) {
    AnyAsleep(s.calls, false) ==> s.unread == 0
  }

  /** Call id is a writer about to be killed between two bytes while a reader sleeps. */
  ghost predicate Misses(s: Snap, id: nat, k: nat) {
    && id in s.calls && s.calls[id].Write? && s.calls[id].at == Ready && AnyAsleep(s.calls, false) && s.unread <= PIPESIZE
    && KilledMidway(s.calls[id], PIPESIZE - s.unread, s.readopen, if id in s.killed then 0 else k)
  }

  /** Does this event leave a reader asleep beside unread bytes? Only a writer's turn that is killed midway does. */
  ghost predicate EventMisses(s: Snap, e: (nat, Event)) {
    e.1.Resume? && Misses(s, e.0, e.1.k)
  }

  ghost predicate WroteTo(s: Snap, t: Snap, id: nat, k: nat, m: nat, st: Status)
    requires id in s.calls && s.calls[id].Write?
  {
    var c := s.calls[id];
    && 0 <= s.unread <= PIPESIZE && WriteEnd(c, m, st, PIPESIZE - s.unread, s.readopen, if id in s.killed then 0 else k)
    && t == s.(calls := AfterWrite(s.calls, id, c.(i := c.i + m), st), unread := s.unread + m)
  }

  ghost predicate ReadFrom(s: Snap, t: Snap, id: nat, k: nat, m: nat, st: Status, bytes: seq<Byte>)
    requires id in s.calls && s.calls[id].Read?
  {
    && 0 <= s.unread && ReadEnd(s.calls[id], m, st, s.unread, s.writeopen, k == 0 || id in s.killed) && |bytes| == m
    && t == s.(calls := AfterRead(s.calls, id, s.calls[id].(got := bytes), st, s.unread == 0 && s.writeopen), unread := s.unread - m)
  }

  /** What an event makes of the pipe; one that cannot happen now changes nothing. */
  ghost predicate Stepped(s: Snap, t: Snap, e: (nat, Event)) {
    var id := e.0;
    match e.1
    case BeginWrite(buf, bad) =>
      t == if id !in s.calls && s.writeopen then s.(calls := s.calls[id := Write(buf, bad, 0, Ready)]) else s
    case BeginRead(n, bad) =>
      t == if id !in s.calls && s.readopen then s.(calls := s.calls[id := Read(n, bad, [], Ready)]) else s
    case Resume(k) =>
      if id !in s.calls || s.calls[id].at != Ready then t == s
      else if s.calls[id].Write? then exists m: nat, st {:trigger WroteTo(s, t, id, k, m, st)} :: WroteTo(s, t, id, k, m, st)
      else exists m: nat, st, bytes {:trigger ReadFrom(s, t, id, k, m, st, bytes)} :: ReadFrom(s, t, id, k, m, st, bytes)
    case Kill(woken) =>
      t == s.(killed := s.killed + {id},
              calls := if woken && id in s.calls && s.calls[id].at == Asleep then s.calls[id := At(s.calls[id], Ready)] else s.calls)
    case Close(writable) =>
      t == if AnyPending(s.calls, writable) then s
           else s.(calls := Woken(s.calls, !writable), readopen := s.readopen && writable, writeopen := s.writeopen && !writable)
  }

  /** A turn of pipewrite leaves a reader asleep beside unread bytes exactly if it is killed midway while one sleeps. */
  lemma WroteQuiet(s: Snap, t: Snap, id: nat, k: nat, m: nat, st: Status)
    requires id in s.calls && s.calls[id].Write? && s.calls[id].at == Ready && WroteTo(s, t, id, k, m, st)
    requires Waits(s.calls, s.unread, s.readopen, s.writeopen)
    ensures Quiet(s) ==> (Quiet(t) <==> !Misses(s, id, k))
  {
    var limit := if id in s.killed then 0 else k;
    WriteWaits(s.calls, id, m, st, s.unread, s.readopen, s.writeopen, limit);
    MidwayIff(s.calls[id], m, st, PIPESIZE - s.unread, s.readopen, limit);
  }

  /** One event: what it does, and that it leaves the pipe quiet exactly unless it misses a wakeup. */
  ghost predicate EventOk(a: Snap, b: Snap, e: (nat, Event)) {
    Stepped(a, b, e) && (Quiet(a) ==> (Quiet(b) <==> !EventMisses(a, e)))
  }

  /** The trace of the first n events. */
  ghost predicate TraceOk(trace: seq<Snap>, events: seq<(nat, Event)>, n: nat) {
    && |trace| == n + 1 && n <= |events|
    && forall i {:trigger events[i]} :: 0 <= i < n ==> EventOk(trace[i], trace[i + 1], events[i])
  }

  lemma TraceMore(trace: seq<Snap>, events: seq<(nat, Event)>, n: nat, next: Snap)
    requires TraceOk(trace, events, n) && n < |events| && EventOk(trace[n], next, events[n])
    ensures TraceOk(trace + [next], events, n + 1)
  {
    var all := trace + [next];
    forall i | 0 <= i < n + 1 ensures EventOk(all[i], all[i + 1], events[i]) {
      assert all[i] == trace[i] && all[i + 1] == if i < n then trace[i + 1] else next;
    }
  }

  /** Somewhere on the way from quiet to not quiet an event missed a wakeup. */
  lemma {:induction false} LostBy(trace: seq<Snap>, events: seq<(nat, Event)>, n: nat)
    requires n < |trace| && TraceOk(trace, events, |trace| - 1) && Quiet(trace[0]) && !Quiet(trace[n])
    ensures exists i :: 0 <= i < n && EventMisses(trace[i], events[i])
  {
    var last := n - 1;
    assert EventOk(trace[last], trace[last + 1], events[last]);
    if !Quiet(trace[last]) {
      LostBy(trace, events, last);
    } else {
      assert EventMisses(trace[last], events[last]);
    }
  }


  class Pipe {
    const data: array<Byte>
    var nread: Word
    var nwrite: Word
    var readopen: bool
    var writeopen: bool
    var calls: map<nat, Call>
    var killed: set<nat>
    ghost var written: seq<Sent>
    ghost var taken: seq<nat>          // which call read each byte

    /** The counters and the ring give the bytes written and not yet read; each call has moved its own bytes. */
    ghost predicate Bytes()
      reads this, data
    {
      && data.Length == PIPESIZE && nread == Wrap(|taken|) && nwrite == Wrap(|written|) && Ring(data[..], written, |taken|)
      && CallsOk(written, taken, calls)
    }

    ghost predicate Valid()
      reads this, data
    {
      Bytes() && Begun(calls) && Waits(calls, |written| - |taken|, readopen, writeopen)
    }

    ghost function Now(): Snap
      reads this
    {
      Snap(calls, killed, |written| - |taken|, readopen, writeopen)
    }

    ghost predicate AsleepBesideBytes()
      reads this
    {
      AnyAsleep(calls, false) && |taken| < |written| && readopen && writeopen
    }

    constructor ()
      ensures Valid() && fresh(data) && Quiet(Now()) && readopen && writeopen && written == [] && taken == [] && calls == map[] && killed == {}
    {
      data := new Byte[PIPESIZE](_ => 0);
      nread, nwrite, readopen, writeopen, calls, killed, written, taken := 0, 0, true, true, map[], {}, [], [];
    }

    /** One byte into the ring. */
    method PutByte(id: nat)
      requires Bytes() && id in calls && calls[id].Write? && calls[id].i < |calls[id].buf| && |written| < |taken| + PIPESIZE
      modifies this`nwrite, this`calls, this`written, data
      ensures var c := old(calls)[id];
              Bytes() && written == old(written) + [Sent(id, c.buf[c.i])] && calls == old(calls)[id := c.(i := c.i + 1)]
    {
      var c := calls[id];
      RingPut(data[..], written, |taken|, Sent(id, c.buf[c.i]));
      CallsPut(written, taken, calls, id);
      WrapNext(|written|);
      data[nwrite % PIPESIZE] := c.buf[c.i];
      nwrite := Wrap(nwrite + 1);
      calls := calls[id := c.(i := c.i + 1)];
      written := written + [Sent(id, c.buf[c.i])];
    }

    /** One byte out of the ring. */
    method TakeByte(id: nat)
      requires Bytes() && id in calls && calls[id].Read? && |calls[id].got| < calls[id].n && |taken| < |written|
      modifies this`nread, this`calls, this`taken
      ensures var c := old(calls)[id];
              Bytes() && taken == old(taken) + [id] && calls == old(calls)[id := c.(got := c.got + [written[|old(taken)|].ch])]
    {
      var c := calls[id];
      RingGet(data[..], written, |taken|);
      CallsTake(written, taken, calls, id);
      WrapNext(|taken|);
      var ch := data[nread % PIPESIZE];
      nread := Wrap(nread + 1);
      calls := calls[id := c.(got := c.got + [ch])];
      taken := taken + [id];
    }

    /** The calls stand elsewhere; no byte moves. */
    method Move(now: map<nat, Call>)
      requires Bytes() && Moved(calls, now)
      modifies this`calls
      ensures Bytes() && calls == now
    {
      CallsMoved(written, taken, calls, now);
      calls := now;
    }

    /** A turn of pipewrite has written m bytes. */
    ghost predicate Sending(id: nat, c: Call, m: nat, before: seq<Sent>, them: map<nat, Call>)
      reads this, data
    {
      && Bytes() && c.Write? && c.i + m <= |c.buf| && written == before + Sends(c, id, m) && calls == them[id := c.(i := c.i + m)]
    }

    method SendOne(id: nat, ghost c: Call, ghost m: nat, ghost before: seq<Sent>, ghost them: map<nat, Call>)
      requires Sending(id, c, m, before, them) && c.i + m < |c.buf| && |written| < |taken| + PIPESIZE
      modifies this`nwrite, this`calls, this`written, data
      ensures Sending(id, c, m + 1, before, them)
    {
      PutByte(id);
      assert Sends(c, id, m + 1) == Sends(c, id, m) + [Sent(id, c.buf[c.i + m])];
      assert written == before + Sends(c, id, m + 1);
    }

    /** The loop of pipewrite: how it stops. */
    method WriteLoop(id: nat, k: nat) returns (st: Status, ghost m: nat)
      requires Bytes() && id in calls && calls[id].Write?
      modifies this`nwrite, this`calls, this`written, data
      ensures WriteEnd(old(calls)[id], m, st, PIPESIZE - (|old(written)| - |taken|), readopen, k)
      ensures Sending(id, old(calls)[id], m, old(written), old(calls))
    {
      ghost var c, w0, them := calls[id], written, calls;
      assert CallOk(written, taken, id, calls[id]);
      m := 0;
      var tests := 0;
      while calls[id].i < |calls[id].buf|
        invariant tests == m <= k && |w0| + m == |written| && (m > 0 ==> readopen) && Sending(id, c, m, w0, them)
        invariant forall p :: c.i <= p < c.i + m ==> p !in c.bad
        decreases |c.buf| - c.i - m
      {
        if !readopen || tests == k {
          return Done(-1), m;
        }
        FullIff(|taken|, |written|);
        if nwrite == Wrap(nread + PIPESIZE) {
          return Asleep, m;
        }
        if calls[id].i in calls[id].bad {
          break;
        }
        SendOne(id, c, m, w0, them);
        m, tests := m + 1, tests + 1;
      }
      st := Done(calls[id].i);
    }

    /** pipewrite from its start, or from a wakeup, to its next sleep or its return; killed(pr) is seen no later than test k.
        A writer killed after its first byte returns without a wakeup: only then can a reader be left asleep beside unread bytes. */
    method WriteTurn(id: nat, k: nat) returns (st: Status, ghost m: nat)
      requires Valid() && id in calls && calls[id].Write? && calls[id].at == Ready
      modifies this`nwrite, this`calls, this`written, data
      ensures Valid() && WriteEnd(old(calls)[id], m, st, PIPESIZE - (|old(written)| - |taken|), readopen, if id in killed then 0 else k)
      ensures written == old(written) + Sends(old(calls)[id], id, m)
      ensures var c := old(calls)[id];
              calls == AfterWrite(old(calls), id, c.(i := c.i + m), st)
      ensures Quiet(old(Now())) ==> (Quiet(Now()) <==> !Misses(old(Now()), id, k))
    {
      ghost var s := Now();
      st, m := WriteStep(id, k);
      WroteQuiet(s, Now(), id, k, m, st);
    }

    /** The same, but for the sleepers. */
    method WriteStep(id: nat, k: nat) returns (st: Status, ghost m: nat)
      requires Valid() && id in calls && calls[id].Write? && calls[id].at == Ready
      modifies this`nwrite, this`calls, this`written, data
      ensures Valid() && WroteTo(old(Now()), Now(), id, k, m, st) && written == old(written) + Sends(old(calls)[id], id, m)
    {
      ghost var c, them := calls[id], calls;
      var limit := if id in killed then 0 else k;
      st, m := WriteLoop(id, limit);
      Settle(id, st, c.(i := c.i + m), them);
      WriteWaits(them, id, m, st, |old(written)| - |taken|, readopen, writeopen, limit);
      assert |written| == |old(written)| + m;
    }

    /** The end of a turn of pipewrite: unless it fails, the readers are woken. */
    method Settle(id: nat, st: Status, ghost d: Call, ghost them: map<nat, Call>)
      requires Bytes() && id in them && them[id].at == Ready && d.Write? && calls == them[id := d]
      modifies this`calls
      ensures Bytes() && calls == AfterWrite(them, id, d, st)
    {
      AfterSame(them, id, d, st);
      Move(AfterWrite(calls, id, calls[id], st));
    }

    /** A turn of piperead has read m bytes. */
    ghost predicate Receiving(id: nat, c: Call, m: nat, before: seq<nat>, them: map<nat, Call>)
      reads this, data
    {
      && Bytes() && c.Read? && c.got == [] && m <= c.n && |before| + m <= |written| && taken == before + seq(m, _ => id)
      && calls == them[id := c.(got := Chars(written, |before|, m))]
    }

    method ReceiveOne(id: nat, ghost c: Call, ghost m: nat, ghost before: seq<nat>, ghost them: map<nat, Call>)
      requires Receiving(id, c, m, before, them) && m < c.n && |taken| < |written|
      modifies this`nread, this`calls, this`taken
      ensures Receiving(id, c, m + 1, before, them)
    {
      TakeByte(id);
      assert seq(m + 1, _ => id) == seq(m, _ => id) + [id];
      assert taken == before + seq(m + 1, _ => id);
      assert Chars(written, |before|, m + 1) == Chars(written, |before|, m) + [written[|before| + m].ch];
    }

    /** The copying loop of piperead. */
    method ReadLoop(id: nat) returns (st: Status, ghost m: nat)
      requires Bytes() && id in calls && calls[id].Read? && calls[id].got == []
      requires |written| > |taken| || !writeopen
      modifies this`nread, this`calls, this`taken
      ensures ReadEnd(old(calls)[id], m, st, |written| - |old(taken)|, writeopen, false)
      ensures Receiving(id, old(calls)[id], m, old(taken), old(calls))
    {
      ghost var c, t0, them := calls[id], taken, calls;
      m := 0;
      var i := 0;
      assert c.(got := []) == c && calls == them[id := c];
      while i < calls[id].n
        invariant i == m && m <= c.n && |taken| == |t0| + m && Receiving(id, c, m, t0, them)
        invariant forall p :: 0 <= p < m ==> p !in c.bad
      {
        EmptyIff(|taken|, |written|);
        if nread == nwrite {
          break;
        }
        if i in calls[id].bad {
          return if i == 0 then Done(-1) else Done(i), m;
        }
        ReceiveOne(id, c, m, t0, them);
        m, i := m + 1, i + 1;
      }
      st := Done(i);
    }

    /** piperead from its start, or from a wakeup, to its next sleep or its return. */
    method ReadTurn(id: nat, killedNow: bool) returns (st: Status, ghost m: nat)
      requires Valid() && id in calls && calls[id].Read? && calls[id].at == Ready
      modifies this`nread, this`calls, this`taken
      ensures Valid() && ReadEnd(old(calls)[id], m, st, |written| - |old(taken)|, writeopen, killedNow || id in killed)
      ensures taken == old(taken) + seq(m, _ => id)
      ensures calls == AfterRead(old(calls), id, old(calls)[id].(got := Chars(written, |old(taken)|, m)), st, |written| == |old(taken)| && writeopen)
      ensures Quiet(old(Now())) ==> Quiet(Now())
    {
      ghost var c, them, t0 := calls[id], calls, taken;
      assert Pends(calls, id, false);
      EmptyIff(|taken|, |written|);
      var waits := nread == nwrite && writeopen;
      if waits {
        m, st := 0, if killedNow || id in killed then Done(-1) else Asleep;
      } else {
        st, m := ReadLoop(id);
      }
      ghost var d := c.(got := Chars(written, |t0|, m));
      assert calls == them[id := d];
      ReadWaits(them, id, d, m, st, |written| - |t0|, readopen, writeopen, killedNow || id in killed);
      AfterReadSame(them, id, d, st, waits);
      Move(AfterRead(calls, id, calls[id], st, waits));
    }

    /** A call enters; its end of the pipe is open, since it holds a descriptor for it. */
    method Begin(id: nat, c: Call)
      requires Valid() && id !in calls && c.at == Ready && (if c.Write? then writeopen && c.i == 0 else readopen && c.got == [])
      modifies this`calls
      ensures Valid() && calls == old(calls)[id := c] && (Quiet(old(Now())) <==> Quiet(Now()))
    {
      ghost var them := calls;
      BegunMoves(calls, id, c);
      Entering(written, taken, calls, id, c);
      calls := calls[id := c];
    }

    /** kill: the victim sees it at its next test; unless it was caught between a test and its sleep, it is woken. */
    method KillCall(id: nat, woken: bool)
      requires Valid()
      modifies this`calls, this`killed
      ensures Valid() && killed == old(killed) + {id} && (Quiet(old(Now())) ==> Quiet(Now()))
      ensures calls == if woken && id in old(calls) && old(calls)[id].at == Asleep then old(calls)[id := At(old(calls)[id], Ready)] else old(calls)
    {
      killed := killed + {id};
      if woken && id in calls && calls[id].at == Asleep {
        Rousing(calls, id);
        BegunRoused(calls, id);
        Move(calls[id := At(calls[id], Ready)]);
      }
    }

    /** pipeclose, called when no descriptor for that end is left; the page is freed when both ends are closed, and then no
        call is in progress. */
    method CloseEnd(writable: bool) returns (freed: bool)
      requires Valid() && !AnyPending(calls, writable)
      modifies this`calls, this`readopen, this`writeopen
      ensures Valid() && calls == Woken(old(calls), !writable) && (Quiet(old(Now())) ==> Quiet(Now()))
      ensures writeopen == (old(writeopen) && !writable) && readopen == (old(readopen) && writable)
      ensures freed <==> !readopen && !writeopen
      ensures freed ==> forall id :: id in calls ==> calls[id].at.Done?
    {
      WokenAsleep(calls, !writable);
      BegunWoken(calls, !writable);
      if writable {
        writeopen := false;
      } else {
        readopen := false;
      }
      Move(Woken(calls, !writable));
      freed := !readopen && !writeopen;
      if freed {
        forall id | id in calls ensures calls[id].at.Done? {
          assert Pends(calls, id, calls[id].Write?) == !calls[id].at.Done?;
        }
      }
    }

    /** One event for call id. It goes wrong exactly when a writer is killed midway while a reader sleeps. */
    method Step(id: nat, e: Event)
      requires Valid()
      modifies this, data
      ensures Valid() && old(written) <= written && old(taken) <= taken && Stepped(old(Now()), Now(), (id, e))
      ensures Quiet(old(Now())) ==> (Quiet(Now()) <==> !EventMisses(old(Now()), (id, e)))
    {
      match e {
        case BeginWrite(buf, bad) =>
          if id !in calls && writeopen {
            Begin(id, Write(buf, bad, 0, Ready));
          }
        case BeginRead(n, bad) =>
          if id !in calls && readopen {
            Begin(id, Read(n, bad, [], Ready));
          }
        case Resume(k) =>
          if id in calls && calls[id].at == Ready {
            Turn(id, k);
          }
        case Kill(woken) =>
          KillCall(id, woken);
        case Close(writable) =>
          PendingIff(calls, writable);
          if forall j | j in calls :: calls[j].at.Done? || calls[j].Write? != writable {
            var freed := CloseEnd(writable);
          }
      }
    }

    method Turn(id: nat, k: nat)
      requires Valid() && id in calls && calls[id].at == Ready
      modifies this`nread, this`nwrite, this`calls, this`written, this`taken, data
      ensures Valid() && old(written) <= written && old(taken) <= taken && Stepped(old(Now()), Now(), (id, Resume(k)))
      ensures Quiet(old(Now())) ==> (Quiet(Now()) <==> !Misses(old(Now()), id, k))
    {
      ghost var m, s := 0, Now();
      var st;
      if calls[id].Write? {
        st, m := WriteTurn(id, k);
        assert WroteTo(s, Now(), id, k, m, st);
      } else {
        st, m := ReadTurn(id, k == 0);
        assert ReadFrom(s, Now(), id, k, m, st, Chars(written, |old(taken)|, m));
      }
    }

    /** Every run keeps the stream in order. Its history shows the pipe between events: a reader is left asleep beside unread bytes
        exactly by the events at which a writer is killed midway while a reader sleeps. */
    method Run(events: seq<(nat, Event)>) returns (ghost trace: seq<Snap>)
      requires Valid()
      modifies this, data
      ensures Valid() && old(written) <= written && old(taken) <= taken
      ensures |trace| == |events| + 1 && trace[0] == old(Now()) && trace[|events|] == Now()
      ensures forall i {:trigger events[i]} :: 0 <= i < |events| ==> Stepped(trace[i], trace[i + 1], events[i])
      ensures forall i {:trigger events[i]} :: 0 <= i < |events| && Quiet(trace[i]) ==> (Quiet(trace[i + 1]) <==> !EventMisses(trace[i], events[i]))
      ensures Quiet(old(Now())) && !Quiet(Now()) ==> exists i :: 0 <= i < |events| && EventMisses(trace[i], events[i])
    {
      trace := [Now()];
      for i := 0 to |events|
        invariant Valid() && old(written) <= written && old(taken) <= taken
        invariant TraceOk(trace, events, i) && trace[0] == old(Now()) && trace[i] == Now()
      {
        ghost var was := Now();
        Step(events[i].0, events[i].1);
        assert events[i] == (events[i].0, events[i].1) && EventOk(was, Now(), events[i]);
        TraceMore(trace, events, i, Now());
        trace := trace + [Now()];
      }
      if Quiet(trace[0]) && !Quiet(trace[|events|]) { LostBy(trace, events, |events|); }
    }

    /** For any number of calls in any state: what was taken is the first part of what was written, each write call put in its own
        bytes in order, each read call holds its own share in order, and the rest is in the ring between the counters. */
    lemma Stream(k: nat, j: nat)
      requires Valid()
      ensures |taken| <= |written| <= |taken| + PIPESIZE && (nwrite - nread) % UINT_LIMIT == |written| - |taken|
      ensures forall id :: id in calls && calls[id].Write? ==> calls[id].i <= |calls[id].buf| && Put(written, id) == calls[id].buf[..calls[id].i]
      ensures forall id :: id in calls && calls[id].Read? ==> Got(written, taken, id) == calls[id].got
      ensures k < |written| ==> written[k].src in calls && calls[written[k].src].Write?
      ensures k < |taken| ==> taken[k] in calls && calls[taken[k]].Read?
      ensures |taken| + j < |written| ==> data[Wrap(nread + j) % PIPESIZE] == written[|taken| + j].ch
    {
      RingSlice(data[..], written, |taken|, j);
      forall id | id in calls ensures CallOk(written, taken, id, calls[id]) {
      }
      if k < |written| {
        EveryByte(written, taken, calls, k);
      }
    }

    /** Between one writer and one reader: what was read is the start of what was written, and the rest is still in the ring. */
    lemma PrefixRead(w: nat, r: nat)
      requires Valid() && calls.Keys == {w, r} && calls[w].Write? && calls[r].Read?
      ensures var read := |calls[r].got|;
              && read <= calls[w].i <= read + PIPESIZE && calls[w].i <= |calls[w].buf| && calls[r].got == calls[w].buf[..read]
              && (forall j {:trigger calls[w].buf[j]} :: read <= j < calls[w].i ==> data[j % PIPESIZE] == calls[w].buf[j])
    {
      OnePair(written, taken, calls, w, r);
      forall j | |taken| <= j < |written| ensures data[j % PIPESIZE] == calls[w].buf[j] {
        CharsAt(written, j);
        assert calls[w].buf[j] == calls[w].buf[..calls[w].i][j] && data[..][j % PIPESIZE] == written[j].ch;
      }
    }
  }

  /** A reader asleep beside a byte: the writer of two bytes was killed after the first. */
  method LeftAsleep() returns (p: Pipe)
    ensures fresh(p) && p.Valid() && p.AsleepBesideBytes()
  {
    p := new Pipe();
    p.Begin(0, Read(1, {}, [], Ready));
    ghost var m;
    var st;
    st, m := p.ReadTurn(0, false);
    p.Begin(1, Write([7, 7], {}, 0, Ready));
    st, m := p.WriteTurn(1, 1);
    assert Sleeps(p.calls, 0, false);
  }
}
