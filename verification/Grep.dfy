/** The line-splitting loop of user/grep.c. */
module Grep {
  import opened Regexp

  const BUFSIZE: nat := 1024
  const NUL: char := '\0'

  predicate IsStop(c: char) {
    c == '\n' || c == NUL
  }

  /** The first newline or NUL from p on, or the end of the input. */
  function Stop(s: string, p: nat): (k: nat)
    requires p <= |s|
    ensures p <= k <= |s| && (k < |s| ==> IsStop(s[k]))
    decreases |s| - p
  {
    if p == |s| || IsStop(s[p]) then p else Stop(s, p + 1)
  }

  lemma {:induction false} StopIs(s: string, p: nat, k: nat)
    requires p <= k <= |s| && (forall i {:trigger IsStop(s[i])} :: p <= i < k ==> !IsStop(s[i])) && (k < |s| ==> IsStop(s[k]))
    ensures Stop(s, p) == k
    decreases k - p
  {
    if p < k {
      StopIs(s, p + 1, k);
    }
  }

  lemma {:induction false} StopPast(s: string, p: nat, k: nat)
    requires p <= k <= |s| && (forall i {:trigger IsStop(s[i])} :: p <= i < k ==> !IsStop(s[i]))
    ensures Stop(s, p) >= k
    decreases k - p
  {
    if p < k {
      StopPast(s, p + 1, k);
    }
  }

  /** The lines that a pattern matches. */
  ghost function Keeps(re: string): string -> bool {
    line => Matches(re, line)
  }

  ghost predicate Judges(re: string, keep: string -> bool) {
    forall line {:trigger Matches(re, line)} :: Matches(re, line) == keep(line)
  }

  /** What is written for one line. */
  ghost function Kept(keep: string -> bool, line: string): string {
    if keep(line) then line + "\n" else ""
  }

  /** Does grep handle the line from p to k: does it end in a newline, and fit the buffer with it? */
  predicate Handled(s: string, p: nat, k: nat) {
    k < |s| && s[k] == '\n' && k - p + 2 <= BUFSIZE
  }

  /** When grep has written out and goes on with the input from p, it has written total in the end: it gives up at a line that
      holds a NUL or does not fit the buffer. */
  ghost predicate Writes(keep: string -> bool, out: string, s: string, p: nat, total: string)
    requires p <= |s|
    decreases |s| - p
  {
    var k := Stop(s, p);
    if Handled(s, p, k) then Writes(keep, out + Kept(keep, s[p..k]), s, k + 1, total) else total == out
  }

  /** There is one such output. */
  lemma {:induction false} WritesOnce(keep: string -> bool, out: string, s: string, p: nat) returns (total: string)
    requires p <= |s|
    ensures forall t :: Writes(keep, out, s, p, t) <==> t == total
    decreases |s| - p
  {
    var k := Stop(s, p);
    if Handled(s, p, k) {
      total := WritesOnce(keep, out + Kept(keep, s[p..k]), s, k + 1);
    } else {
      total := out;
    }
  }

  /** The line from p on is not whole in the input up to end. */
  ghost predicate NoLine(s: string, p: nat, end: nat) {
    p <= end <= |s| && (Stop(s, p) >= end || s[Stop(s, p)] == NUL)
  }

  /** strchr looked from p to q, in the input up to end, for a newline. */
  ghost predicate Looked(s: string, p: nat, q: nat, end: nat, found: bool) {
    && p <= q <= end <= |s| && (if q < end then Stop(s, p) == q else Stop(s, p) >= end)
    && (found <==> q < end && s[q] == '\n')
  }

  lemma LookedNone(s: string, p: nat, q: nat, end: nat)
    requires Looked(s, p, q, end, false)
    ensures NoLine(s, p, end)
  {
  }

  /** What was written and what is still to come from p on make up total. */
  ghost predicate Owes(keep: string -> bool, out: string, s: string, p: nat, total: string) {
    p <= |s| && Writes(keep, out, s, p, total)
  }

  lemma {:induction false} OwesLine(keep: string -> bool, out: string, s: string, p: nat, k: nat, end: nat, total: string)
    requires Owes(keep, out, s, p, total) && Looked(s, p, k, end, true) && end - p < BUFSIZE
    ensures Owes(keep, out + Kept(keep, s[p..k]), s, k + 1, total)
  {
  }

  /** Nothing more is written when the buffer is full, or the input is at its end, without a whole line. */
  lemma {:induction false} OwesNothing(keep: string -> bool, out: string, s: string, p: nat, end: nat, total: string)
    requires Owes(keep, out, s, p, total) && NoLine(s, p, end) && (end - p + 1 == BUFSIZE || end == |s|)
    ensures out == total
  {
  }

  // ---------------------------------------------------------------- lines

  /** From p to a newline at k there is neither newline nor NUL, and the line fits the buffer. */
  ghost predicate PlainLine(s: string, p: nat, k: nat) {
    p <= k && Handled(s, p, k) && forall i {:trigger IsStop(s[i])} :: p <= i < k ==> !IsStop(s[i])
  }

  /** The newlines at ends end plain lines, one after the other from p on. */
  ghost predicate PlainLines(s: string, p: nat, ends: seq<nat>)
    decreases |ends|
  {
    if ends == [] then p <= |s| else PlainLine(s, p, ends[0]) && PlainLines(s, ends[0] + 1, ends[1..])
  }

  /** Where the next line starts. */
  ghost function After(p: nat, ends: seq<nat>): nat {
    if ends == [] then p else ends[|ends| - 1] + 1
  }

  /** out and the lines to keep, each with its newline, in order. */
  ghost function Selected(keep: string -> bool, out: string, s: string, p: nat, ends: seq<nat>): string
    requires PlainLines(s, p, ends)
    decreases |ends|
  {
    if ends == [] then out else Selected(keep, out + Kept(keep, s[p..ends[0]]), s, ends[0] + 1, ends[1..])
  }

  lemma {:induction false} WritesHead(keep: string -> bool, out: string, s: string, p: nat, k: nat, total: string)
    requires PlainLine(s, p, k)
    ensures Writes(keep, out, s, p, total) <==> Writes(keep, out + Kept(keep, s[p..k]), s, k + 1, total)
  {
    StopIs(s, p, k);
  }

  /** Over plain lines, grep writes exactly the lines that match, and goes on after them. */
  lemma {:induction false} WritesLines(keep: string -> bool, out: string, s: string, p: nat, ends: seq<nat>, total: string)
    requires PlainLines(s, p, ends)
    ensures p <= |s| && After(p, ends) <= |s|
    ensures Writes(keep, out, s, p, total) <==> Writes(keep, Selected(keep, out, s, p, ends), s, After(p, ends), total)
    decreases |ends|
  {
    if ends != [] {
      WritesHead(keep, out, s, p, ends[0], total);
      WritesLines(keep, out + Kept(keep, s[p..ends[0]]), s, ends[0] + 1, ends[1..], total);
    }
  }

  /** From a line that is too long or holds a NUL on, and from an unfinished last line on, grep writes nothing. */
  lemma {:induction false} WritesNoMore(keep: string -> bool, out: string, s: string, p: nat, k: nat, total: string)
    requires p <= k <= |s| && (forall i :: p <= i < k ==> s[i] != '\n')
    requires k == |s| || k - p + 2 > BUFSIZE || (exists i :: p <= i < k && s[i] == NUL)
    ensures Writes(keep, out, s, p, total) <==> total == out
  {
    if exists i :: p <= i < k && s[i] == NUL {
      var i :| p <= i < k && s[i] == NUL;
      StopBefore(s, p, i);
    } else {
      StopPast(s, p, k);
    }
  }

  lemma {:induction false} StopBefore(s: string, p: nat, i: nat)
    requires p <= i < |s| && IsStop(s[i])
    ensures Stop(s, p) <= i
    decreases i - p
  {
    if p < i {
      StopBefore(s, p + 1, i);
    }
  }

  // ---------------------------------------------------------------- the loops

  class Grep {
    const buf: array<char>
    var m: nat
    var out: string                    // what was written to descriptor 1

    constructor ()
      ensures fresh(buf) && buf.Length == BUFSIZE && m == 0 && out == ""
    {
      buf := new char[BUFSIZE](_ => NUL);
      m, out := 0, "";
    }

    /** The buffer from p to m holds the input from start + p on. */
    ghost predicate Holds(input: string, start: nat, p: nat)
      reads this, buf
    {
      p <= m < buf.Length == BUFSIZE && start + m <= |input| && forall i {:trigger buf[i]} :: p <= i < m ==> buf[i] == input[start + i]
    }

    /** strchr: the newline that ends the line, if the buffer has it and no NUL comes first. */
    method StrChr(p: nat, ghost input: string, ghost start: nat) returns (q: nat, found: bool)
      requires Holds(input, start, p) && buf[m] == NUL
      ensures p <= q <= m && Looked(input, start + p, start + q, start + m, found)
    {
      q := p;
      while buf[q] != '\n' && buf[q] != NUL
        invariant p <= q <= m && forall i :: start + p <= i < start + q ==> !IsStop(input[i])
        decreases m - q
      {
        assert input[start + q] == buf[q];
        q := q + 1;
      }
      found := buf[q] == '\n';
      if q < m {
        assert input[start + q] == buf[q];
        StopIs(input, start + p, start + q);
      } else {
        StopPast(input, start + p, start + m);
      }
    }

    /** One line: its newline is a NUL while match looks at it. */
    method DoLine(re: string, p: nat, q: nat, ghost keep: string -> bool, ghost input: string, ghost start: nat)
      requires Judges(re, keep) && Holds(input, start, p) && buf[m] == NUL && p <= q < m && input[start + q] == '\n'
      modifies this`out, buf
      ensures Holds(input, start, q + 1) && buf[m] == NUL && out == old(out) + Kept(keep, input[start + p..start + q])
    {
      ghost var line := input[start + p..start + q];
      buf[q] := NUL;
      var text := buf[p..q];
      assert text == line;
      var matched := Match(re, text);
      if matched {
        buf[q] := '\n';
        assert buf[p..q + 1] == line + "\n";
        out := out + buf[p..q + 1];
      } else {
        assert out + "" == out;
      }
    }

    /** The search for the line at p has ended at q. */
    ghost predicate At(keep: string -> bool, total: string, input: string, start: nat, p: nat, q: nat, found: bool)
      reads this, buf
    {
      && Holds(input, start, p) && buf[m] == NUL && Owes(keep, out, input, start + p, total)
      && p <= q <= m && Looked(input, start + p, start + q, start + m, found)
    }

    method WriteLine(re: string, p: nat, q: nat, ghost keep: string -> bool, ghost total: string, ghost input: string, ghost start: nat)
      requires Judges(re, keep) && At(keep, total, input, start, p, q, true)
      modifies this`out, buf
      ensures Holds(input, start, q + 1) && buf[m] == NUL && Owes(keep, out, input, start + q + 1, total)
    {
      OwesLine(keep, out, input, start + p, start + q, start + m, total);
      DoLine(re, p, q, keep, input, start);
    }

    method NextLine(re: string, p: nat, q: nat, ghost keep: string -> bool, ghost total: string, ghost input: string, ghost start: nat)
      returns (next: nat, end: nat, found: bool)
      requires Judges(re, keep) && At(keep, total, input, start, p, q, true)
      modifies this`out, buf
      ensures p < next && At(keep, total, input, start, next, end, found)
    {
      WriteLine(re, p, q, keep, total, input, start);
      next := q + 1;
      end, found := StrChr(next, input, start);
    }

    /** The lines that are whole in the buffer; no line from p on is. */
    method DoLines(re: string, ghost keep: string -> bool, ghost total: string, ghost input: string, ghost start: nat) returns (p: nat, q: nat)
      requires Judges(re, keep) && Holds(input, start, 0) && buf[m] == NUL && Owes(keep, out, input, start, total)
      modifies this`out, buf
      ensures At(keep, total, input, start, p, q, false)
    {
      p := 0;
      var found;
      q, found := StrChr(p, input, start);
      while found
        invariant At(keep, total, input, start, p, q, found)
        decreases m - p
      {
        p, q, found := NextLine(re, p, q, keep, total, input, start);
      }
    }

    /** What is left moves to the front of the buffer. */
    method Shift(p: nat, ghost input: string, ghost start: nat)
      requires Holds(input, start, p)
      modifies this`m, buf
      ensures m == old(m) - p && Holds(input, start + p, 0)
    {
      var n := m - p;
      forall i | 0 <= i < n {
        buf[i] := buf[p + i];
      }
      m := n;
    }

    /** read: up to want bytes after the m in the buffer, at least one if there is room and input. */
    method Read(input: string, pos: nat, want: nat, ghost start: nat) returns (n: nat)
      requires Holds(input, start, 0) && pos == start + m
      modifies this`m, buf
      ensures m == old(m) + n && Holds(input, start, 0) && (n > 0 ==> buf[m] == NUL)
      ensures n == 0 <==> old(m) + 1 == BUFSIZE || pos == |input|
    {
      var room, left := buf.Length - m - 1, |input| - pos;
      n := if room < left then room else left;
      if 1 <= want < n {
        n := want;
      }
      forall i | 0 <= i < n {
        buf[m + i] := input[pos + i];
      }
      m := m + n;
      if n > 0 {
        buf[m] := NUL;
      }
    }

    /** Between two reads: the buffer starts with the line at start, which is not whole yet. */
    ghost predicate Accounts(keep: string -> bool, total: string, input: string, start: nat)
      reads this, buf
    {
      Holds(input, start, 0) && Owes(keep, out, input, start, total) && NoLine(input, start, start + m)
    }

    /** The lines that a read completed, and what they leave. */
    method Handle(re: string, ghost keep: string -> bool, ghost total: string, ghost input: string, ghost start: nat) returns (ghost next: nat)
      requires Judges(re, keep) && Holds(input, start, 0) && buf[m] == NUL && Owes(keep, out, input, start, total)
      modifies this, buf
      ensures Accounts(keep, total, input, next) && next + m == start + old(m)
    {
      var p, q := DoLines(re, keep, total, input, start);
      LookedNone(input, start + p, start + q, start + m);
      Shift(p, input, start);
      next := start + p;
    }

    /** One read, and the lines it completes. */
    method Turn(re: string, ghost keep: string -> bool, ghost total: string, input: string, pos: nat, want: nat, ghost start: nat) returns (n: nat, ghost next: nat)
      requires Judges(re, keep) && Accounts(keep, total, input, start) && pos == start + m
      modifies this, buf
      ensures n == 0 ==> out == total
      ensures n > 0 ==> Accounts(keep, total, input, next) && next + m == pos + n
    {
      next := start;
      n := Read(input, pos, want, start);
      if n == 0 {
        OwesNothing(keep, out, input, start, start + m, total);
      } else {
        next := Handle(re, keep, total, input, start);
      }
    }

    /** However the reads split the input, grep writes the one output that Writes allows. */
    method Run(re: string, input: string, wants: seq<nat>)
      requires buf.Length == BUFSIZE && m == 0 && out == ""
      modifies this, buf
      ensures Writes(Keeps(re), "", input, 0, out)
    {
      ghost var keep := Keeps(re);
      ghost var total := WritesOnce(keep, "", input, 0);
      var pos, turn := 0, 0;
      ghost var start: nat;
      var n: nat;
      n, start := Turn(re, keep, total, input, 0, if turn < |wants| then wants[turn] else 0, 0);
      while n > 0
        invariant n == 0 ==> out == total
        invariant n > 0 ==> Accounts(keep, total, input, start) && start + m == pos + n <= |input|
        decreases |input| - pos, n
      {
        pos, turn := pos + n, turn + 1;
        n, start := Turn(re, keep, total, input, pos, if turn < |wants| then wants[turn] else 0, start);
      }
    }
  }
}
