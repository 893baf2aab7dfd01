/** The recursive-descent parser of user/sh.c over its cursor, and nulterminate over its buffer. */
module Shell {
  import opened ShGrammar
  import opened ShPrint
  import opened ShLex

  /** A counted string in the buffer: argv[i] and eargv[i], or file and efile. */
  datatype Span = Span(q: nat, eq: nat)

  datatype Cmd =
    | ExecCmd(argv: seq<Span>)
    | RedirCmd(cmd: Cmd, file: Span, mode: Mode)
    | PipeCmd(left: Cmd, right: Cmd)
    | ListCmd(left: Cmd, right: Cmd)
    | BackCmd(cmd: Cmd)

  datatype Res = Got(c: Cmd) | Panicked(msg: string)

  /** A span is a word, and ends where no word goes on. */
  predicate SpanOk(s: string, p: Span) {
    && p.q < p.eq <= |s| && (forall i {:trigger s[i]} :: p.q <= i < p.eq ==> IsWordChar(s[i]))
    && (p.eq < |s| ==> IsSpace(s[p.eq]) || IsSymbol(s[p.eq]))
  }

  ghost predicate SpansOk(s: string, c: Cmd) {
    match c
    case ExecCmd(argv) => forall i {:trigger argv[i]} :: 0 <= i < |argv| ==> SpanOk(s, argv[i])
    case RedirCmd(cmd, file, _) => SpansOk(s, cmd) && SpanOk(s, file)
    case PipeCmd(l, r) => SpansOk(s, l) && SpansOk(s, r)
    case ListCmd(l, r) => SpansOk(s, l) && SpansOk(s, r)
    case BackCmd(cmd) => SpansOk(s, cmd)
  }

  ghost function SpanText(s: string, p: Span): string {
    if p.q <= p.eq <= |s| then s[p.q..p.eq] else ""
  }

  /** The tree that a command stands for. */
  ghost function View(s: string, c: Cmd): Tree {
    match c
    case ExecCmd(argv) => Exec(seq(|argv|, i requires 0 <= i < |argv| => SpanText(s, argv[i])))
    case RedirCmd(cmd, file, mode) => Redir(View(s, cmd), SpanText(s, file), mode)
    case PipeCmd(l, r) => Pipe(View(s, l), View(s, r))
    case ListCmd(l, r) => List(View(s, l), View(s, r))
    case BackCmd(cmd) => Back(View(s, cmd))
  }

  /** One more argument for the command inside its redirections. */
  function AddSpan(c: Cmd, p: Span): Cmd {
    match c
    case ExecCmd(argv) => ExecCmd(argv + [p])
    case RedirCmd(cmd, file, mode) => RedirCmd(AddSpan(cmd, p), file, mode)
    case _ => c
  }

  lemma {:induction false} AddSpanView(s: string, c: Cmd, p: Span)
    requires SpansOk(s, c) && SpanOk(s, p)
    ensures View(s, AddSpan(c, p)) == AddArg(View(s, c), SpanText(s, p)) && SpansOk(s, AddSpan(c, p))
  {
    match c {
      case ExecCmd(argv) =>
        assert View(s, AddSpan(c, p)).argv == View(s, c).argv + [SpanText(s, p)];
      case RedirCmd(cmd, _, _) =>
        AddSpanView(s, cmd, p);
      case _ =>
    }
  }

  // ---------------------------------------------------------------- the tokens at a position

  lemma {:induction false} BlanksBlank(s: string)
    ensures AllBlank(s[..Blanks(s)])
  {
    if s != "" && IsSpace(s[0]) {
      BlanksBlank(s[1..]);
      var n := Blanks(s);
      forall i | 0 <= i < n ensures IsSpace(s[..n][i]) {
        assert i > 0 ==> s[..n][i] == s[1..][..n - 1][i - 1];
      }
    }
  }

  /** Skipping blanks changes no token. */
  lemma LexSkip(s: string)
    ensures Lex(s[Blanks(s)..]) == Lex(s) && Blanks(s[Blanks(s)..]) == 0
  {
    BlanksBlank(s);
    assert s[..Blanks(s)] + s[Blanks(s)..] == s;
    LexBlanks(s[..Blanks(s)], s[Blanks(s)..]);
  }

  /** The tokens that peek accepts with these characters. */
  function Widen(toks: string): string {
    if '>' in toks then toks + "+" else toks
  }

  lemma PeekIff(t: string, toks: string)
    requires Blanks(t) == 0 && forall i :: 0 <= i < |toks| ==> IsSymbol(toks[i])
    ensures t != "" && t[0] in toks <==> Next(Lex(t), Widen(toks))
  {
    assert t[0..] == t;
    assert '+' !in toks;
  }

  lemma {:induction false} WordLengthWord(s: string)
    requires NUL !in s
    ensures forall i {:trigger s[i]} :: 0 <= i < WordLength(s) ==> IsWordChar(s[i])
    ensures WordLength(s) < |s| ==> IsSpace(s[WordLength(s)]) || IsSymbol(s[WordLength(s)])
  {
    if s != "" && !IsSpace(s[0]) && !IsSymbol(s[0]) {
      WordLengthWord(s[1..]);
      assert s[0] in s;
      forall i | 0 < i < WordLength(s) ensures IsWordChar(s[i]) {
        assert s[1..][i - 1] == s[i];
      }
    }
  }

  /** What gettoken returns for a token. */
  function Kind(t: Tok): char {
    if t.Word? then 'a' else t.c
  }

  /** The first token of a text that starts without blanks, and where it ends. */
  lemma LexStep(t: string, n: nat)
    requires t != "" && Blanks(t) == 0
    requires n == if t[0] == '>' && |t| > 1 && t[1] == '>' then 2 else if IsSymbol(t[0]) then 1 else WordLength(t)
    ensures n <= |t| && Lex(t) != [] && Lex(t)[1..] == Lex(t[n..])
    ensures Lex(t)[0] == if n == 2 && t[0] == '>' then Sym('+') else if IsSymbol(t[0]) then Sym(t[0]) else Word(t[..n])
  {
    assert t[0..] == t;
  }

  /** The same in the buffer. */
  lemma LexAt(s: string, q: nat, eq: nat)
    requires q < |s| && Blanks(s[q..]) == 0
    requires eq == if s[q] == '>' && q + 1 < |s| && s[q + 1] == '>' then q + 2 else if IsSymbol(s[q]) then q + 1 else q + WordLength(s[q..])
    ensures q < eq <= |s| && Lex(s[q..]) != [] && Lex(s[eq..]) == Lex(s[q..])[1..]
    ensures Lex(s[q..])[0] == if eq == q + 2 && s[q] == '>' then Sym('+') else if IsSymbol(s[q]) then Sym(s[q]) else Word(s[q..eq])
  {
    var t := s[q..];
    LexStep(t, eq - q);
    assert t[eq - q..] == s[eq..] && t[..eq - q] == s[q..eq];
  }

  /** The parser's answer is the grammar's. */
  ghost predicate Agrees(s: string, r: Res, p: Parse, now: seq<Tok>) {
    match r
    case Got(c) => p.Ok? && View(s, c) == p.t && p.rest == now && SpansOk(s, c)
    case Panicked(msg) => p == Panic(msg)
  }

  /** No token is left exactly when only blanks are. */
  lemma EndIff(t: string)
    ensures Lex(t) == [] <==> Blanks(t) == |t|
  {
  }

  class Parser {
    const s: string
    var ps: nat

    constructor (s: string)
      ensures this.s == s && ps == 0
    {
      this.s, ps := s, 0;
    }

    ghost predicate Valid()
      reads this
    {
      ps <= |s| && NUL !in s
    }

    ghost function Toks(): seq<Tok>
      requires Valid()
      reads this
    {
      Lex(s[ps..])
    }

    method SkipBlanks(p: nat) returns (r: nat)
      requires p <= |s|
      ensures r == p + Blanks(s[p..])
    {
      r := p;
      while r < |s| && IsSpace(s[r])
        invariant p <= r <= |s| && r + Blanks(s[r..]) == p + Blanks(s[p..])
      {
        assert s[r..][1..] == s[r + 1..];
        r := r + 1;
      }
    }

    /** The start of the next token. */
    method SkipTo(p: nat) returns (r: nat)
      requires p <= |s|
      ensures p <= r <= |s| && Lex(s[r..]) == Lex(s[p..]) && Blanks(s[r..]) == 0
    {
      LexSkip(s[p..]);
      r := SkipBlanks(p);
      assert s[p..][r - p..] == s[r..];
    }

    method SkipWord(p: nat) returns (r: nat)
      requires p <= |s|
      ensures r == p + WordLength(s[p..])
    {
      r := p;
      while r < |s| && !IsSpace(s[r]) && !IsSymbol(s[r])
        invariant p <= r <= |s| && r + WordLength(s[r..]) == p + WordLength(s[p..])
      {
        assert s[r..][1..] == s[r + 1..];
        r := r + 1;
      }
    }

    method Peek(toks: string) returns (r: bool)
      requires Valid() && forall i :: 0 <= i < |toks| ==> IsSymbol(toks[i])
      modifies this
      ensures Valid() && Toks() == old(Toks()) && Blanks(s[ps..]) == 0 && (r <==> Next(Toks(), Widen(toks)))
    {
      ps := SkipTo(ps);
      PeekIff(s[ps..], toks);
      r := ps < |s| && s[ps] in toks;
    }

    /** A word in the buffer is a span. */
    lemma WordSpan(q: nat, eq: nat)
      requires Valid() && q <= |s| && eq == q + WordLength(s[q..]) && q < eq
      ensures SpanOk(s, Span(q, eq)) && SpanText(s, Span(q, eq)) == s[q..eq]
    {
      var t := s[q..];
      forall c | c in t ensures c in s {
      }
      WordLengthWord(t);
      forall i | q <= i < eq ensures IsWordChar(s[i]) {
        assert s[i] == t[i - q];
      }
      assert eq < |s| ==> t[eq - q] == s[eq];
    }

    /** Where a token that starts at q ends. */
    method TokenEnd(q: nat) returns (kind: char, eq: nat)
      requires Valid() && q < |s| && Blanks(s[q..]) == 0
      ensures q < eq <= |s| && Lex(s[q..]) != [] && Lex(s[eq..]) == Lex(s[q..])[1..] && kind == Kind(Lex(s[q..])[0])
      ensures Lex(s[q..])[0].Word? ==> SpanOk(s, Span(q, eq)) && SpanText(s, Span(q, eq)) == Lex(s[q..])[0].w
      ensures Lex(s[q..])[0].Sym? ==> kind != 'a'
    {
      if s[q] == '>' {
        kind, eq := '>', q + 1;
        if eq < |s| && s[eq] == '>' {
          kind, eq := '+', eq + 1;
        }
      } else if IsSymbol(s[q]) {
        kind, eq := s[q], q + 1;
      } else {
        kind := 'a';
        eq := SkipWord(q);
        WordSpan(q, eq);
      }
      LexAt(s, q, eq);
    }

    method GetToken() returns (kind: char, q: nat, eq: nat)
      requires Valid()
      modifies this
      ensures Valid() && (old(Toks()) == [] ==> kind == NUL && Toks() == [])
      ensures old(Toks()) != [] ==> Toks() == old(Toks())[1..] && kind == Kind(old(Toks())[0]) && (kind == 'a' <==> old(Toks())[0].Word?)
      ensures old(Toks()) != [] && kind == 'a' ==> SpanOk(s, Span(q, eq)) && SpanText(s, Span(q, eq)) == old(Toks())[0].w
    {
      q := SkipTo(ps);
      if q == |s| {
        kind, eq := NUL, q;
      } else {
        kind, eq := TokenEnd(q);
      }
      ps := SkipTo(eq);
    }

    method ParseRedirs(c: Cmd) returns (r: Res)
      requires Valid() && SpansOk(s, c)
      modifies this
      ensures Valid() && Agrees(s, r, Redirs(View(s, c), old(Toks())), Toks())
    {
      var cmd := c;
      var more := Peek("<>");
      while more
        invariant Valid() && SpansOk(s, cmd) && Redirs(View(s, cmd), Toks()) == Redirs(View(s, c), old(Toks()))
        invariant more <==> Next(Toks(), "<>+")
        decreases |Toks()|
      {
        ghost var ts := Toks();
        var kind, _, _ := GetToken();
        var word, q, eq := GetToken();
        if word != 'a' {
          return Panicked("missing file for redirection");
        }
        cmd := RedirCmd(cmd, Span(q, eq), ModeOf(kind));
        assert ts[1..][1..] == ts[2..];
        more := Peek("<>");
      }
      return Got(cmd);
    }

    /** One argument of parseexec's loop, and the redirections after it. */
    method ParseArg(c: Cmd, argc: nat) returns (r: Res, more: bool)
      requires Valid() && SpansOk(s, c) && !Next(Toks(), "|)&;")
      modifies this
      ensures Valid() && (more <==> r.Got? && old(Toks()) != [])
      ensures r.Panicked? ==> Args(View(s, c), argc, old(Toks())) == Panic(r.msg)
      ensures r.Got? && !more ==> r.c == c && Toks() == []
      ensures more ==> SpansOk(s, r.c) && |Toks()| < |old(Toks())| && Args(View(s, c), argc, old(Toks())) == Args(View(s, r.c), argc + 1, Toks())
    {
      var kind, q, eq := GetToken();
      if kind == NUL {
        return Got(c), false;
      }
      if kind != 'a' {
        return Panicked("syntax"), false;
      }
      AddSpanView(s, c, Span(q, eq));
      if argc + 1 >= MAXARGS {
        return Panicked("too many args"), false;
      }
      r := ParseRedirs(AddSpan(c, Span(q, eq)));
      more := r.Got?;
    }

    /** The loop of parseexec over arguments. */
    method ParseArgs(c: Cmd) returns (r: Res)
      requires Valid() && SpansOk(s, c)
      modifies this
      ensures Valid() && Agrees(s, r, Args(View(s, c), 0, old(Toks())), Toks())
    {
      r := Got(c);
      var argc := 0;
      ghost var goal := Args(View(s, c), 0, Toks());
      var ends := Peek("|)&;");
      while !ends
        invariant Valid() && r.Got? && SpansOk(s, r.c) && Args(View(s, r.c), argc, Toks()) == goal
        invariant ends ==> Agrees(s, r, goal, Toks())
        invariant !ends ==> !Next(Toks(), "|)&;")
        decreases !ends, |Toks()|
      {
        var more;
        r, more := ParseArg(r.c, argc);
        if r.Panicked? {
          return;
        }
        argc := argc + 1;
        ends := true;
        if more {
          ends := Peek("|)&;");
        }
      }
    }

    method ParseExec() returns (r: Res)
      requires Valid()
      modifies this
      ensures Valid() && Agrees(s, r, Simple(old(Toks())), Toks())
      decreases |Toks()|, 1
    {
      var block := Peek("(");
      if block {
        r := ParseBlock();
        return;
      }
      assert View(s, ExecCmd([])) == Exec([]);
      r := ParseRedirs(ExecCmd([]));
      if r.Got? {
        r := ParseArgs(r.c);
      }
    }

    method ParseBlock() returns (r: Res)
      requires Valid() && Next(Toks(), "(")
      modifies this
      ensures Valid() && Agrees(s, r, Block(old(Toks())), Toks())
      decreases |Toks()|, 0
    {
      var kind, q, eq := GetToken();
      r := ParseLine();
      if r.Panicked? {
        return;
      }
      var closed := Peek(")");
      if !closed {
        return Panicked("syntax - missing )");
      }
      kind, q, eq := GetToken();
      r := ParseRedirs(r.c);
    }

    method ParsePipe() returns (r: Res)
      requires Valid()
      modifies this
      ensures Valid() && Agrees(s, r, Pipeline(old(Toks())), Toks())
      decreases |Toks()|, 2
    {
      r := ParseExec();
      if r.Panicked? {
        return;
      }
      var bar := Peek("|");
      if bar {
        var _, _, _ := GetToken();
        var right := ParsePipe();
        r := if right.Panicked? then right else Got(PipeCmd(r.c, right.c));
      }
    }

    method ParseBacks(c: Cmd) returns (cmd: Cmd)
      requires Valid() && SpansOk(s, c)
      modifies this
      ensures Valid() && Agrees(s, Got(cmd), Backs(View(s, c), old(Toks())), Toks())
    {
      cmd := c;
      var more := Peek("&");
      while more
        invariant Valid() && SpansOk(s, cmd) && Backs(View(s, cmd), Toks()) == Backs(View(s, c), old(Toks()))
        invariant more <==> Next(Toks(), "&")
        decreases |Toks()|
      {
        var _, _, _ := GetToken();
        cmd := BackCmd(cmd);
        more := Peek("&");
      }
    }

    method ParseLine() returns (r: Res)
      requires Valid()
      modifies this
      ensures Valid() && Agrees(s, r, Line(old(Toks())), Toks())
      decreases |Toks()|, 3
    {
      r := ParsePipe();
      if r.Panicked? {
        return;
      }
      var cmd := ParseBacks(r.c);
      r := Got(cmd);
      var semi := Peek(";");
      if semi {
        var _, _, _ := GetToken();
        var right := ParseLine();
        r := if right.Panicked? then right else Got(ListCmd(cmd, right.c));
      }
    }

    /** parsecmd, up to nulterminate. */
    method ParseCmd() returns (r: Res)
      requires Valid()
      modifies this
      ensures Agrees(s, r, Command(old(Toks())), [])
    {
      r := ParseLine();
      if r.Got? {
        var _ := Peek("");
        EndIff(s[ps..]);
        if ps != |s| {
          r := Panicked("syntax");
        }
      }
    }
  }

  // ---------------------------------------------------------------- nulterminate

  /** Where the strings of a command end. */
  function Ends(c: Cmd): set<nat> {
    match c
    case ExecCmd(argv) => set i | 0 <= i < |argv| :: argv[i].eq
    case RedirCmd(cmd, file, _) => Ends(cmd) + {file.eq}
    case PipeCmd(l, r) => Ends(l) + Ends(r)
    case ListCmd(l, r) => Ends(l) + Ends(r)
    case BackCmd(cmd) => Ends(cmd)
  }

  /** The string at q, as C reads it. */
  ghost function CString(b: string, q: nat): string
    decreases |b| - q
  {
    if q >= |b| || b[q] == NUL then "" else [b[q]] + CString(b, q + 1)
  }

  /** A command with its strings as C reads them. */
  ghost function CView(b: string, c: Cmd): Tree {
    match c
    case ExecCmd(argv) => Exec(seq(|argv|, i requires 0 <= i < |argv| => CString(b, argv[i].q)))
    case RedirCmd(cmd, file, mode) => Redir(CView(b, cmd), CString(b, file.q), mode)
    case PipeCmd(l, r) => Pipe(CView(b, l), CView(b, r))
    case ListCmd(l, r) => List(CView(b, l), CView(b, r))
    case BackCmd(cmd) => Back(CView(b, cmd))
  }

  /** The buffer with NULs at the given places. */
  ghost predicate Cut(s: string, b: string, ends: set<nat>) {
    && |b| == |s| + 1 && b[|s|] == NUL
    && (forall i {:trigger b[i]} :: 0 <= i < |s| ==> b[i] == if i in ends then NUL else s[i])
  }

  /** No string of a command ends inside a word. */
  ghost predicate Outside(s: string, ends: set<nat>) {
    forall e {:trigger e in ends} :: e in ends ==> e <= |s| && (e < |s| ==> !IsWordChar(s[e]))
  }

  lemma {:induction false} EndsOutside(s: string, c: Cmd)
    requires SpansOk(s, c)
    ensures Outside(s, Ends(c))
  {
    match c {
      case ExecCmd(argv) =>
      case RedirCmd(cmd, _, _) =>
        EndsOutside(s, cmd);
      case PipeCmd(l, r) =>
        EndsOutside(s, l);
        EndsOutside(s, r);
      case ListCmd(l, r) =>
        EndsOutside(s, l);
        EndsOutside(s, r);
      case BackCmd(cmd) =>
        EndsOutside(s, cmd);
    }
  }

  lemma {:induction false} CStringIs(b: string, q: nat, eq: nat)
    requires q <= eq < |b| && b[eq] == NUL && forall i :: q <= i < eq ==> b[i] != NUL
    ensures CString(b, q) == b[q..eq]
    decreases eq - q
  {
    if q < eq {
      CStringIs(b, q + 1, eq);
    }
  }

  /** A word whose end is cut is read back whole. */
  lemma {:induction false} SpanRead(s: string, b: string, ends: set<nat>, p: Span)
    requires SpanOk(s, p) && Cut(s, b, ends) && Outside(s, ends) && p.eq in ends
    ensures CString(b, p.q) == SpanText(s, p)
  {
    forall i | p.q <= i < p.eq ensures b[i] == s[i] && b[i] != NUL {
      assert IsWordChar(s[i]);
    }
    CStringIs(b, p.q, p.eq);
    assert b[p.q..p.eq] == s[p.q..p.eq];
  }

  /** With every string cut at its end and none cut short, C reads the tree that was parsed. */
  lemma {:induction false} CutView(s: string, b: string, ends: set<nat>, c: Cmd)
    requires SpansOk(s, c) && Cut(s, b, ends) && Outside(s, ends) && Ends(c) <= ends
    ensures CView(b, c) == View(s, c)
  {
    match c {
      case ExecCmd(argv) =>
        forall i | 0 <= i < |argv| ensures CString(b, argv[i].q) == SpanText(s, argv[i]) {
          assert argv[i].eq in Ends(c);
          SpanRead(s, b, ends, argv[i]);
        }
        assert CView(b, c).argv == View(s, c).argv;
      case RedirCmd(cmd, file, _) =>
        assert file.eq in Ends(c);
        SpanRead(s, b, ends, file);
        CutView(s, b, ends, cmd);
      case PipeCmd(l, r) =>
        CutView(s, b, ends, l);
        CutView(s, b, ends, r);
      case ListCmd(l, r) =>
        CutView(s, b, ends, l);
        CutView(s, b, ends, r);
      case BackCmd(cmd) =>
        CutView(s, b, ends, cmd);
    }
  }

  /** NULs at the ends of the strings of c, and nothing else changed. */
  twostate predicate CutAt(a: array<char>, ends: set<nat>)
    reads a
  {
    forall i {:trigger a[i]} :: 0 <= i < a.Length ==> a[i] == if i in ends then NUL else old(a[i])
  }

  method NulTerminate(c: Cmd, a: array<char>, ghost s: string)
    requires SpansOk(s, c) && a.Length == |s| + 1
    modifies a
    ensures CutAt(a, Ends(c))
    decreases c
  {
    match c {
      case ExecCmd(argv) =>
        for i := 0 to |argv|
          invariant CutAt(a, set k | 0 <= k < i :: argv[k].eq)
        {
          assert SpanOk(s, argv[i]);
          a[argv[i].eq] := NUL;
        }
      case RedirCmd(cmd, file, _) =>
        NulTerminate(cmd, a, s);
        a[file.eq] := NUL;
      case PipeCmd(l, r) =>
        NulTerminate(l, a, s);
        NulTerminate(r, a, s);
      case ListCmd(l, r) =>
        NulTerminate(l, a, s);
        NulTerminate(r, a, s);
      case BackCmd(cmd) =>
        NulTerminate(cmd, a, s);
    }
  }

  /** parsecmd: C reads from the buffer exactly the tree that the grammar gives for the line, or it panics as the grammar says. */
  method ParseCommand(s: string, a: array<char>) returns (r: Res)
    requires NUL !in s && a[..] == s + [NUL]
    modifies a
    ensures match r
            case Got(c) => Command(Lex(s)) == Ok(CView(a[..], c), [])
            case Panicked(msg) => Command(Lex(s)) == Panic(msg)
  {
    var p := new Parser(s);
    assert s[0..] == s;
    r := p.ParseCmd();
    if r.Got? {
      NulTerminate(r.c, a, s);
      EndsOutside(s, r.c);
      CutView(s, a[..], Ends(r.c), r.c);
    }
  }
}
