/** Printing a command tree, and parsing it back. */
module ShPrint {
  import opened ShGrammar

  predicate ValidWord(w: string) {
    w != "" && forall i :: 0 <= i < |w| ==> IsWordChar(w[i])
  }

  /** The trees of the language: words free of blanks and symbols, fewer than MAXARGS arguments. */
  predicate ValidTree(t: Tree) {
    match t
    case Exec(argv) => |argv| < MAXARGS && forall i :: 0 <= i < |argv| ==> ValidWord(argv[i])
    case Redir(cmd, file, _) => ValidTree(cmd) && ValidWord(file)
    case Pipe(l, r) => ValidTree(l) && ValidTree(r)
    case List(l, r) => ValidTree(l) && ValidTree(r)
    case Back(cmd) => ValidTree(cmd)
  }

  function ModeSym(m: Mode): Tok {
    match m
    case In => Sym('<')
    case Out => Sym('>')
    case Append => Sym('+')
  }

  function Words(argv: seq<string>): seq<Tok> {
    seq(|argv|, i requires 0 <= i < |argv| => Word(argv[i]))
  }

  // ---------------------------------------------------------------- printing, with parentheses only where they are needed

  function PrintLine(t: Tree): seq<Tok>
    decreases t, if t.List? then 0 else 4
  {
    match t
    case List(l, r) => PrintBacks(l) + [Sym(';')] + PrintLine(r)
    case _ => PrintBacks(t)
  }

  function PrintBacks(t: Tree): seq<Tok>
    decreases t, if t.Back? then 0 else 3
  {
    match t
    case Back(cmd) => PrintBacks(cmd) + [Sym('&')]
    case _ => PrintPipe(t)
  }

  function PrintPipe(t: Tree): seq<Tok>
    decreases t, if t.Pipe? then 0 else 2
  {
    match t
    case Pipe(l, r) => PrintSimple(l) + [Sym('|')] + PrintPipe(r)
    case _ => PrintSimple(t)
  }

  function PrintSimple(t: Tree): seq<Tok>
    decreases t, 1
  {
    match t
    case Exec(argv) => Words(argv)
    case Redir(cmd, file, mode) => PrintSimple(cmd) + [ModeSym(mode), Word(file)]
    case List(_, _) => [Sym('(')] + PrintLine(t) + [Sym(')')]
    case Back(_) => [Sym('(')] + PrintBacks(t) + [Sym(')')]
    case Pipe(_, _) => [Sym('(')] + PrintPipe(t) + [Sym(')')]
  }

  // ---------------------------------------------------------------- parsing back

  /** The end of the tokens, or one of the symbols. */
  predicate Follows(ts: seq<Tok>, symbols: string) {
    ts == [] || Next(ts, symbols)
  }

  /** Redirections, in the order they are written. */
  function RedirToks(rs: seq<(Mode, string)>): seq<Tok> {
    if rs == [] then [] else [ModeSym(rs[0].0), Word(rs[0].1)] + RedirToks(rs[1..])
  }

  function Wrap(t: Tree, rs: seq<(Mode, string)>): Tree
    decreases |rs|
  {
    if rs == [] then t else Wrap(Redir(t, rs[0].1, rs[0].0), rs[1..])
  }

  lemma {:induction false} RedirsParse(t: Tree, rs: seq<(Mode, string)>, rest: seq<Tok>)
    requires Follows(rest, "|)&;")
    ensures Redirs(t, RedirToks(rs) + rest) == Ok(Wrap(t, rs), rest)
    decreases |rs|
  {
    if rs == [] {
      assert [] + rest == rest;
    } else {
      var more := RedirToks(rs[1..]) + rest;
      var ts := [ModeSym(rs[0].0), Word(rs[0].1)] + more;
      assert RedirToks(rs) + rest == ts && ts[2..] == more;
      RedirsParse(Redir(t, rs[0].1, rs[0].0), rs[1..], rest);
    }
  }

  lemma {:induction false} ArgsParse(done: seq<string>, ws: seq<string>, rs: seq<(Mode, string)>, rest: seq<Tok>)
    requires ws != [] && |done| + |ws| < MAXARGS && Follows(rest, "|)&;")
    ensures Args(Exec(done), |done|, Words(ws) + (RedirToks(rs) + rest)) == Ok(Wrap(Exec(done + ws), rs), rest)
    decreases |ws|
  {
    var tail := RedirToks(rs) + rest;
    var ts := Words(ws) + tail;
    var now := done + [ws[0]];
    assert ts[0] == Word(ws[0]) && ts[1..] == Words(ws[1..]) + tail;
    if |ws| == 1 {
      assert Words(ws[1..]) + tail == tail && now == done + ws;
      RedirsParse(Exec(now), rs, rest);
    } else {
      assert ts[1] == Word(ws[1]);
      ArgsParse(now, ws[1..], rs, rest);
      assert now + ws[1..] == done + ws;
    }
  }

  lemma {:induction false} ExecParses(argv: seq<string>, rs: seq<(Mode, string)>, rest: seq<Tok>)
    requires |argv| < MAXARGS && Follows(rest, "|)&;")
    ensures Simple(Words(argv) + (RedirToks(rs) + rest)) == Ok(Wrap(Exec(argv), rs), rest)
  {
    var tail := RedirToks(rs) + rest;
    if argv == [] {
      assert Words(argv) + tail == tail;
      RedirsParse(Exec([]), rs, rest);
      assert rs == [] ==> tail == rest;
    } else {
      assert (Words(argv) + tail)[0] == Word(argv[0]) && [] + argv == argv;
      ArgsParse([], argv, rs, rest);
    }
  }

  /** A block in parentheses, and the redirections after it. */
  lemma {:induction false} BlockParses(t: Tree, inner: seq<Tok>, rs: seq<(Mode, string)>, rest: seq<Tok>)
    requires Follows(rest, "|)&;") && Line(inner + ([Sym(')')] + (RedirToks(rs) + rest))) == Ok(t, [Sym(')')] + (RedirToks(rs) + rest))
    ensures Simple([Sym('(')] + inner + [Sym(')')] + (RedirToks(rs) + rest)) == Ok(Wrap(t, rs), rest)
  {
    var tail := RedirToks(rs) + rest;
    var ts := [Sym('(')] + inner + [Sym(')')] + tail;
    assert ts[1..] == inner + ([Sym(')')] + tail);
    assert ([Sym(')')] + tail)[1..] == tail;
    RedirsParse(t, rs, rest);
  }

  lemma {:induction false} SimpleParses(t: Tree, rs: seq<(Mode, string)>, rest: seq<Tok>)
    requires ValidTree(t) && Follows(rest, "|)&;")
    ensures Simple(PrintSimple(t) + (RedirToks(rs) + rest)) == Ok(Wrap(t, rs), rest)
    decreases t, 1
  {
    var close := [Sym(')')] + (RedirToks(rs) + rest);
    match t {
      case Exec(argv) =>
        ExecParses(argv, rs, rest);
      case Redir(cmd, file, mode) =>
        var more := [(mode, file)] + rs;
        assert more[1..] == rs;
        assert PrintSimple(t) + (RedirToks(rs) + rest) == PrintSimple(cmd) + (RedirToks(more) + rest);
        SimpleParses(cmd, more, rest);
      case List(_, _) =>
        LineParses(t, close);
        BlockParses(t, PrintLine(t), rs, rest);
      case Back(_) =>
        assert Ampersands(0) + close == close;
        BacksParse(t, 0, close);
        BlockParses(t, PrintBacks(t), rs, rest);
      case Pipe(_, _) =>
        PipeParses(t, close);
        BlockParses(t, PrintPipe(t), rs, rest);
    }
  }

  lemma {:induction false} PipeParses(t: Tree, rest: seq<Tok>)
    requires ValidTree(t) && Follows(rest, ")&;")
    ensures Pipeline(PrintPipe(t) + rest) == Ok(t, rest)
    decreases t, if t.Pipe? then 0 else 2
  {
    match t {
      case Pipe(l, r) =>
        var bar := [Sym('|')] + (PrintPipe(r) + rest);
        assert PrintPipe(t) + rest == PrintSimple(l) + bar && RedirToks([]) + bar == bar;
        SimpleParses(l, [], bar);
        assert bar[1..] == PrintPipe(r) + rest;
        PipeParses(r, rest);
      case _ =>
        assert RedirToks([]) + rest == rest;
        SimpleParses(t, [], rest);
    }
  }

  /** Line parsing of the part before ';'. */
  lemma {:induction false} BacksParse(t: Tree, n: nat, rest: seq<Tok>)
    requires ValidTree(t) && Follows(rest, ");")
    ensures var ts := PrintBacks(t) + (Ampersands(n) + rest);
            Pipeline(ts).Ok? && Backs(Pipeline(ts).t, Pipeline(ts).rest) == Ok(BackTimes(t, n), rest)
    decreases t, if t.Back? then 0 else 3
  {
    match t {
      case Back(cmd) =>
        assert PrintBacks(t) + (Ampersands(n) + rest) == PrintBacks(cmd) + (Ampersands(n + 1) + rest);
        BacksParse(cmd, n + 1, rest);
      case _ =>
        PipeParses(t, Ampersands(n) + rest);
        BacksCount(t, n, rest);
    }
  }

  function Ampersands(n: nat): seq<Tok> {
    if n == 0 then [] else [Sym('&')] + Ampersands(n - 1)
  }

  function BackTimes(t: Tree, n: nat): Tree
    decreases n
  {
    if n == 0 then t else BackTimes(Back(t), n - 1)
  }

  lemma {:induction false} BacksCount(t: Tree, n: nat, rest: seq<Tok>)
    requires !Next(rest, "&")
    ensures Backs(t, Ampersands(n) + rest) == Ok(BackTimes(t, n), rest)
    decreases n
  {
    if n == 0 {
      assert Ampersands(0) + rest == rest;
    } else {
      assert (Ampersands(n) + rest)[1..] == Ampersands(n - 1) + rest;
      BacksCount(Back(t), n - 1, rest);
    }
  }

  lemma {:induction false} LineParses(t: Tree, rest: seq<Tok>)
    requires ValidTree(t) && Follows(rest, ")")
    ensures Line(PrintLine(t) + rest) == Ok(t, rest)
    decreases t, if t.List? then 0 else 4
  {
    match t {
      case List(l, r) =>
        var semi := [Sym(';')] + (PrintLine(r) + rest);
        assert PrintLine(t) + rest == PrintBacks(l) + semi && Ampersands(0) + semi == semi;
        BacksParse(l, 0, semi);
        assert semi[1..] == PrintLine(r) + rest;
        LineParses(r, rest);
      case _ =>
        assert Ampersands(0) + rest == rest;
        BacksParse(t, 0, rest);
    }
  }

  /** Parsing the printed form of a tree gives the tree back. */
  lemma {:induction false} PrintParse(t: Tree)
    requires ValidTree(t)
    ensures Command(PrintLine(t)) == Ok(t, [])
  {
    assert PrintLine(t) + [] == PrintLine(t);
    LineParses(t, []);
  }

  // ---------------------------------------------------------------- what the parser gives

  ghost predicate ValidToks(ts: seq<Tok>) {
    forall i {:trigger ts[i]} :: 0 <= i < |ts| ==> ts[i].Word? ==> ValidWord(ts[i].w)
  }

  /** A parse gives a tree of the language and leaves tokens it did not touch. */
  ghost predicate ValidParse(r: Parse) {
    r.Ok? ==> ValidTree(r.t) && ValidToks(r.rest)
  }

  /** The command inside redirections has n arguments. */
  predicate HasArgs(t: Tree, n: nat) {
    match t
    case Exec(argv) => |argv| == n
    case Redir(cmd, _, _) => HasArgs(cmd, n)
    case _ => false
  }

  lemma {:induction false} AddArgValid(t: Tree, n: nat, w: string)
    requires ValidTree(t) && HasArgs(t, n) && n + 1 < MAXARGS && ValidWord(w)
    ensures ValidTree(AddArg(t, w)) && HasArgs(AddArg(t, w), n + 1)
  {
    if t.Redir? {
      AddArgValid(t.cmd, n, w);
    }
  }

  lemma {:induction false} RedirsValid(t: Tree, n: nat, ts: seq<Tok>)
    requires ValidTree(t) && ValidToks(ts)
    ensures ValidParse(Redirs(t, ts)) && (HasArgs(t, n) && Redirs(t, ts).Ok? ==> HasArgs(Redirs(t, ts).t, n))
    decreases |ts|
  {
    if Next(ts, "<>+") && |ts| >= 2 && ts[1].Word? {
      RedirsValid(Redir(t, ts[1].w, ModeOf(ts[0].c)), n, ts[2..]);
    }
  }

  lemma {:induction false} ArgsValid(t: Tree, argc: nat, ts: seq<Tok>)
    requires ValidTree(t) && HasArgs(t, argc) && ValidToks(ts)
    ensures ValidParse(Args(t, argc, ts))
    decreases |ts|
  {
    if ts != [] && ts[0].Word? && argc + 1 < MAXARGS {
      AddArgValid(t, argc, ts[0].w);
      RedirsValid(AddArg(t, ts[0].w), argc + 1, ts[1..]);
      var r := Redirs(AddArg(t, ts[0].w), ts[1..]);
      if r.Ok? {
        ArgsValid(r.t, argc + 1, r.rest);
      }
    }
  }

  lemma {:induction false} SimpleValid(ts: seq<Tok>)
    requires ValidToks(ts)
    ensures ValidParse(Simple(ts))
    decreases |ts|, 1
  {
    if Next(ts, "(") {
      LineValid(ts[1..]);
      var r := Line(ts[1..]);
      if r.Ok? && Next(r.rest, ")") {
        RedirsValid(r.t, 0, r.rest[1..]);
      }
    } else {
      RedirsValid(Exec([]), 0, ts);
      var r := Redirs(Exec([]), ts);
      if r.Ok? {
        ArgsValid(r.t, 0, r.rest);
      }
    }
  }

  lemma {:induction false} PipelineValid(ts: seq<Tok>)
    requires ValidToks(ts)
    ensures ValidParse(Pipeline(ts))
    decreases |ts|, 2
  {
    SimpleValid(ts);
    var l := Simple(ts);
    if l.Ok? && Next(l.rest, "|") {
      PipelineValid(l.rest[1..]);
    }
  }

  lemma {:induction false} BacksValid(t: Tree, ts: seq<Tok>)
    requires ValidTree(t) && ValidToks(ts)
    ensures ValidParse(Backs(t, ts))
    decreases |ts|
  {
    if Next(ts, "&") {
      BacksValid(Back(t), ts[1..]);
    }
  }

  lemma {:induction false} LineValid(ts: seq<Tok>)
    requires ValidToks(ts)
    ensures ValidParse(Line(ts))
    decreases |ts|, 3
  {
    PipelineValid(ts);
    var p := Pipeline(ts);
    if p.Ok? {
      BacksValid(p.t, p.rest);
      var l := Backs(p.t, p.rest);
      if Next(l.rest, ";") {
        LineValid(l.rest[1..]);
      }
    }
  }

  /** Whatever the parser accepts, it accepts again, with the same meaning, as it prints it. */
  lemma ParsePrintParse(ts: seq<Tok>)
    requires ValidToks(ts) && Command(ts).Ok?
    ensures ValidTree(Command(ts).t) && Command(PrintLine(Command(ts).t)) == Ok(Command(ts).t, [])
  {
    LineValid(ts);
    PrintParse(Line(ts).t);
  }
}
