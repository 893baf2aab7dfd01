/** The shell's command language (user/sh.c): its tokens, and the grammar that the parser follows. */
module ShGrammar {
  const MAXARGS: nat := 10
  const NUL: char := '\0'

  /** The symbols stand for themselves, and '+' for ">>". */
  datatype Tok = Word(w: string) | Sym(c: char)

  /** O_RDONLY on descriptor 0; O_WRONLY|O_CREATE|O_TRUNC or O_WRONLY|O_CREATE on descriptor 1. */
  datatype Mode = In | Out | Append

  datatype Tree =
    | Exec(argv: seq<string>)
    | Redir(cmd: Tree, file: string, mode: Mode)
    | Pipe(left: Tree, right: Tree)
    | List(left: Tree, right: Tree)
    | Back(cmd: Tree)

  predicate IsSpace(c: char) {
    c == ' ' || c == '\t' || c == '\r' || c == '\n' || c == '\U{0B}'
  }

  predicate IsSymbol(c: char) {
    c == '<' || c == '|' || c == '>' || c == '&' || c == ';' || c == '(' || c == ')'
  }

  predicate IsWordChar(c: char) {
    !IsSpace(c) && !IsSymbol(c) && c != NUL
  }

  // ---------------------------------------------------------------- tokens

  /** How many blanks a string starts with. */
  function Blanks(s: string): (n: nat)
    ensures n <= |s| && (n < |s| ==> !IsSpace(s[n]))
  {
    if s == "" || !IsSpace(s[0]) then 0 else 1 + Blanks(s[1..])
  }

  /** How many characters of a word a string starts with. */
  function WordLength(s: string): (n: nat)
    ensures n <= |s| && (n == 0 ==> s == "" || IsSpace(s[0]) || IsSymbol(s[0]))
  {
    if s == "" || IsSpace(s[0]) || IsSymbol(s[0]) then 0 else 1 + WordLength(s[1..])
  }

  /** The tokens of a string. */
  function Lex(s: string): seq<Tok>
    decreases |s|
  {
    var t := s[Blanks(s)..];
    if t == "" then []
    else if t[0] == '>' && |t| > 1 && t[1] == '>' then [Sym('+')] + Lex(t[2..])
    else if IsSymbol(t[0]) then [Sym(t[0])] + Lex(t[1..])
    else [Word(t[..WordLength(t)])] + Lex(t[WordLength(t)..])
  }

  // ---------------------------------------------------------------- the grammar

  /** A tree and the tokens after it, or a panic. */
  datatype Parse = Ok(t: Tree, rest: seq<Tok>) | Panic(msg: string)

  predicate Next(ts: seq<Tok>, symbols: string) {
    ts != [] && ts[0].Sym? && ts[0].c in symbols
  }

  function ModeOf(c: char): Mode {
    if c == '<' then In else if c == '>' then Out else Append
  }

  /** One more argument for the command inside the redirections. */
  function AddArg(t: Tree, w: string): Tree {
    match t
    case Exec(argv) => Exec(argv + [w])
    case Redir(cmd, file, mode) => Redir(AddArg(cmd, w), file, mode)
    case _ => t
  }

  function Redirs(t: Tree, ts: seq<Tok>): (r: Parse)
    ensures r.Ok? ==> |r.rest| <= |ts|
    decreases |ts|
  {
    if !Next(ts, "<>+") then Ok(t, ts)
    else if |ts| < 2 || !ts[1].Word? then Panic("missing file for redirection")
    else Redirs(Redir(t, ts[1].w, ModeOf(ts[0].c)), ts[2..])
  }

  /** The arguments of a command that has argc so far. */
  function Args(t: Tree, argc: nat, ts: seq<Tok>): (r: Parse)
    ensures r.Ok? ==> |r.rest| <= |ts|
    decreases |ts|
  {
    if ts == [] || Next(ts, "|)&;") then Ok(t, ts)
    else if !ts[0].Word? then Panic("syntax")
    else if argc + 1 >= MAXARGS then Panic("too many args")
    else
      var r := Redirs(AddArg(t, ts[0].w), ts[1..]);
      if r.Panic? then r else Args(r.t, argc + 1, r.rest)
  }

  function Simple(ts: seq<Tok>): (r: Parse)
    ensures r.Ok? ==> |r.rest| <= |ts|
    decreases |ts|, 1
  {
    if Next(ts, "(") then Block(ts)
    else
      var r := Redirs(Exec([]), ts);
      if r.Panic? then r else Args(r.t, 0, r.rest)
  }

  function Block(ts: seq<Tok>): (r: Parse)
    requires Next(ts, "(")
    ensures r.Ok? ==> |r.rest| <= |ts|
    decreases |ts|, 0
  {
    var r := Line(ts[1..]);
    if r.Panic? then r
    else if !Next(r.rest, ")") then Panic("syntax - missing )")
    else Redirs(r.t, r.rest[1..])
  }

  function Pipeline(ts: seq<Tok>): (r: Parse)
    ensures r.Ok? ==> |r.rest| <= |ts|
    decreases |ts|, 2
  {
    var l := Simple(ts);
    if l.Panic? || !Next(l.rest, "|") then l
    else
      var r := Pipeline(l.rest[1..]);
      if r.Panic? then r else Ok(Pipe(l.t, r.t), r.rest)
  }

  function Backs(t: Tree, ts: seq<Tok>): (r: Parse)
    ensures r.Ok? && |r.rest| <= |ts| && !Next(r.rest, "&")
    decreases |ts|
  {
    if Next(ts, "&") then Backs(Back(t), ts[1..]) else Ok(t, ts)
  }

  function Line(ts: seq<Tok>): (r: Parse)
    ensures r.Ok? ==> |r.rest| <= |ts|
    decreases |ts|, 3
  {
    var p := Pipeline(ts);
    if p.Panic? then p
    else
      var l := Backs(p.t, p.rest);
      if !Next(l.rest, ";") then l
      else
        var r := Line(l.rest[1..]);
        if r.Panic? then r else Ok(List(l.t, r.t), r.rest)
  }

  /** A whole command line. */
  function Command(ts: seq<Tok>): Parse {
    var r := Line(ts);
    if r.Ok? && r.rest != [] then Panic("syntax") else r
  }
}
