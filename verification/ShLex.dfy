/** Spelling out tokens, with any blanks between them, and reading them back. */
module ShLex {
  import opened ShGrammar
  import opened ShPrint

  predicate AllBlank(g: string) {
    forall i :: 0 <= i < |g| ==> IsSpace(g[i])
  }

  predicate ValidTok(t: Tok) {
    match t
    case Word(w) => ValidWord(w)
    case Sym(c) => IsSymbol(c) || c == '+'
  }

  function TokText(t: Tok): string {
    match t
    case Word(w) => w
    case Sym(c) => if c == '+' then ">>" else [c]
  }

  /** Two tokens that need a blank between them. */
  predicate Clash(a: Tok, b: Tok) {
    (a.Word? && b.Word?) || (a == Sym('>') && b.Sym? && (b.c == '>' || b.c == '+'))
  }

  /** Blanks after each token, at least one where two tokens clash. */
  ghost predicate Spaced(ts: seq<Tok>, gaps: seq<string>) {
    && |gaps| == |ts| && (forall i :: 0 <= i < |ts| ==> ValidTok(ts[i]) && AllBlank(gaps[i]))
    && (forall i {:trigger gaps[i]} :: 0 <= i < |ts| - 1 && Clash(ts[i], ts[i + 1]) ==> gaps[i] != "")
  }

  function Spell(ts: seq<Tok>, gaps: seq<string>): string
    requires |gaps| == |ts|
  {
    if ts == [] then "" else TokText(ts[0]) + (gaps[0] + Spell(ts[1..], gaps[1..]))
  }

  lemma {:induction false} BlanksMore(g: string, s: string)
    requires AllBlank(g)
    ensures Blanks(g + s) == |g| + Blanks(s)
    decreases |g|
  {
    if g == "" {
      assert g + s == s;
    } else {
      assert (g + s)[1..] == g[1..] + s;
      BlanksMore(g[1..], s);
    }
  }

  /** Leading blanks are nothing. */
  lemma LexBlanks(g: string, s: string)
    requires AllBlank(g)
    ensures Lex(g + s) == Lex(s)
  {
    BlanksMore(g, s);
    assert (g + s)[Blanks(g + s)..] == s[Blanks(s)..];
  }

  lemma {:induction false} WordLengthIs(w: string, after: string)
    requires (forall i :: 0 <= i < |w| ==> IsWordChar(w[i])) && (after == "" || IsSpace(after[0]) || IsSymbol(after[0]))
    ensures WordLength(w + after) == |w|
    decreases |w|
  {
    if w == "" {
      assert w + after == after;
    } else {
      assert (w + after)[1..] == w[1..] + after;
      WordLengthIs(w[1..], after);
    }
  }

  /** A token can stand before this text and not run into it. */
  predicate Stops(t: Tok, after: string) {
    after == "" || (if t.Word? then IsSpace(after[0]) || IsSymbol(after[0]) else t == Sym('>') ==> after[0] != '>')
  }

  lemma {:induction false} LexFirst(t: Tok, after: string)
    requires ValidTok(t) && Stops(t, after)
    ensures Lex(TokText(t) + after) == [t] + Lex(after)
  {
    var s := TokText(t) + after;
    assert Blanks(s) == 0 && s[0..] == s;
    match t {
      case Word(w) =>
        WordLengthIs(w, after);
        assert s[..|w|] == w && s[|w|..] == after;
      case Sym(c) =>
        if c == '+' {
          assert s[2..] == after;
        } else {
          assert s[1..] == after;
        }
    }
  }

  /** The first token of a spelled text. */
  lemma {:induction false} SpellStops(t: Tok, ts: seq<Tok>, gap: string, gaps: seq<string>)
    requires ValidTok(t) && AllBlank(gap) && Spaced(ts, gaps) && (ts != [] && Clash(t, ts[0]) ==> gap != "")
    ensures Stops(t, gap + Spell(ts, gaps))
  {
    if gap == "" && ts != [] {
      var s := TokText(ts[0]) + (gaps[0] + Spell(ts[1..], gaps[1..]));
      assert gap + Spell(ts, gaps) == s && s[0] == TokText(ts[0])[0];
    }
  }

  lemma SpacedTail(ts: seq<Tok>, gaps: seq<string>)
    requires Spaced(ts, gaps) && ts != []
    ensures Spaced(ts[1..], gaps[1..]) && ValidTok(ts[0]) && AllBlank(gaps[0]) && (|ts| > 1 && Clash(ts[0], ts[1]) ==> gaps[0] != "")
  {
    forall i | 0 <= i < |ts| - 2 && Clash(ts[1..][i], ts[1..][i + 1]) ensures gaps[1..][i] != "" {
      assert gaps[1..][i] == gaps[i + 1];
    }
  }

  lemma LexSpelled(t: Tok, ts: seq<Tok>, gap: string, gaps: seq<string>)
    requires ValidTok(t) && AllBlank(gap) && Spaced(ts, gaps) && (ts != [] && Clash(t, ts[0]) ==> gap != "")
    ensures Lex(TokText(t) + (gap + Spell(ts, gaps))) == [t] + Lex(Spell(ts, gaps))
  {
    SpellStops(t, ts, gap, gaps);
    LexFirst(t, gap + Spell(ts, gaps));
    LexBlanks(gap, Spell(ts, gaps));
  }


  /** However tokens are spaced, they are read back. */
  lemma {:induction false} LexSpell(ts: seq<Tok>, gaps: seq<string>)
    requires Spaced(ts, gaps)
    ensures Lex(Spell(ts, gaps)) == ts
    decreases |ts|
  {
    if ts != [] {
      var tail, rest := ts[1..], gaps[1..];
      SpacedTail(ts, gaps);
      LexSpell(tail, rest);
      LexSpelled(ts[0], tail, gaps[0], rest);
      assert [ts[0]] + tail == ts;
    }
  }

  /** A command tree, spelled out with any spacing, is parsed back to itself. */
  lemma RoundTrip(t: Tree, lead: string, gaps: seq<string>)
    requires ValidTree(t) && AllBlank(lead) && Spaced(PrintLine(t), gaps)
    ensures Command(Lex(lead + Spell(PrintLine(t), gaps))) == Ok(t, [])
  {
    LexBlanks(lead, Spell(PrintLine(t), gaps));
    LexSpell(PrintLine(t), gaps);
    PrintParse(t);
  }

  // ---------------------------------------------------------------- every tree can be spelled

  ghost predicate AllValid(ts: seq<Tok>) {
    forall i {:trigger ts[i]} :: 0 <= i < |ts| ==> ValidTok(ts[i])
  }

  lemma {:induction false} PrintLineValid(t: Tree)
    requires ValidTree(t)
    ensures AllValid(PrintLine(t))
    decreases t, if t.List? then 0 else 4
  {
    match t {
      case List(l, r) =>
        PrintBacksValid(l);
        PrintLineValid(r);
      case _ =>
        PrintBacksValid(t);
    }
  }

  lemma {:induction false} PrintBacksValid(t: Tree)
    requires ValidTree(t)
    ensures AllValid(PrintBacks(t))
    decreases t, if t.Back? then 0 else 3
  {
    match t {
      case Back(cmd) =>
        PrintBacksValid(cmd);
      case _ =>
        PrintPipeValid(t);
    }
  }

  lemma {:induction false} PrintPipeValid(t: Tree)
    requires ValidTree(t)
    ensures AllValid(PrintPipe(t))
    decreases t, if t.Pipe? then 0 else 2
  {
    match t {
      case Pipe(l, r) =>
        PrintSimpleValid(l);
        PrintPipeValid(r);
      case _ =>
        PrintSimpleValid(t);
    }
  }

  lemma {:induction false} PrintSimpleValid(t: Tree)
    requires ValidTree(t)
    ensures AllValid(PrintSimple(t))
    decreases t, 1
  {
    match t {
      case Exec(argv) =>
      case Redir(cmd, _, _) =>
        PrintSimpleValid(cmd);
      case List(_, _) =>
        PrintLineValid(t);
      case Back(_) =>
        PrintBacksValid(t);
      case Pipe(_, _) =>
        PrintPipeValid(t);
    }
  }

  /** One blank after each token. */
  function OneBlank(n: nat): seq<string> {
    seq(n, _ => " ")
  }

  function PrintText(t: Tree): string {
    Spell(PrintLine(t), OneBlank(|PrintLine(t)|))
  }

  lemma PrintTextParses(t: Tree)
    requires ValidTree(t)
    ensures Command(Lex(PrintText(t))) == Ok(t, [])
  {
    PrintLineValid(t);
    assert "" + PrintText(t) == PrintText(t);
    RoundTrip(t, "", OneBlank(|PrintLine(t)|));
  }
}
