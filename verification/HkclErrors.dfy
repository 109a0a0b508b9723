/** Which errors lexer and parser report (`lexer.rs`, `parser.rs`): those of the first place where the text, or the
    tokens, cannot go on. */
module HkclErrors {
  import opened Basics
  import opened Wrappers
  import opened HkclLexer
  import opened HkclLayout
  import opened HkclParser
  import opened HkclGrammar

  // ---- strings that do not end ----

  lemma OpenStart(s: string, quote: char) returns (c: char, e: Esc, after: string)
    requires !StringFrom(s, quote).Closed? && s != "" && s != "\\" && (quote == '"' || quote == '\'')
    ensures |after| < |s| && EscOk(c, e, quote) && s == EscText(c, e) + after
    ensures StringFrom(s, quote) == StringFrom(after, quote)
  {
    if s[0] == '\\' {
      c, after := Unescape(s[1]), s[2..];
      e := if s[1] == 'n' || s[1] == 't' || s[1] == 'r' then Letter else Slashed;
    } else {
      c, e, after := s[0], Raw, s[1..];
    }
  }

  /** A string that does not end is spelled legally up to the end of the text, or up to a last backslash. */
  lemma {:induction false} OpenString(s: string, quote: char) returns (text: string, escs: seq<Esc>)
    requires !StringFrom(s, quote).Closed? && (quote == '"' || quote == '\'')
    ensures EscsOk(text, escs, quote)
    ensures s == StringText(text, escs) + if StringFrom(s, quote).NoEscape? then "\\" else ""
    decreases |s|
  {
    if s == "" || s == "\\" {
      text, escs := "", [];
      assert StringText("", []) + s == s;
    } else {
      var c, e, after := OpenStart(s, quote);
      var more, es := OpenString(after, quote);
      text, escs := [c] + more, [e] + es;
      StringTextCons(c, e, more, es, if StringFrom(s, quote).NoEscape? then "\\" else "");
    }
  }

  // ---- the first failure ----

  /** Some token begins like this. */
  predicate BeginsToken(s: string)
    requires s != ""
  {
    || LetterCode(s[0]) || DigitCode(s[0]) || s[0] == '"' || s[0] == '\''
    || s[0] == '(' || s[0] == ')' || s[0] == '{' || s[0] == '}' || s[0] == ';' || s[0] == ':' || s[0] == ','
    || (s[0] == '=' && |s| > 1 && s[1] == '>')
  }

  lemma UnreadToken(s: string)
    requires s != "" && !TokenFrom(s).Got?
    ensures TokenFrom(s).Unexpected? ==> TokenFrom(s) == Unexpected(s[0], |s|) && !BeginsToken(s)
    ensures TokenFrom(s).Unclosed? ==> (s[0] == '"' || s[0] == '\'') && !StringFrom(s[1..], s[0]).Closed?
    ensures TokenFrom(s).Unclosed? ==> (TokenFrom(s).escape <==> StringFrom(s[1..], s[0]).NoEscape?)
  {
  }

  lemma Widened(gap: seq<Piece>, l: Lexeme, more: seq<Lexeme>, tail: Tail, rest: string)
    requires SpellOk(l) && forall i :: 0 <= i < |more| ==> SpellOk(more[i])
    ensures forall i :: 0 <= i < |[l.(gap := gap)] + more| ==> SpellOk(([l.(gap := gap)] + more)[i])
    ensures GapText(gap) + (Spell(l) + (Render(more, tail) + rest)) == Render([l.(gap := gap)] + more, tail) + rest
  {
    RegapOk(l, gap);
    hide Spell, Render, GapText, SpellOk;
    RenderCons(l.(gap := gap), more, tail);
    Assoc(GapText(gap), Spell(l) + Render(more, tail), rest);
    Assoc(Spell(l), Render(more, tail), rest);
  }

  lemma FollowsPart(t: Token, x: string, rest: string)
    requires Follows(t, x + rest)
    ensures Follows(t, x)
  {
    if x != "" { assert (x + rest)[0] == x[0]; }
  }

  /** Text that the lexer refuses begins with a legal text, behind which stands what is no token. */
  lemma {:induction false} FirstFailure(s: string) returns (ls: seq<Lexeme>, gap: seq<Piece>, rest: string)
    requires LexFrom(s).Failed?
    ensures TextOk(ls, Tail(gap, None)) && s == Render(ls, Tail(gap, None)) + rest
    ensures rest != "" && !TokenFrom(rest).Got? && LexFrom(s).read == TokenFrom(rest)
    ensures !PieceOk(Blank(rest[0])) && rest[0] != '#'
    decreases |s|
  {
    var g, open := LayoutSplits(s);
    var t := SkipLayout(s);
    LayoutPassed(s);
    if !TokenFrom(t).Got? {
      ls, gap, rest := [], g, t;
      assert GapText(g) + "" == GapText(g);
    } else {
      var l := TokenSplits(t);
      var more;
      more, gap, rest := FirstFailure(TokenFrom(t).rest);
      ls := [l.(gap := g)] + more;
      hide TextOk, Render, Spell, SpellOk, TokenFrom, Follows;
      TextParts(more, Tail(gap, None));
      FollowsPart(l.tok, Render(more, Tail(gap, None)), rest);
      GapNeeded(l.tok, more, Tail(gap, None));
      RegapOk(l, g);
      TextOkCons(l.(gap := g), more, Tail(gap, None));
      Widened(g, l, more, Tail(gap, None), rest);
    }
  }

  lemma RegapOk(l: Lexeme, gap: seq<Piece>)
    requires SpellOk(l)
    ensures SpellOk(l.(gap := gap)) && Spell(l.(gap := gap)) == Spell(l)
  {
  }

  lemma TextParts(ls: seq<Lexeme>, tail: Tail)
    requires TextOk(ls, tail)
    ensures forall i :: 0 <= i < |ls| ==> SpellOk(ls[i])
  {
  }

  lemma {:induction false} LayoutPassed(s: string)
    ensures SkipLayout(s) != "" ==> !PieceOk(Blank(SkipLayout(s)[0])) && SkipLayout(s)[0] != '#'
    decreases |s|
  {
    if s != "" {
      if IsWhitespace(s[0]) { LayoutPassed(s[1..]); } else if s[0] == '#' { LayoutPassed(SkipLine(s)); }
    }
  }

  lemma TextOfAll(source: string, written: string, rest: string)
    requires source == written + rest
    ensures source[..|source| - |rest|] == written
  {
  }

  /** The error of a refused source: what stands before `rest` is a legal text for some tokens, so nothing failed
      earlier, and `rest` begins with what is reported. An unexpected character begins no token, comment or layout, and
      its line is one more than the line ends before it; a string without end is legal to the end of the source, or to
      a last backslash. */
  lemma RefusedExactly(source: string) returns (ls: seq<Lexeme>, gap: seq<Piece>, rest: string, text: string, escs: seq<Esc>)
    requires Lex(source).Err?
    ensures TextOk(ls, Tail(gap, None)) && source == Render(ls, Tail(gap, None)) + rest && rest != ""
    ensures match Lex(source).error
            case UnexpectedCharacter(ch, line) =>
              && ch == rest[0] && !BeginsToken(rest) && ch != '#' && !PieceOk(Blank(ch))
              && line == 1 + multiset(Render(ls, Tail(gap, None)))['\n']
            case UnterminatedString =>
              (rest[0] == '"' || rest[0] == '\'') && EscsOk(text, escs, rest[0]) && rest[1..] == StringText(text, escs)
            case UnterminatedEscape =>
              (rest[0] == '"' || rest[0] == '\'') && EscsOk(text, escs, rest[0]) && rest[1..] == StringText(text, escs) + "\\"
  {
    ls, gap, rest := FirstFailure(source);
    text, escs := "", [];
    UnreadToken(rest);
    var written := Render(ls, Tail(gap, None));
    hide TokenFrom, Render, TextOk, StringFrom, StringText, EscsOk, Newlines;
    if TokenFrom(rest).Unclosed? {
      text, escs := OpenString(rest[1..], rest[0]);
      assert StringText(text, escs) + "" == StringText(text, escs);
    } else {
      TextOfAll(source, written, rest);
      NewlinesCount(written);
    }
  }

  // ---- the parser ----

  /** The error says that `want` was to come where `got` stands: which token was expected, or that a name, a parameter,
      an action or a requirement was. */
  ghost predicate Blames(e: ParseError, want: Token, got: Token) {
    match e
    case Expected(w, g) => w == want && g == got && !SameKind(got, want)
    case NoName => want.Ident? && !got.Ident?
    case NoRequirement => want.Ident? && !got.Ident?
    case NoParam => want.Ident? && !got.Ident? && !got.Str?
    case NoAction => want == Reject && got != Reject && got != Accept
  }

  /** What an error that names no token stands behind. */
  ghost predicate Behind(e: ParseError, done: seq<Token>) {
    e.Expected? || (done != [] && done[|done| - 1] ==
      if e == NoName then LParen else if e == NoParam then RParen else if e == NoAction then Otherwise else Require)
  }

  /** The tokens divide into `done` and `left`; `want` in place of the first one left can be completed to `whole`. */
  ghost predicate StuckAt(ts: seq<Token>, done: seq<Token>, left: seq<Token>, want: Token, whole: seq<Token>, e: ParseError) {
    ts == done + left && done + [want] <= whole && Blames(e, want, Cur(left)) && Behind(e, done)
  }

  lemma StuckBehind(ts: seq<Token>, before: seq<Token>, mid: seq<Token>, done: seq<Token>, left: seq<Token>, want: Token,
                    whole: seq<Token>, e: ParseError, all: seq<Token>)
    requires ts == before + mid && StuckAt(mid, done, left, want, whole, e) && before + whole <= all
    ensures StuckAt(ts, before + done, left, want, all, e)
  {
    Assoc(before, done, left);
    Assoc(before, done, [want]);
    assert before + (done + [want]) <= before + whole;
    assert done != [] ==> (before + done)[|before + done| - 1] == done[|done| - 1];
  }

  lemma StuckReq(ts: seq<Token>) returns (done: seq<Token>, left: seq<Token>, want: Token, r: ReqTree)
    requires OneReqFrom(ts).Bad?
    ensures StuckAt(ts, done, left, want, ReqYield(r), OneReqFrom(ts).error)
  {
    if Cur(ts) != Require {
      done, left, want, r := [], ts, Require, ReqTree("", false);
    } else if !Cur(ts[1..]).Ident? {
      done, left, want, r := [Require], ts[1..], Ident(""), ReqTree("", false);
    } else {
      var name := ts[1].name;
      if Cur(ts[2..]) != LParen {
        done, left, want, r := ts[..2], ts[2..], Semicolon, ReqTree(name, false);
      } else if Cur(ts[3..]) != RParen {
        done, left, want, r := ts[..3], ts[3..], RParen, ReqTree(name, true);
      } else {
        done, left, want, r := ts[..4], ts[4..], Semicolon, ReqTree(name, true);
      }
    }
  }

  lemma {:induction false} StuckReqs(ts: seq<Token>) returns (done: seq<Token>, left: seq<Token>, want: Token, rs: seq<ReqTree>)
    requires ReqsFrom(ts).Bad?
    ensures StuckAt(ts, done, left, want, ReqsYield(rs), ReqsFrom(ts).error)
    decreases |ts|
  {
    hide OneReqFrom, StuckAt, ReqYield;
    if OneReqFrom(ts).Bad? {
      var r;
      done, left, want, r := StuckReq(ts);
      rs := [r];
      assert ReqsYield(rs) == ReqYield(r) + [];
      StuckBehind(ts, [], ts, done, left, want, ReqYield(r), OneReqFrom(ts).error, ReqsYield(rs));
      assert [] + done == done;
    } else {
      var req, mid := OneReqFrom(ts).value, OneReqFrom(ts).rest;
      ReqDerived(ts);
      var more;
      done, left, want, more := StuckReqs(mid);
      rs := [req] + more;
      assert ReqsYield(rs) == ReqYield(req) + ReqsYield(more);
      StuckBehind(ts, ReqYield(req), mid, done, left, want, ReqsYield(more), ReqsFrom(ts).error, ReqsYield(rs));
      done := ReqYield(req) + done;
    }
  }

  lemma StuckOtherwise(ts: seq<Token>) returns (done: seq<Token>, left: seq<Token>, want: Token, o: Option<Action>)
    requires OtherwiseFrom(ts).Bad?
    ensures StuckAt(ts, done, left, want, OtherwiseYield(o), OtherwiseFrom(ts).error)
  {
    if Cur(ts[1..]) != Reject && Cur(ts[1..]) != Accept {
      done, left, want, o := [Otherwise], ts[1..], Reject, Some(RejectIt);
    } else {
      done, left, want, o := ts[..2], ts[2..], Semicolon, Some(if ts[1] == Reject then RejectIt else AcceptIt);
    }
  }

  lemma StuckName(ts: seq<Token>) returns (done: seq<Token>, left: seq<Token>, want: Token, name: string)
    requires NameFrom(ts).Bad?
    ensures StuckAt(ts, done, left, want, [Validity, LParen, Ident(name), RParen], NameFrom(ts).error)
  {
    name := "";
    if Cur(ts) != Validity {
      done, left, want := [], ts, Validity;
    } else if Cur(ts[1..]) != LParen {
      done, left, want := ts[..1], ts[1..], LParen;
    } else if !Cur(ts[2..]).Ident? {
      done, left, want := ts[..2], ts[2..], Ident("");
    } else {
      done, left, want, name := ts[..3], ts[3..], RParen, ts[2].name;
    }
  }

  /** The parameter and the brace behind `)`. */
  lemma StuckParam(ts: seq<Token>, name: string) returns (done: seq<Token>, left: seq<Token>, want: Token, param: string, quoted: bool)
    requires ParamFrom(ts).Bad?
    ensures var front := [Validity, LParen, Ident(name), RParen];
            StuckAt(front + ts, done, left, want, HeadYield(name, param, quoted), ParamFrom(ts).error)
  {
    var front := [Validity, LParen, Ident(name), RParen];
    param, quoted := "", false;
    if !Cur(ts).Ident? && !Cur(ts).Str? {
      done, left, want := front, ts, Ident("");
    } else {
      quoted := ts[0].Str?;
      param := if quoted then ts[0].text else ts[0].name;
      done, left, want := front + [ts[0]], ts[1..], LBrace;
      assert front + ts == done + left;
    }
  }

  lemma StuckHead(ts: seq<Token>) returns (done: seq<Token>, left: seq<Token>, want: Token, h: (string, string, bool))
    requires HeadFrom(ts).Bad?
    ensures StuckAt(ts, done, left, want, HeadYield(h.0, h.1, h.2), HeadFrom(ts).error)
  {
    hide NameFrom, ParamFrom, StuckAt;
    if NameFrom(ts).Bad? {
      var name;
      done, left, want, name := StuckName(ts);
      h := (name, "", false);
      var front := [Validity, LParen, Ident(name), RParen];
      assert [] + front <= HeadYield(name, "", false);
      StuckBehind(ts, [], ts, done, left, want, front, NameFrom(ts).error, HeadYield(name, "", false));
      assert [] + done == done;
    } else {
      var name := NameFrom(ts).value;
      NameDerived(ts);
      var param, quoted;
      done, left, want, param, quoted := StuckParam(NameFrom(ts).rest, name);
      h := (name, param, quoted);
    }
  }

  lemma PartsOfTree(t: Tree)
    ensures var head, reqs, other := HeadYield(t.name, t.param, t.quoted), ReqsYield(t.reqs), OtherwiseYield(t.otherwise_);
            && [] + head <= TreeYield(t) && head + reqs <= TreeYield(t) && (head + reqs) + other <= TreeYield(t)
            && ((head + reqs) + other) + [RBrace] == TreeYield(t)
  {
    var head, reqs, other := HeadYield(t.name, t.param, t.quoted), ReqsYield(t.reqs), OtherwiseYield(t.otherwise_);
    hide HeadYield, ReqsYield, OtherwiseYield;
    Assoc(head, reqs, other + [RBrace]);
    Assoc(head + reqs, other, [RBrace]);
  }

  lemma StuckTree(ts: seq<Token>) returns (done: seq<Token>, left: seq<Token>, want: Token, t: Tree)
    requires TreeFrom(ts).Bad?
    ensures StuckAt(ts, done, left, want, TreeYield(t), TreeFrom(ts).error)
  {
    hide HeadFrom, ReqsFrom, OtherwiseFrom, StuckAt, HeadYield, ReqsYield, OtherwiseYield, TreeYield;
    if HeadFrom(ts).Bad? {
      var h;
      done, left, want, h := StuckHead(ts);
      t := Tree(h.0, h.1, h.2, [], None);
      PartsOfTree(t);
      StuckBehind(ts, [], ts, done, left, want, HeadYield(h.0, h.1, h.2), HeadFrom(ts).error, TreeYield(t));
      assert [] + done == done;
    } else {
      var h, ts1 := HeadFrom(ts).value, HeadFrom(ts).rest;
      HeadDerived(ts);
      var head := HeadYield(h.0, h.1, h.2);
      if ReqsFrom(ts1).Bad? {
        var rs;
        done, left, want, rs := StuckReqs(ts1);
        t := Tree(h.0, h.1, h.2, rs, None);
        PartsOfTree(t);
        StuckBehind(ts, head, ts1, done, left, want, ReqsYield(rs), ReqsFrom(ts1).error, TreeYield(t));
        done := head + done;
      } else {
        done, left, want, t := StuckTail(ts, h, ts1);
      }
    }
  }

  lemma StuckTail(ts: seq<Token>, h: (string, string, bool), ts1: seq<Token>)
      returns (done: seq<Token>, left: seq<Token>, want: Token, t: Tree)
    requires TreeFrom(ts).Bad? && HeadFrom(ts) == Done(h, ts1) && ts == HeadYield(h.0, h.1, h.2) + ts1 && ReqsFrom(ts1).Done?
    ensures StuckAt(ts, done, left, want, TreeYield(t), TreeFrom(ts).error)
  {
    hide HeadFrom, ReqsFrom, OtherwiseFrom, StuckAt, HeadYield, ReqsYield, OtherwiseYield, TreeYield;
    var head, rs, ts2 := HeadYield(h.0, h.1, h.2), ReqsFrom(ts1).value, ReqsFrom(ts1).rest;
    ReqsDerived(ts1);
    Assoc(head, ReqsYield(rs), ts2);
    var front := head + ReqsYield(rs);
    if OtherwiseFrom(ts2).Bad? {
      var o;
      done, left, want, o := StuckOtherwise(ts2);
      t := Tree(h.0, h.1, h.2, rs, o);
      PartsOfTree(t);
      StuckBehind(ts, front, ts2, done, left, want, OtherwiseYield(o), OtherwiseFrom(ts2).error, TreeYield(t));
      done := front + done;
    } else {
      var o, ts3 := OtherwiseFrom(ts2).value, OtherwiseFrom(ts2).rest;
      OtherwiseDerived(ts2);
      t := Tree(h.0, h.1, h.2, rs, o);
      PartsOfTree(t);
      done, left, want := front + OtherwiseYield(o), ts3, RBrace;
      BraceMissing(ts, front, OtherwiseYield(o), ts3, TreeYield(t), TreeFrom(ts).error);
    }
  }

  lemma BraceMissing(ts: seq<Token>, front: seq<Token>, other: seq<Token>, ts3: seq<Token>, whole: seq<Token>, e: ParseError)
    requires ts == front + (other + ts3) && (front + other) + [RBrace] == whole
    requires e == Expected(RBrace, Cur(ts3)) && Cur(ts3) != RBrace
    ensures StuckAt(ts, front + other, ts3, RBrace, whole, e)
  {
    Assoc(front, other, ts3);
  }

  /** The error of a refused token list: the tokens before `left` with `want` behind them are the beginning of a program
      of the grammar, so nothing went wrong earlier; the error says that `want` was expected where `left` begins. */
  lemma {:induction false} MisfitExactly(ts: seq<Token>)
      returns (done: seq<Token>, left: seq<Token>, want: Token, trees: seq<Tree>)
    requires TreesFrom(ts).Bad?
    ensures StuckAt(ts, done, left, want, Yield(trees), TreesFrom(ts).error)
    decreases |ts|
  {
    hide TreeFrom, StuckAt, TreeYield;
    TreesStep(ts);
    if TreeFrom(ts).Bad? {
      var t;
      done, left, want, t := StuckTree(ts);
      trees := [t];
      assert Yield(trees) == TreeYield(t) + [];
      StuckBehind(ts, [], ts, done, left, want, TreeYield(t), TreeFrom(ts).error, Yield(trees));
      assert [] + done == done;
    } else {
      var t, mid := TreeFrom(ts).value, TreeFrom(ts).rest;
      TreeDerived(ts, t, mid);
      var more;
      done, left, want, more := MisfitExactly(mid);
      trees := [t] + more;
      assert Yield(trees) == TreeYield(t) + Yield(more);
      StuckBehind(ts, TreeYield(t), mid, done, left, want, Yield(more), TreesFrom(ts).error, Yield(trees));
      done := TreeYield(t) + done;
    }
  }
}
