/** The grammar the parser implements, and the front end as a whole (`lib.rs`, `compile`). */
module HkclGrammar {
  import opened Basics
  import opened Wrappers
  import opened HkclLexer
  import opened HkclLayout
  import opened HkclParser

  // ---- the grammar: the tokens a parse tree stands for ----

  function ReqYield(r: ReqTree): seq<Token> {
    [Require, Ident(r.name)] + ((if r.call then [LParen, RParen] else []) + [Semicolon])
  }

  function ReqsYield(rs: seq<ReqTree>): seq<Token> {
    if rs == [] then [] else ReqYield(rs[0]) + ReqsYield(rs[1..])
  }

  function OtherwiseYield(o: Option<Action>): seq<Token> {
    match o
    case None => []
    case Some(RejectIt) => [Otherwise, Reject, Semicolon]
    case Some(AcceptIt) => [Otherwise, Accept, Semicolon]
  }

  function HeadYield(name: string, param: string, quoted: bool): seq<Token> {
    [Validity, LParen, Ident(name), RParen, if quoted then Str(param) else Ident(param), LBrace]
  }

  function TreeYield(t: Tree): seq<Token> {
    HeadYield(t.name, t.param, t.quoted) + (ReqsYield(t.reqs) + (OtherwiseYield(t.otherwise_) + [RBrace]))
  }

  function Yield(ts: seq<Tree>): seq<Token> {
    if ts == [] then [] else TreeYield(ts[0]) + Yield(ts[1..])
  }

  // ---- the parser accepts what the grammar derives ----

  lemma ReqAccepted(r: ReqTree, rest: seq<Token>)
    ensures OneReqFrom(ReqYield(r) + rest) == Done(r, rest)
  {
    var ts := ReqYield(r) + rest;
    assert ts[1..][0] == Ident(r.name);
    if r.call {
      assert ts[1..][1..] == [LParen, RParen, Semicolon] + rest;
      assert ts[1..][1..][1..][1..] == [Semicolon] + rest;
    } else {
      assert ts[1..][1..] == [Semicolon] + rest;
    }
    assert ([Semicolon] + rest)[1..] == rest;
  }

  lemma ReqStarts(r: ReqTree, rest: seq<Token>)
    ensures Cur(ReqYield(r) + rest) == Require
  {
  }

  lemma {:induction false} ReqsAccepted(rs: seq<ReqTree>, rest: seq<Token>)
    requires Cur(rest) == Otherwise || Cur(rest) == RBrace
    ensures ReqsFrom(ReqsYield(rs) + rest) == Done(rs, rest)
  {
    if rs == [] {
      assert ReqsYield(rs) + rest == rest;
    } else {
      var more := ReqsYield(rs[1..]) + rest;
      Assoc(ReqYield(rs[0]), ReqsYield(rs[1..]), rest);
      ReqStarts(rs[0], more);
      ReqsStep(ReqYield(rs[0]) + more);
      ReqAccepted(rs[0], more);
      ReqsAccepted(rs[1..], rest);
      assert [rs[0]] + rs[1..] == rs;
    }
  }

  lemma OtherwiseAccepted(o: Option<Action>, rest: seq<Token>)
    requires Cur(rest) == RBrace
    ensures OtherwiseFrom(OtherwiseYield(o) + rest) == Done(o, rest)
  {
    var ts := OtherwiseYield(o) + rest;
    if o.None? {
      assert ts == rest;
    } else {
      assert ts[1..][1..] == [Semicolon] + rest;
      assert ts[1..][1..][1..] == rest;
    }
  }

  lemma NameAccepted(name: string, rest: seq<Token>)
    ensures NameFrom([Validity, LParen, Ident(name), RParen] + rest) == Done(name, rest)
  {
    var ts := [Validity, LParen, Ident(name), RParen] + rest;
    assert ts[1..] == [LParen, Ident(name), RParen] + rest;
    assert ts[1..][1..] == [Ident(name), RParen] + rest;
    assert ts[1..][1..][1..] == [RParen] + rest;
    assert ts[1..][1..][1..][1..] == rest;
  }

  lemma ParamAccepted(param: string, quoted: bool, rest: seq<Token>)
    ensures ParamFrom([if quoted then Str(param) else Ident(param), LBrace] + rest) == Done((param, quoted), rest)
  {
    var ts := [if quoted then Str(param) else Ident(param), LBrace] + rest;
    assert ts[1..] == [LBrace] + rest;
    assert ts[1..][1..] == rest;
  }

  lemma HeadAccepted(name: string, param: string, quoted: bool, rest: seq<Token>)
    ensures HeadFrom(HeadYield(name, param, quoted) + rest) == Done((name, param, quoted), rest)
  {
    var first, second := [Validity, LParen, Ident(name), RParen], [if quoted then Str(param) else Ident(param), LBrace];
    assert HeadYield(name, param, quoted) + rest == first + (second + rest);
    NameAccepted(name, second + rest);
    ParamAccepted(param, quoted, rest);
  }

  lemma OtherwiseStarts(o: Option<Action>, rest: seq<Token>)
    requires Cur(rest) == RBrace
    ensures Cur(OtherwiseYield(o) + rest) == Otherwise || Cur(OtherwiseYield(o) + rest) == RBrace
  {
    if o.None? { assert OtherwiseYield(o) + rest == rest; }
  }

  lemma TreeAccepted(t: Tree, rest: seq<Token>)
    ensures TreeFrom(TreeYield(t) + rest) == Done(t, rest)
  {
    var close := [RBrace] + rest;
    var tail := OtherwiseYield(t.otherwise_) + close;
    var body := ReqsYield(t.reqs) + tail;
    assert TreeYield(t) + rest == HeadYield(t.name, t.param, t.quoted) + body;
    assert Cur(close) == RBrace;
    OtherwiseStarts(t.otherwise_, close);
    hide HeadFrom, ReqsFrom, OtherwiseFrom, HeadYield, ReqsYield, OtherwiseYield, TreeYield;
    HeadAccepted(t.name, t.param, t.quoted, body);
    ReqsAccepted(t.reqs, tail);
    OtherwiseAccepted(t.otherwise_, close);
    assert close[1..] == rest;
  }

  lemma TreeStarts(t: Tree, rest: seq<Token>)
    ensures Cur(TreeYield(t) + rest) == Validity
  {
    assert (TreeYield(t) + rest)[0] == HeadYield(t.name, t.param, t.quoted)[0];
  }

  lemma {:induction false} DerivedIsAccepted(ts: seq<Tree>, rest: seq<Token>)
    requires Cur(rest) == Eof
    ensures TreesFrom(Yield(ts) + rest) == Done(ts, rest)
  {
    hide TreeFrom, TreeYield;
    if ts == [] {
      assert Yield(ts) + rest == rest;
    } else {
      var more := Yield(ts[1..]) + rest;
      Assoc(TreeYield(ts[0]), Yield(ts[1..]), rest);
      TreeStarts(ts[0], more);
      TreesStep(TreeYield(ts[0]) + more);
      TreeAccepted(ts[0], more);
      DerivedIsAccepted(ts[1..], rest);
      assert [ts[0]] + ts[1..] == ts;
    }
  }

  // ---- and nothing else ----

  lemma ReqDerived(ts: seq<Token>)
    requires OneReqFrom(ts).Done?
    ensures ts == ReqYield(OneReqFrom(ts).value) + OneReqFrom(ts).rest
  {
    if OneReqFrom(ts).value.call {
      assert OneReqFrom(ts).rest == ts[1..][1..][1..][1..][1..];
      assert ts == [ts[0], ts[1], ts[2], ts[3], ts[4]] + ts[1..][1..][1..][1..][1..];
    } else {
      assert OneReqFrom(ts).rest == ts[1..][1..][1..];
      assert ts == [ts[0], ts[1], ts[2]] + ts[1..][1..][1..];
    }
  }

  lemma {:induction false} ReqsDerived(ts: seq<Token>)
    requires ReqsFrom(ts).Done?
    ensures ts == ReqsYield(ReqsFrom(ts).value) + ReqsFrom(ts).rest
    decreases |ts|
  {
    if Cur(ts) == Otherwise || Cur(ts) == RBrace {
      assert ts == [] + ts;
    } else {
      ReqsStep(ts);
      ReqDerived(ts);
      var req, more := OneReqFrom(ts).value, OneReqFrom(ts).rest;
      ReqsDerived(more);
      var reqs, rest := ReqsFrom(more).value, ReqsFrom(more).rest;
      assert ([req] + reqs)[1..] == reqs;
      Assoc(ReqYield(req), ReqsYield(reqs), rest);
    }
  }

  lemma OtherwiseDerived(ts: seq<Token>)
    requires OtherwiseFrom(ts).Done?
    ensures ts == OtherwiseYield(OtherwiseFrom(ts).value) + OtherwiseFrom(ts).rest
  {
    if Cur(ts) == Otherwise {
      assert ts == [ts[0], ts[1], ts[2]] + ts[1..][1..][1..];
    }
  }

  lemma NameDerived(ts: seq<Token>)
    requires NameFrom(ts).Done?
    ensures ts == [Validity, LParen, Ident(NameFrom(ts).value), RParen] + NameFrom(ts).rest
  {
    assert NameFrom(ts).rest == ts[1..][1..][1..][1..];
    assert ts == [ts[0], ts[1], ts[2], ts[3]] + ts[1..][1..][1..][1..];
  }

  lemma ParamDerived(ts: seq<Token>)
    requires ParamFrom(ts).Done?
    ensures var (param, quoted) := ParamFrom(ts).value;
            ts == [if quoted then Str(param) else Ident(param), LBrace] + ParamFrom(ts).rest
  {
    assert ParamFrom(ts).rest == ts[1..][1..];
    assert ts == [ts[0], ts[1]] + ts[1..][1..];
  }

  lemma HeadDerived(ts: seq<Token>)
    requires HeadFrom(ts).Done?
    ensures var h := HeadFrom(ts).value; ts == HeadYield(h.0, h.1, h.2) + HeadFrom(ts).rest
  {
    NameDerived(ts);
    ParamDerived(NameFrom(ts).rest);
  }

  lemma Regroup(ts: seq<Token>, head: seq<Token>, ts1: seq<Token>, reqs: seq<Token>, ts2: seq<Token>,
                action: seq<Token>, ts3: seq<Token>, rest: seq<Token>)
    requires ts == head + ts1 && ts1 == reqs + ts2 && ts2 == action + ts3 && ts3 == [RBrace] + rest
    ensures ts == (head + (reqs + (action + [RBrace]))) + rest
  {
  }

  /** The parts of an accepted constraint, each parsed from what the one before left over. */
  lemma TreeParts(ts: seq<Token>) returns (ts1: seq<Token>, ts2: seq<Token>, ts3: seq<Token>)
    requires TreeFrom(ts).Done?
    ensures var t := TreeFrom(ts).value;
            && HeadFrom(ts) == Done((t.name, t.param, t.quoted), ts1) && ReqsFrom(ts1) == Done(t.reqs, ts2)
            && OtherwiseFrom(ts2) == Done(t.otherwise_, ts3) && ts3 == [RBrace] + TreeFrom(ts).rest
  {
    hide HeadFrom, ReqsFrom, OtherwiseFrom;
    ts1 := HeadFrom(ts).rest;
    ts2 := ReqsFrom(ts1).rest;
    ts3 := OtherwiseFrom(ts2).rest;
  }

  lemma TreeDerived(ts: seq<Token>, t: Tree, rest: seq<Token>)
    requires TreeFrom(ts) == Done(t, rest)
    ensures ts == TreeYield(t) + rest
  {
    var ts1, ts2, ts3 := TreeParts(ts);
    var head, reqs, action := HeadYield(t.name, t.param, t.quoted), ReqsYield(t.reqs), OtherwiseYield(t.otherwise_);
    assert ts == head + ts1 by { HeadDerived(ts); }
    assert ts1 == reqs + ts2 by { ReqsDerived(ts1); }
    assert ts2 == action + ts3 by { OtherwiseDerived(ts2); }
    Regroup(ts, head, ts1, reqs, ts2, action, ts3, rest);
  }

  lemma {:induction false} AcceptedIsDerived(ts: seq<Token>)
    requires TreesFrom(ts).Done?
    ensures ts == Yield(TreesFrom(ts).value) + TreesFrom(ts).rest && Cur(TreesFrom(ts).rest) == Eof
    decreases |ts|
  {
    if Cur(ts) == Eof {
      assert ts == [] + ts;
    } else {
      TreesStep(ts);
      var tree, more := TreeFrom(ts).value, TreeFrom(ts).rest;
      TreeDerived(ts, tree, more);
      AcceptedIsDerived(more);
      var trees, rest := TreesFrom(more).value, TreesFrom(more).rest;
      assert ([tree] + trees)[1..] == trees;
      Assoc(TreeYield(tree), Yield(trees), rest);
    }
  }

  /** On every token list: the parser succeeds exactly when the tokens before the first `Eof` (or all of
      them) are derived from the grammar, and then its result is what the derivation means. */
  lemma ParserIsExactlyTheGrammar(tokens: seq<Token>, p: seq<Constraint>)
    ensures Parse(tokens) == Ok(p) <==>
            exists ts, rest :: tokens == Yield(ts) + rest && Cur(rest) == Eof && ProgramMeaning(ts) == p
  {
    if Parse(tokens) == Ok(p) {
      AcceptedIsDerived(tokens);
      var r := TreesFrom(tokens);
      assert tokens == Yield(r.value) + r.rest && Cur(r.rest) == Eof && ProgramMeaning(r.value) == p;
    }
    if ts, rest :| tokens == Yield(ts) + rest && Cur(rest) == Eof && ProgramMeaning(ts) == p {
      DerivedIsAccepted(ts, rest);
    }
  }

  /** The grammar is unambiguous: a token list has one parse tree at most. */
  lemma GrammarIsUnambiguous(a: seq<Tree>, b: seq<Tree>, resta: seq<Token>, restb: seq<Token>)
    requires Yield(a) + resta == Yield(b) + restb && Cur(resta) == Eof && Cur(restb) == Eof
    ensures a == b && resta == restb
  {
    DerivedIsAccepted(a, resta);
    DerivedIsAccepted(b, restb);
  }

  lemma SemicolonNeeded(action: Token, rest: seq<Token>)
    requires action == Reject || action == Accept
    ensures OtherwiseFrom([Otherwise, action, RBrace] + rest) == Bad(Expected(Semicolon, RBrace))
  {
    var end := [Otherwise, action, RBrace] + rest;
    assert end[1..] == [action, RBrace] + rest && end[1..][1..] == [RBrace] + rest;
  }

  lemma BadTail(ts: seq<Token>, head: (string, string, bool), ts1: seq<Token>, reqs: seq<ReqTree>, ts2: seq<Token>,
                e: ParseError)
    requires HeadFrom(ts) == Done(head, ts1) && ReqsFrom(ts1) == Done(reqs, ts2) && OtherwiseFrom(ts2) == Bad(e)
    requires Cur(ts) != Eof
    ensures Parse(ts) == Err(e)
  {
    hide HeadFrom, ReqsFrom, OtherwiseFrom;
    assert TreeFrom(ts) == Bad(e);
    TreesStep(ts);
  }

  /** The grammar in the crate's documentation has no semicolon after the otherwise action; constraints
      written like that are rejected. */
  lemma DocumentedClauseIsRejected(t: Tree, action: Token, rest: seq<Token>)
    requires action == Reject || action == Accept
    ensures Parse(HeadYield(t.name, t.param, t.quoted) + (ReqsYield(t.reqs) + ([Otherwise, action, RBrace] + rest)))
            == Err(Expected(Semicolon, RBrace))
  {
    hide HeadFrom, ReqsFrom, OtherwiseFrom, ReqsYield, Parse;
    var end := [Otherwise, action, RBrace] + rest;
    var body := ReqsYield(t.reqs) + end;
    HeadAccepted(t.name, t.param, t.quoted, body);
    ReqsAccepted(t.reqs, end);
    SemicolonNeeded(action, rest);
    BadTail(HeadYield(t.name, t.param, t.quoted) + body, (t.name, t.param, t.quoted), body, t.reqs, end,
            Expected(Semicolon, RBrace));
  }

  /** A constraint without the clause compiles, to one that rejects. */
  lemma MissingClauseRejects(name: string, param: string, quoted: bool, reqs: seq<ReqTree>, rest: seq<Token>)
    requires Cur(rest) == Eof
    ensures var r := Parse(HeadYield(name, param, quoted) + (ReqsYield(reqs) + [RBrace]) + rest);
            && r.Ok? && |r.value| == 1 && r.value[0].name == name && r.value[0].param == param
            && r.value[0].otherwise_ == RejectIt && |r.value[0].requires_| == |reqs|
            && forall j :: 0 <= j < |reqs| ==>
                 r.value[0].requires_[j] == if reqs[j].call then Check(reqs[j].name) else Predicate(reqs[j].name)
  {
    hide TreesFrom, HeadYield, ReqsYield;
    var t := Tree(name, param, quoted, reqs, None);
    assert [] + [RBrace] == [RBrace];
    assert TreeYield(t) + Yield([]) == TreeYield(t);
    DerivedIsAccepted([t], rest);
  }

  // ---- compile ----

  datatype CompileError = Lexing(lex: LexError) | Parsing(parse: ParseError)

  function Compiled(source: string): Result<seq<Constraint>, CompileError> {
    var tokens := Lex(source);
    if tokens.Err? then Err(Lexing(tokens.error))
    else
      var p := Parse(tokens.value);
      if p.Err? then Err(Parsing(p.error)) else Ok(p.value)
  }

  method Compile(source: string) returns (r: Result<seq<Constraint>, CompileError>)
    ensures r == Compiled(source)
  {
    var lexer := new Lexer(source);
    var tokens := lexer.Tokenize();
    if tokens.Err? { return Err(Lexing(tokens.error)); }
    var parser := new Parser(tokens.value);
    var p := parser.ParseProgram();
    return if p.Err? then Err(Parsing(p.error)) else Ok(p.value);
  }

  // ---- the front end as a whole ----

  /** The source is a way to write the program down: legal text for the tokens of a tree that means it. */
  ghost predicate Writes(source: string, p: seq<Constraint>, trees: seq<Tree>, ls: seq<Lexeme>, tail: Tail) {
    && TextOk(ls, tail) && Render(ls, tail) == source
    && Toks(ls) == Yield(trees) && ProgramMeaning(trees) == p
  }

  lemma {:induction false} ReqsYieldNoEof(rs: seq<ReqTree>)
    ensures Eof !in ReqsYield(rs)
  {
    if rs != [] { ReqsYieldNoEof(rs[1..]); }
  }

  lemma {:induction false} YieldNoEof(ts: seq<Tree>)
    ensures Eof !in Yield(ts)
  {
    if ts != [] {
      ReqsYieldNoEof(ts[0].reqs);
      YieldNoEof(ts[1..]);
    }
  }

  lemma EofNotBefore(a: seq<Token>, b: seq<Token>, rest: seq<Token>)
    requires a + [Eof] == b + rest && Eof !in b
    ensures |b| <= |a|
  {
    assert forall k :: 0 <= k < |b| ==> (b + rest)[k] == b[k] != Eof;
    assert (a + [Eof])[|a|] == Eof;
  }

  lemma FirstEof(a: seq<Token>, b: seq<Token>, rest: seq<Token>)
    requires a + [Eof] == b + rest && Eof !in a && Eof !in b && Cur(rest) == Eof
    ensures a == b
  {
    EofNotBefore(a, b, rest);
    assert forall k :: 0 <= k < |a| ==> (a + [Eof])[k] == a[k] != Eof;
    assert (b + rest)[|b|] == Eof;
    assert a == (a + [Eof])[..|a|] && b == (b + rest)[..|b|];
  }

  lemma WrittenCompiles(source: string, p: seq<Constraint>, trees: seq<Tree>, ls: seq<Lexeme>, tail: Tail)
    requires Writes(source, p, trees, ls, tail)
    ensures Compiled(source) == Ok(p)
  {
    LexReadsBack(ls, tail);
    DerivedIsAccepted(trees, [Eof]);
  }

  lemma CompiledIsWritten(source: string, p: seq<Constraint>)
      returns (trees: seq<Tree>, ls: seq<Lexeme>, tail: Tail)
    requires Compiled(source) == Ok(p)
    ensures Writes(source, p, trees, ls, tail)
  {
    ls, tail := AcceptedTextIsLegal(source);
    var tokens := LexFrom(source).ts;
    AcceptedIsDerived(tokens);
    trees := TreesFrom(tokens).value;
    YieldNoEof(trees);
    assert Eof !in Toks(ls) by {
      forall i | 0 <= i < |ls| ensures Toks(ls)[i] != Eof { assert SpellOk(ls[i]); }
    }
    FirstEof(Toks(ls), Yield(trees), TreesFrom(tokens).rest);
  }

  /** `compile` returns a program exactly for the texts that write it down, in any layout, with comments
      anywhere between tokens and strings spelled in any way their escapes allow. */
  lemma FrontEndIsExact(source: string, p: seq<Constraint>)
    ensures Compiled(source) == Ok(p) <==> exists trees, ls, tail :: Writes(source, p, trees, ls, tail)
  {
    if Compiled(source) == Ok(p) {
      var trees, ls, tail := CompiledIsWritten(source, p);
    }
    if trees, ls, tail :| Writes(source, p, trees, ls, tail) {
      WrittenCompiles(source, p, trees, ls, tail);
    }
  }

  // ---- which programs can be written at all ----

  predicate IsName(w: string) { IsWord(w) && !IsKeyword(w) }

  predicate WellNamed(p: seq<Constraint>) {
    forall i :: 0 <= i < |p| ==>
      IsName(p[i].name) && forall j :: 0 <= j < |p[i].requires_| ==> IsName(p[i].requires_[j].name)
  }

  function TreeOfReq(r: Requirement): ReqTree { ReqTree(r.name, r.Check?) }

  function TreeOf(c: Constraint): Tree {
    Tree(c.name, c.param, true, seq(|c.requires_|, i requires 0 <= i < |c.requires_| => TreeOfReq(c.requires_[i])),
         Some(c.otherwise_))
  }

  function TreesOf(p: seq<Constraint>): (r: seq<Tree>)
    ensures |r| == |p| && forall i :: 0 <= i < |p| ==> r[i] == TreeOf(p[i])
  {
    seq(|p|, i requires 0 <= i < |p| => TreeOf(p[i]))
  }

  lemma TreesMeanProgram(p: seq<Constraint>)
    ensures ProgramMeaning(TreesOf(p)) == p
  {
    forall i | 0 <= i < |p| ensures Meaning(TreeOf(p[i])) == p[i] {
      assert ReqsMeaning(TreeOf(p[i]).reqs) == p[i].requires_;
    }
  }

  /** A plain spelling: one blank before each token, double quotes, a backslash before quote and backslash. */
  function PlainEscs(text: string): (r: seq<Esc>)
    ensures |r| == |text| && forall i :: 0 <= i < |text| ==> r[i] == if text[i] == '"' || text[i] == '\\' then Slashed else Raw
  {
    seq(|text|, i requires 0 <= i < |text| => if text[i] == '"' || text[i] == '\\' then Slashed else Raw)
  }

  function PlainLexeme(t: Token): Lexeme {
    Lexeme([Blank(' ')], t, '"', if t.Str? then PlainEscs(t.text) else [])
  }

  function PlainLexemes(ts: seq<Token>): (r: seq<Lexeme>)
    ensures |r| == |ts| && forall i :: 0 <= i < |ts| ==> r[i] == PlainLexeme(ts[i])
  {
    seq(|ts|, i requires 0 <= i < |ts| => PlainLexeme(ts[i]))
  }

  predicate Spellable(t: Token) { t != Eof && !t.Number? && (t.Ident? ==> IsName(t.name)) }

  lemma PlainTextOk(ts: seq<Token>)
    requires forall i :: 0 <= i < |ts| ==> Spellable(ts[i])
    ensures TextOk(PlainLexemes(ts), Tail([], None)) && Toks(PlainLexemes(ts)) == ts
  {
    forall i | 0 <= i < |ts| ensures GapOk(PlainLexemes(ts)[i].gap) && SpellOk(PlainLexemes(ts)[i]) {
      assert Spellable(ts[i]);
    }
  }

  lemma {:induction false} ReqsYieldSpellable(rs: seq<ReqTree>)
    requires forall j :: 0 <= j < |rs| ==> IsName(rs[j].name)
    ensures forall i :: 0 <= i < |ReqsYield(rs)| ==> Spellable(ReqsYield(rs)[i])
  {
    if rs != [] {
      ReqsYieldSpellable(rs[1..]);
      assert IsName(rs[0].name);
      assert forall i :: 0 <= i < |ReqYield(rs[0])| ==> Spellable(ReqYield(rs[0])[i]);
    }
  }

  ghost predicate TreeNamed(t: Tree) {
    IsName(t.name) && (t.quoted || IsName(t.param)) && forall j :: 0 <= j < |t.reqs| ==> IsName(t.reqs[j].name)
  }

  lemma TreeYieldSpellable(t: Tree)
    requires TreeNamed(t)
    ensures forall i :: 0 <= i < |TreeYield(t)| ==> Spellable(TreeYield(t)[i])
  {
    ReqsYieldSpellable(t.reqs);
    var head, end := HeadYield(t.name, t.param, t.quoted), OtherwiseYield(t.otherwise_) + [RBrace];
    assert forall i :: 0 <= i < |head| ==> Spellable(head[i]);
    assert forall i :: 0 <= i < |end| ==> Spellable(end[i]);
  }

  lemma {:induction false} YieldSpellable(ts: seq<Tree>)
    requires forall i :: 0 <= i < |ts| ==> TreeNamed(ts[i])
    ensures forall i :: 0 <= i < |Yield(ts)| ==> Spellable(Yield(ts)[i])
  {
    if ts != [] {
      TreeYieldSpellable(ts[0]);
      YieldSpellable(ts[1..]);
    }
  }

  /** A printer: the plain text of a program. */
  ghost function Print(p: seq<Constraint>): string
    requires WellNamed(p)
  {
    PrintIsLegal(p);
    Render(PlainLexemes(Yield(TreesOf(p))), Tail([], None))
  }

  lemma PrintIsLegal(p: seq<Constraint>)
    requires WellNamed(p)
    ensures var ls := PlainLexemes(Yield(TreesOf(p)));
            TextOk(ls, Tail([], None)) && Toks(ls) == Yield(TreesOf(p))
  {
    forall i | 0 <= i < |p| ensures TreeNamed(TreesOf(p)[i]) {
      assert IsName(p[i].name);
    }
    YieldSpellable(TreesOf(p));
    PlainTextOk(Yield(TreesOf(p)));
  }

  /** Printing and compiling gives the program back. */
  lemma PrintRoundTrip(p: seq<Constraint>)
    requires WellNamed(p)
    ensures Compiled(Print(p)) == Ok(p)
  {
    PrintIsLegal(p);
    TreesMeanProgram(p);
    WrittenCompiles(Print(p), p, TreesOf(p), PlainLexemes(Yield(TreesOf(p))), Tail([], None));
  }

  lemma {:induction false} ReqNamesComeFromTokens(rs: seq<ReqTree>, j: nat)
    requires j < |rs|
    ensures Ident(rs[j].name) in ReqsYield(rs)
  {
    if j == 0 {
      assert ReqsYield(rs)[1] == Ident(rs[0].name);
    } else {
      ReqNamesComeFromTokens(rs[1..], j - 1);
    }
  }

  lemma {:induction false} NamesComeFromTokens(ts: seq<Tree>, i: nat)
    requires i < |ts|
    ensures Ident(ts[i].name) in Yield(ts)
    ensures forall j :: 0 <= j < |ts[i].reqs| ==> Ident(ts[i].reqs[j].name) in Yield(ts)
  {
    if i == 0 {
      assert TreeYield(ts[0])[2] == Ident(ts[0].name);
      forall j | 0 <= j < |ts[0].reqs| ensures Ident(ts[0].reqs[j].name) in TreeYield(ts[0]) {
        ReqNamesComeFromTokens(ts[0].reqs, j);
      }
      assert forall t :: t in TreeYield(ts[0]) ==> t in Yield(ts);
    } else {
      NamesComeFromTokens(ts[1..], i - 1);
    }
  }

  /** Some source compiles to a program exactly when all its names are identifiers that are not keywords. */
  lemma WritableExactlyWhenWellNamed(p: seq<Constraint>)
    ensures (exists source :: Compiled(source) == Ok(p)) <==> WellNamed(p)
  {
    if source :| Compiled(source) == Ok(p) {
      var trees, ls, tail := CompiledIsWritten(source, p);
      WrittenIsWellNamed(source, p, trees, ls, tail);
    }
    if WellNamed(p) { PrintRoundTrip(p); }
  }

  lemma WrittenIsWellNamed(source: string, p: seq<Constraint>, trees: seq<Tree>, ls: seq<Lexeme>, tail: Tail)
    requires Writes(source, p, trees, ls, tail)
    ensures WellNamed(p)
  {
    forall w | Ident(w) in Yield(trees) ensures IsName(w) {
      var k :| 0 <= k < |ls| && Toks(ls)[k] == Ident(w);
      assert SpellOk(ls[k]);
    }
    forall i | 0 <= i < |p|
      ensures IsName(p[i].name) && forall j :: 0 <= j < |p[i].requires_| ==> IsName(p[i].requires_[j].name)
    {
      NamesComeFromTokens(trees, i);
      assert p[i] == Meaning(trees[i]);
    }
  }
}
