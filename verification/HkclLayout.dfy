/** Every way to write a list of tokens down, and the proof that the lexer reads back exactly these. */
module HkclLayout {
  import opened Wrappers
  import opened HkclLexer

  // ---- layout between tokens ----

  datatype Piece = Blank(c: char) | Comment(text: string)

  /** A blank is a space, a tab, a line end, a vertical tab, a form feed or a carriage return. */
  predicate PieceOk(p: Piece) {
    match p
    case Blank(c) => c == ' ' || c == '\t' || c == '\n' || c == '\r' || c as int == 11 || c as int == 12
    case Comment(text) => '\n' !in text
  }

  function PieceText(p: Piece): string {
    match p
    case Blank(c) => [c]
    case Comment(text) => "#" + text + "\n"
  }

  predicate GapOk(gap: seq<Piece>) { forall i :: 0 <= i < |gap| ==> PieceOk(gap[i]) }

  function GapText(gap: seq<Piece>): string {
    if gap == [] then "" else PieceText(gap[0]) + GapText(gap[1..])
  }

  /** What stands behind the last token: layout, and perhaps a comment the text ends in. */
  datatype Tail = Tail(gap: seq<Piece>, open: Option<string>)

  predicate TailOk(tail: Tail) { GapOk(tail.gap) && (tail.open.Some? ==> '\n' !in tail.open.value) }

  function TailText(tail: Tail): string {
    GapText(tail.gap) + if tail.open.Some? then "#" + tail.open.value else ""
  }

  // ---- spelling of tokens ----

  /** A string character stands for itself, is written by its letter escape, or merely has a backslash before it. */
  datatype Esc = Raw | Letter | Slashed

  predicate EscOk(c: char, e: Esc, quote: char) {
    match e
    case Raw => c != quote && c != '\\'
    case Letter => c == '\n' || c == '\t' || c == '\r'
    case Slashed => c != 'n' && c != 't' && c != 'r'
  }

  function EscText(c: char, e: Esc): string {
    match e
    case Raw => [c]
    case Letter => ['\\', if c == '\n' then 'n' else if c == '\t' then 't' else 'r']
    case Slashed => ['\\', c]
  }

  predicate EscsOk(text: string, escs: seq<Esc>, quote: char) {
    |escs| == |text| && forall i :: 0 <= i < |text| ==> EscOk(text[i], escs[i], quote)
  }

  function StringText(text: string, escs: seq<Esc>): string
    requires |escs| == |text|
  {
    if text == "" then "" else EscText(text[0], escs[0]) + StringText(text[1..], escs[1..])
  }

  /** A token with the layout before it; `quote` and `escs` matter for strings only. */
  datatype Lexeme = Lexeme(gap: seq<Piece>, tok: Token, quote: char, escs: seq<Esc>)

  /** The ASCII codes of the ten digits. */
  predicate DigitCode(c: char) { 48 <= c as int <= 57 }

  /** The ASCII codes of the letters and the underscore. */
  predicate LetterCode(c: char) { 65 <= c as int <= 90 || 97 <= c as int <= 122 || c as int == 95 }

  /** Letters, underscores and, not in front, digits. */
  predicate IsWord(w: string) {
    w != "" && LetterCode(w[0]) && forall i :: 0 <= i < |w| ==> LetterCode(w[i]) || DigitCode(w[i])
  }

  /** Digits and, not in front, points. */
  predicate IsNumber(w: string) {
    w != "" && DigitCode(w[0]) && forall i :: 0 <= i < |w| ==> DigitCode(w[i]) || w[i] == '.'
  }

  predicate IsKeyword(w: string) {
    w == "validity" || w == "require" || w == "deny" || w == "otherwise" || w == "reject" || w == "accept"
  }

  predicate SpellOk(l: Lexeme) {
    match l.tok
    case Eof => false
    case Ident(w) => IsWord(w) && !IsKeyword(w)
    case Number(n) => IsNumber(n)
    case Str(text) => (l.quote == '"' || l.quote == '\'') && EscsOk(text, l.escs, l.quote)
    case _ => true
  }

  function Spell(l: Lexeme): string
    requires SpellOk(l)
  {
    match l.tok
    case Validity => "validity"
    case Require => "require"
    case Deny => "deny"
    case Otherwise => "otherwise"
    case Reject => "reject"
    case Accept => "accept"
    case Ident(w) => w
    case Number(n) => n
    case Str(text) => [l.quote] + (StringText(text, l.escs) + [l.quote])
    case LParen => "("
    case RParen => ")"
    case LBrace => "{"
    case RBrace => "}"
    case Semicolon => ";"
    case Colon => ":"
    case Comma => ","
    case Arrow => "=>"
  }

  predicate Wordy(t: Token) {
    t.Validity? || t.Require? || t.Deny? || t.Otherwise? || t.Reject? || t.Accept? || t.Ident?
  }

  /** Written without layout between them, the two tokens would run together. */
  predicate Sticky(a: Token, b: Token) { (Wordy(a) && (Wordy(b) || b.Number?)) || (a.Number? && b.Number?) }

  /** A legal way to write tokens down: legal layout and spelling, and layout wherever tokens would stick. */
  ghost predicate TextOk(ls: seq<Lexeme>, tail: Tail) {
    && TailOk(tail)
    && (forall i :: 0 <= i < |ls| ==> GapOk(ls[i].gap) && SpellOk(ls[i]))
    && (forall i :: 0 < i < |ls| ==> Sticky(ls[i - 1].tok, ls[i].tok) ==> ls[i].gap != [])
  }

  ghost function Render(ls: seq<Lexeme>, tail: Tail): string
    requires forall i :: 0 <= i < |ls| ==> SpellOk(ls[i])
  {
    if ls == [] then TailText(tail) else GapText(ls[0].gap) + (Spell(ls[0]) + Render(ls[1..], tail))
  }

  function Toks(ls: seq<Lexeme>): (r: seq<Token>)
    ensures |r| == |ls| && forall i :: 0 <= i < |ls| ==> r[i] == ls[i].tok
  {
    seq(|ls|, i requires 0 <= i < |ls| => ls[i].tok)
  }

  // ---- reading layout ----

  lemma {:induction false} SkipLineStops(text: string, x: string)
    requires '\n' !in text
    ensures SkipLine(text + ("\n" + x)) == x
  {
    if text == "" {
      assert text + ("\n" + x) == "\n" + x;
      assert ("\n" + x)[1..] == x;
    } else {
      assert (text + ("\n" + x))[1..] == text[1..] + ("\n" + x);
      SkipLineStops(text[1..], x);
    }
  }

  lemma {:induction false} SkipLineToEnd(text: string)
    requires '\n' !in text
    ensures SkipLine(text) == ""
  {
    if text != "" { SkipLineToEnd(text[1..]); }
  }

  lemma SkipPiece(p: Piece, x: string)
    requires PieceOk(p)
    ensures SkipLayout(PieceText(p) + x) == SkipLayout(x)
  {
    var s := PieceText(p) + x;
    match p {
      case Blank(c) => assert s[1..] == x;
      case Comment(text) =>
        assert s == ("#" + text) + ("\n" + x);
        SkipLineStops("#" + text, x);
    }
  }

  lemma {:induction false} SkipGap(gap: seq<Piece>, x: string)
    requires GapOk(gap)
    ensures SkipLayout(GapText(gap) + x) == SkipLayout(x)
  {
    if gap == [] {
      assert GapText(gap) + x == x;
    } else {
      assert GapText(gap) + x == PieceText(gap[0]) + (GapText(gap[1..]) + x);
      SkipPiece(gap[0], GapText(gap[1..]) + x);
      SkipGap(gap[1..], x);
    }
  }

  lemma SkipTail(tail: Tail)
    requires TailOk(tail)
    ensures SkipLayout(TailText(tail)) == ""
  {
    var end := if tail.open.Some? then "#" + tail.open.value else "";
    SkipGap(tail.gap, end);
    if tail.open.Some? { SkipLineToEnd(end); }
  }

  // ---- reading tokens ----

  lemma {:induction false} StringReadsBack(text: string, escs: seq<Esc>, quote: char, x: string)
    requires EscsOk(text, escs, quote) && (quote == '"' || quote == '\'')
    ensures StringFrom(StringText(text, escs) + ([quote] + x), quote) == Closed(text, x)
  {
    hide StringFrom, EscText, EscOk;
    var end := [quote] + x;
    if text == "" {
      StringEnds(quote, x);
      assert StringText(text, escs) + end == end;
    } else {
      var head, tail := EscText(text[0], escs[0]), StringText(text[1..], escs[1..]);
      StringReadsBack(text[1..], escs[1..], quote, x);
      assert (head + tail) + end == head + (tail + end);
      StringStep(text[0], escs[0], quote, tail + end);
      assert [text[0]] + text[1..] == text;
    }
  }

  lemma StringEnds(quote: char, x: string)
    ensures StringFrom([quote] + x, quote) == Closed("", x)
  {
    assert ([quote] + x)[1..] == x;
  }

  lemma StringStep(c: char, e: Esc, quote: char, rest: string)
    requires EscOk(c, e, quote) && (quote == '"' || quote == '\'')
    ensures StringFrom(EscText(c, e) + rest, quote) == Before(c, StringFrom(rest, quote))
  {
    var s := EscText(c, e) + rest;
    if e.Raw? {
      assert s[1..] == rest;
    } else {
      assert s[2..] == rest;
    }
  }

  lemma {:induction false} RunExact(w: string, x: string, p: char -> bool)
    requires (forall i :: 0 <= i < |w| ==> p(w[i])) && (x == "" || !p(x[0]))
    ensures RunLength(w + x, p) == |w|
  {
    if w == "" {
      assert w + x == x;
    } else {
      assert (w + x)[1..] == w[1..] + x;
      RunExact(w[1..], x, p);
    }
  }

  /** What follows the token does not extend it. */
  predicate Follows(t: Token, x: string) {
    && (Wordy(t) && x != "" ==> !InWord(x[0]))
    && (t.Number? && x != "" ==> !InNumber(x[0]))
  }

  lemma WordSpelling(l: Lexeme)
    requires SpellOk(l) && Wordy(l.tok)
    ensures IsWord(Spell(l)) && WordToken(Spell(l)) == l.tok
  {
  }

  lemma WordReadsBack(w: string, x: string)
    requires IsWord(w) && (x != "" ==> !InWord(x[0]))
    ensures TokenFrom(w + x) == Got(WordToken(w), x)
  {
    RunExact(w, x, InWord);
    assert (w + x)[0] == w[0] && (w + x)[..|w|] == w && (w + x)[|w|..] == x;
  }

  lemma NumberReadsBack(w: string, x: string)
    requires IsNumber(w) && (x != "" ==> !InNumber(x[0]))
    ensures TokenFrom(w + x) == Got(Number(w), x)
  {
    RunExact(w, x, InNumber);
    assert (w + x)[0] == w[0] && (w + x)[..|w|] == w && (w + x)[|w|..] == x;
  }

  lemma QuotedReadsBack(text: string, escs: seq<Esc>, quote: char, x: string)
    requires EscsOk(text, escs, quote) && (quote == '"' || quote == '\'')
    ensures TokenFrom([quote] + (StringText(text, escs) + [quote]) + x) == Got(Str(text), x)
  {
    var s := [quote] + (StringText(text, escs) + [quote]) + x;
    assert s[1..] == StringText(text, escs) + ([quote] + x);
    StringReadsBack(text, escs, quote, x);
  }

  lemma SymbolReadsBack(l: Lexeme, x: string)
    requires SpellOk(l) && !Wordy(l.tok) && !l.tok.Number? && !l.tok.Str?
    ensures TokenFrom(Spell(l) + x) == Got(l.tok, x)
  {
    assert (Spell(l) + x)[|Spell(l)|..] == x;
  }

  lemma TokenReadsBack(l: Lexeme, x: string)
    requires SpellOk(l) && Follows(l.tok, x)
    ensures TokenFrom(Spell(l) + x) == Got(l.tok, x)
  {
    if Wordy(l.tok) {
      WordSpelling(l);
      WordReadsBack(Spell(l), x);
    } else if l.tok.Number? {
      NumberReadsBack(Spell(l), x);
    } else if l.tok.Str? {
      QuotedReadsBack(l.tok.text, l.escs, l.quote, x);
    } else {
      SymbolReadsBack(l, x);
    }
  }

  /** Spelled tokens do not look like layout, and only words and numbers begin like words. */
  lemma FirstCharacter(l: Lexeme)
    requires SpellOk(l)
    ensures Spell(l) != "" && !IsWhitespace(Spell(l)[0]) && Spell(l)[0] != '#'
    ensures InWord(Spell(l)[0]) <==> Wordy(l.tok) || l.tok.Number?
    ensures InNumber(Spell(l)[0]) <==> l.tok.Number?
  {
    if Wordy(l.tok) { WordSpelling(l); }
  }

  lemma GapStarts(gap: seq<Piece>)
    requires GapOk(gap) && gap != []
    ensures GapText(gap) != "" && !InWord(GapText(gap)[0]) && !InNumber(GapText(gap)[0])
  {
    assert PieceOk(gap[0]);
    assert GapText(gap)[0] == PieceText(gap[0])[0];
  }

  /** Legal text never extends the token before it. */
  lemma RestFollows(t: Token, ls: seq<Lexeme>, tail: Tail)
    requires TextOk(ls, tail) && (ls != [] && Sticky(t, ls[0].tok) ==> ls[0].gap != [])
    ensures Follows(t, Render(ls, tail))
  {
    if ls == [] {
      if tail.gap != [] { GapStarts(tail.gap); }
    } else if ls[0].gap != [] {
      GapStarts(ls[0].gap);
    } else {
      FirstCharacter(ls[0]);
      assert Render(ls, tail)[0] == Spell(ls[0])[0];
    }
  }

  lemma TextOkRest(ls: seq<Lexeme>, tail: Tail)
    requires TextOk(ls, tail) && ls != []
    ensures TextOk(ls[1..], tail)
    ensures ls[1..] != [] && Sticky(ls[0].tok, ls[1..][0].tok) ==> ls[1..][0].gap != []
  {
    assert forall i :: 0 < i < |ls[1..]| ==> ls[1..][i - 1] == ls[i] && ls[1..][i] == ls[i + 1];
  }

  lemma ToksCons(l: Lexeme, ls: seq<Lexeme>)
    ensures Toks([l] + ls) + [Eof] == [l.tok] + (Toks(ls) + [Eof])
  {
  }

  lemma RenderCons(l: Lexeme, ls: seq<Lexeme>, tail: Tail)
    requires SpellOk(l) && forall i :: 0 <= i < |ls| ==> SpellOk(ls[i])
    ensures (forall i :: 0 <= i < |[l] + ls| ==> SpellOk(([l] + ls)[i]))
    ensures Render([l] + ls, tail) == GapText(l.gap) + (Spell(l) + Render(ls, tail))
  {
    assert ([l] + ls)[1..] == ls;
  }

  /** The lexer reads every legal text back as the tokens it was written from. */
  lemma {:induction false} LexReadsBack(ls: seq<Lexeme>, tail: Tail)
    requires TextOk(ls, tail)
    ensures LexFrom(Render(ls, tail)) == Tokens(Toks(ls) + [Eof])
  {
    if ls == [] {
      SkipTail(tail);
    } else {
      var l, more := ls[0], ls[1..];
      assert ls == [l] + more;
      TextOkRest(ls, tail);
      RestFollows(l.tok, more, tail);
      LexReadsBack(more, tail);
      RenderCons(l, more, tail);
      LexStep(l, Render(more, tail));
      ToksCons(l, more);
    }
  }

  lemma LexStep(l: Lexeme, rest: string)
    requires GapOk(l.gap) && SpellOk(l) && Follows(l.tok, rest)
    ensures LexFrom(GapText(l.gap) + (Spell(l) + rest)) == Prepend([l.tok], LexFrom(rest))
  {
    var s := Spell(l) + rest;
    TokenReadsBack(l, rest);
    FirstCharacter(l);
    assert s[0] == Spell(l)[0];
    SkipGap(l.gap, s);
    assert SkipLayout(s) == s;
  }

  // ---- and conversely: whatever the lexer accepts is a legal text ----

  lemma {:induction false} LineSplits(s: string) returns (text: string)
    ensures '\n' !in text
    ensures s == text || s == text + ("\n" + SkipLine(s))
    ensures s == text ==> SkipLine(s) == ""
  {
    if s == "" {
      text := "";
    } else if s[0] == '\n' {
      text := "";
    } else {
      var t := LineSplits(s[1..]);
      text := [s[0]] + t;
      assert s == [s[0]] + s[1..];
    }
  }

  lemma GapCons(p: Piece, gap: seq<Piece>, x: string)
    requires PieceOk(p) && GapOk(gap)
    ensures GapOk([p] + gap) && PieceText(p) + (GapText(gap) + x) == GapText([p] + gap) + x
  {
    assert ([p] + gap)[1..] == gap;
  }

  /** The first piece of layout, or the comment that the text ends in. */
  lemma PieceSplits(s: string) returns (p: Piece, rest: string, open: Option<string>)
    requires s != "" && (IsWhitespace(s[0]) || s[0] == '#')
    ensures SkipLayout(s) == SkipLayout(rest) && |rest| < |s|
    ensures open.None? ==> PieceOk(p) && s == PieceText(p) + rest
    ensures open.Some? ==> '\n' !in open.value && s == "#" + open.value && rest == ""
  {
    if IsWhitespace(s[0]) {
      p, rest, open := Blank(s[0]), s[1..], None;
      assert s == [s[0]] + s[1..];
    } else {
      var text := LineSplits(s[1..]);
      assert SkipLine(s) == SkipLine(s[1..]) && s == "#" + s[1..];
      p, rest := Comment(text), SkipLine(s);
      open := if s[1..] == text then Some(text) else None;
      if open.None? { assert "#" + (text + ("\n" + rest)) == PieceText(p) + rest; }
    }
  }

  /** The layout that `SkipLayout` passes, as pieces. */
  lemma {:induction false} LayoutSplits(s: string) returns (gap: seq<Piece>, open: Option<string>)
    ensures GapOk(gap) && (open.Some? ==> '\n' !in open.value && SkipLayout(s) == "")
    ensures s == GapText(gap) + if open.Some? then "#" + open.value else SkipLayout(s)
    decreases |s|
  {
    if s != "" && (IsWhitespace(s[0]) || s[0] == '#') {
      var p, rest, o := PieceSplits(s);
      if o.Some? {
        gap, open := [], o;
      } else {
        var g;
        g, open := LayoutSplits(rest);
        gap := [p] + g;
        GapCons(p, g, if open.Some? then "#" + open.value else SkipLayout(s));
      }
    } else {
      gap, open := [], None;
      assert s == "" + s;
    }
  }

  /** The first character of a string's text, as it is spelled. */
  lemma EscSplits(s: string, quote: char) returns (c: char, e: Esc, after: string)
    requires StringFrom(s, quote).Closed? && s[0] != quote && (quote == '"' || quote == '\'')
    ensures |after| < |s| && EscOk(c, e, quote) && s == EscText(c, e) + after
    ensures StringFrom(s, quote) == Before(c, StringFrom(after, quote))
  {
    if s[0] == '\\' {
      c, after := Unescape(s[1]), s[2..];
      e := if s[1] == 'n' || s[1] == 't' || s[1] == 'r' then Letter else Slashed;
    } else {
      c, e, after := s[0], Raw, s[1..];
    }
  }

  lemma StringTextCons(c: char, e: Esc, text: string, escs: seq<Esc>, x: string)
    requires |escs| == |text|
    ensures EscText(c, e) + (StringText(text, escs) + x) == StringText([c] + text, [e] + escs) + x
  {
    assert ([c] + text)[1..] == text && ([e] + escs)[1..] == escs;
  }

  lemma {:induction false} StringSplits(s: string, quote: char) returns (escs: seq<Esc>)
    requires StringFrom(s, quote).Closed? && (quote == '"' || quote == '\'')
    ensures EscsOk(StringFrom(s, quote).text, escs, quote)
    ensures s == StringText(StringFrom(s, quote).text, escs) + ([quote] + StringFrom(s, quote).rest)
    decreases |s|
  {
    if s[0] == quote {
      escs := [];
      assert s == "" + ([quote] + s[1..]);
    } else {
      var c, e, after := EscSplits(s, quote);
      var es := StringSplits(after, quote);
      escs := [e] + es;
      var r := StringFrom(after, quote);
      StringTextCons(c, e, r.text, es, [quote] + r.rest);
    }
  }

  lemma QuotedSplits(s: string) returns (l: Lexeme)
    requires s != "" && TokenFrom(s).Got? && (s[0] == '"' || s[0] == '\'')
    ensures SpellOk(l) && l.gap == [] && l.tok == TokenFrom(s).tok && s == Spell(l) + TokenFrom(s).rest
    ensures l.tok.Str?
  {
    hide StringFrom, StringText, EscsOk;
    var r := StringFrom(s[1..], s[0]);
    var escs := StringSplits(s[1..], s[0]);
    l := Lexeme([], Str(r.text), s[0], escs);
    assert s == [s[0]] + s[1..];
    assert Spell(l) + r.rest == [s[0]] + (StringText(r.text, escs) + ([s[0]] + r.rest));
  }

  lemma WordSplits(s: string) returns (l: Lexeme)
    requires s != "" && StartsWord(s[0])
    ensures TokenFrom(s).Got? && SpellOk(l) && l.gap == [] && l.tok == TokenFrom(s).tok
    ensures s == Spell(l) + TokenFrom(s).rest && Follows(l.tok, TokenFrom(s).rest)
  {
    var w := s[..RunLength(s, InWord)];
    l := Lexeme([], WordToken(w), '"', []);
    assert IsWord(w);
    WordTokenSpelling(w, l);
    assert s == w + TokenFrom(s).rest;
  }

  lemma TokenSplits(s: string) returns (l: Lexeme)
    requires s != "" && TokenFrom(s).Got?
    ensures SpellOk(l) && l.gap == [] && l.tok == TokenFrom(s).tok
    ensures s == Spell(l) + TokenFrom(s).rest && Follows(l.tok, TokenFrom(s).rest)
  {
    if s[0] == '"' || s[0] == '\'' {
      l := QuotedSplits(s);
    } else if StartsWord(s[0]) {
      l := WordSplits(s);
    } else {
      l := Lexeme([], TokenFrom(s).tok, '"', []);
      assert s == Spell(l) + TokenFrom(s).rest;
    }
  }

  lemma WordTokenSpelling(w: string, l: Lexeme)
    requires IsWord(w) && l.tok == WordToken(w)
    ensures SpellOk(l) && Spell(l) == w && Wordy(l.tok)
  {
  }

  lemma TextOkCons(l: Lexeme, ls: seq<Lexeme>, tail: Tail)
    requires TextOk(ls, tail) && GapOk(l.gap) && SpellOk(l)
    requires ls != [] && Sticky(l.tok, ls[0].tok) ==> ls[0].gap != []
    ensures TextOk([l] + ls, tail)
  {
    var all := [l] + ls;
    assert forall i :: 0 < i < |all| ==> all[i] == ls[i - 1];
    forall i | 0 < i < |all| && Sticky(all[i - 1].tok, all[i].tok) ensures all[i].gap != [] {
      assert i == 1 || all[i - 1] == ls[i - 2];
    }
  }

  /** Every text the lexer accepts is a legal way to write its tokens down. */
  lemma {:induction false} AcceptedTextIsLegal(s: string) returns (ls: seq<Lexeme>, tail: Tail)
    requires LexFrom(s).Tokens?
    ensures TextOk(ls, tail) && Render(ls, tail) == s && LexFrom(s).ts == Toks(ls) + [Eof]
    decreases |s|
  {
    var gap, open := LayoutSplits(s);
    var t := SkipLayout(s);
    if t == "" {
      ls, tail := [], Tail(gap, open);
      assert Toks(ls) + [Eof] == [Eof];
    } else {
      var bare := TokenSplits(t);
      var l := bare.(gap := gap);
      var more;
      more, tail := AcceptedTextIsLegal(TokenFrom(t).rest);
      ls := [l] + more;
      hide TextOk, Render, Spell, SpellOk, TokenFrom;
      GapNeeded(l.tok, more, tail);
      TextOkCons(l, more, tail);
      RenderCons(l, more, tail);
      ToksCons(l, more);
    }
  }

  /** Where the text does not extend a token though the next one would stick to it, there is layout. */
  lemma GapNeeded(t: Token, ls: seq<Lexeme>, tail: Tail)
    requires TextOk(ls, tail) && Follows(t, Render(ls, tail))
    ensures ls != [] && Sticky(t, ls[0].tok) ==> ls[0].gap != []
  {
    if ls != [] && ls[0].gap == [] {
      FirstCharacter(ls[0]);
      assert Render(ls, tail)[0] == Spell(ls[0])[0];
    }
  }
}
