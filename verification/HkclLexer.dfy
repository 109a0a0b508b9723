/** The lexer of the constraint language (`lexer.rs`). Character classes are those of ASCII. */
module HkclLexer {
  import opened Wrappers

  datatype Token =
    | Validity | Require | Deny | Otherwise | Reject | Accept
    | Ident(name: string) | Number(digits: string) | Str(text: string)
    | LParen | RParen | LBrace | RBrace | Semicolon | Colon | Comma | Arrow
    | Eof

  datatype LexError = UnterminatedEscape | UnterminatedString | UnexpectedCharacter(ch: char, line: nat)

  // ---- characters ----

  predicate IsWhitespace(c: char) { c == ' ' || 9 as char <= c <= 13 as char }

  predicate IsDigit(c: char) { '0' <= c <= '9' }

  predicate IsAlpha(c: char) { 'a' <= c <= 'z' || 'A' <= c <= 'Z' }

  predicate StartsWord(c: char) { IsAlpha(c) || c == '_' }

  predicate InWord(c: char) { IsAlpha(c) || IsDigit(c) || c == '_' }

  predicate InNumber(c: char) { IsDigit(c) || c == '.' }

  function Newlines(s: string): nat {
    if s == "" then 0 else Newlines(s[..|s| - 1]) + if s[|s| - 1] == '\n' then 1 else 0
  }

  /** The number of line ends. */
  lemma {:induction false} NewlinesCount(s: string)
    ensures Newlines(s) == multiset(s)['\n']
  {
    if s != "" {
      NewlinesCount(s[..|s| - 1]);
      assert s == s[..|s| - 1] + [s[|s| - 1]];
    }
  }

  // ---- what each reading loop makes of the text that is left ----

  function SkipLine(s: string): (r: string)
    ensures |r| <= |s| && (s != "" ==> |r| < |s|)
  {
    if s == "" then "" else if s[0] == '\n' then s[1..] else SkipLine(s[1..])
  }

  function SkipLayout(s: string): (r: string)
    ensures |r| <= |s|
    decreases |s|
  {
    if s == "" then s
    else if IsWhitespace(s[0]) then SkipLayout(s[1..])
    else if s[0] == '#' then SkipLayout(SkipLine(s))
    else s
  }

  /** The character that a backslash and `c` stand for. */
  function Unescape(c: char): char {
    if c == 'n' then '\n' else if c == 't' then '\t' else if c == 'r' then '\r' else c
  }

  datatype StringRead = Closed(text: string, rest: string) | NoEscape | NoQuote

  function Before(c: char, r: StringRead): StringRead {
    if r.Closed? then Closed([c] + r.text, r.rest) else r
  }

  function Joined(text: string, r: StringRead): StringRead {
    if r.Closed? then Closed(text + r.text, r.rest) else r
  }

  lemma JoinedBefore(text: string, c: char, r: StringRead)
    ensures Joined(text, Before(c, r)) == Joined(text + [c], r)
  {
    if r.Closed? { assert text + ([c] + r.text) == text + [c] + r.text; }
  }

  /** The rest of a string after its opening quote. */
  function StringFrom(s: string, quote: char): (r: StringRead)
    ensures r.Closed? ==> |r.rest| < |s|
    decreases |s|
  {
    if s == "" then NoQuote
    else if s[0] == quote then Closed("", s[1..])
    else if s[0] == '\\' then
      if |s| == 1 then NoEscape else Before(Unescape(s[1]), StringFrom(s[2..], quote))
    else Before(s[0], StringFrom(s[1..], quote))
  }

  function RunLength(s: string, p: char -> bool): (n: nat)
    ensures n <= |s| && (forall k :: 0 <= k < n ==> p(s[k])) && (n < |s| ==> !p(s[n]))
  {
    if s != "" && p(s[0]) then 1 + RunLength(s[1..], p) else 0
  }

  function WordToken(w: string): Token {
    if w == "validity" then Validity else if w == "require" then Require else if w == "deny" then Deny
    else if w == "otherwise" then Otherwise else if w == "reject" then Reject else if w == "accept" then Accept
    else Ident(w)
  }

  function Symbol(c: char): Option<Token> {
    if c == '(' then Some(LParen) else if c == ')' then Some(RParen)
    else if c == '{' then Some(LBrace) else if c == '}' then Some(RBrace)
    else if c == ';' then Some(Semicolon) else if c == ':' then Some(Colon) else if c == ',' then Some(Comma)
    else None
  }

  /** One token off the front: the token and what follows, or the failure. `left` is how much text remained
      when an unexpected character was met. */
  datatype TokenRead = Got(tok: Token, rest: string) | Unclosed(escape: bool) | Unexpected(ch: char, left: nat)

  function QuotedRead(r: StringRead): TokenRead {
    match r
    case Closed(text, rest) => Got(Str(text), rest)
    case NoEscape => Unclosed(true)
    case NoQuote => Unclosed(false)
  }

  function TokenFrom(s: string): (r: TokenRead)
    requires s != ""
    ensures r.Got? ==> |r.rest| < |s|
    ensures r.Unexpected? ==> r.left == |s|
  {
    var c := s[0];
    if Symbol(c).Some? then Got(Symbol(c).value, s[1..])
    else if c == '=' && |s| > 1 && s[1] == '>' then Got(Arrow, s[2..])
    else if c == '"' || c == '\'' then QuotedRead(StringFrom(s[1..], c))
    else if IsDigit(c) then
      var n := RunLength(s, InNumber);
      Got(Number(s[..n]), s[n..])
    else if StartsWord(c) then
      var n := RunLength(s, InWord);
      Got(WordToken(s[..n]), s[n..])
    else Unexpected(c, |s|)
  }

  datatype Lexed = Tokens(ts: seq<Token>) | Failed(read: TokenRead)

  function Prepend(ts: seq<Token>, r: Lexed): Lexed {
    if r.Tokens? then Tokens(ts + r.ts) else r
  }

  /** All tokens of the text, `Eof` last. */
  function LexFrom(s: string): (r: Lexed)
    ensures r.Failed? ==> !r.read.Got? && (r.read.Unexpected? ==> r.read.left <= |s|)
    decreases |s|
  {
    var t := SkipLayout(s);
    if t == "" then Tokens([Eof])
    else
      var r := TokenFrom(t);
      if r.Got? then Prepend([r.tok], LexFrom(r.rest)) else Failed(r)
  }

  /** `Lexer::new(source).tokenize()`. */
  function Lex(source: string): Result<seq<Token>, LexError> {
    var r := LexFrom(source);
    if r.Tokens? then Ok(r.ts) else Err(ErrorOf(source, r.read))
  }

  function ErrorOf(source: string, read: TokenRead): LexError
    requires !read.Got? && (read.Unexpected? ==> read.left <= |source|)
  {
    if read.Unclosed? then (if read.escape then UnterminatedEscape else UnterminatedString)
    else UnexpectedCharacter(read.ch, 1 + Newlines(source[..|source| - read.left]))
  }

  // ---- the lexer itself ----

  class Lexer {
    const source: string
    var pos: nat
    var line: nat

    ghost predicate Valid()
      reads this
    {
      pos <= |source| && line == 1 + Newlines(source[..pos])
    }

    /** The text not yet read. */
    ghost function Rest(): string
      requires Valid()
      reads this
    {
      source[pos..]
    }

    constructor (source: string)
      ensures Valid() && this.source == source && Rest() == source
    {
      this.source := source;
      pos, line := 0, 1;
    }

    function PeekChar(offset: nat): Option<char>
      reads this
    {
      if pos + offset < |source| then Some(source[pos + offset]) else None
    }

    method Advance()
      requires Valid()
      modifies this`pos, this`line
      ensures Valid()
      ensures Rest() == if old(Rest()) == "" then "" else old(Rest())[1..]
    {
      if pos < |source| {
        assert source[..pos + 1][..pos] == source[..pos];
        if source[pos] == '\n' { line := line + 1; }
        pos := pos + 1;
      }
    }

    method SkipWhitespace()
      requires Valid()
      modifies this`pos, this`line
      ensures Valid() && Rest() == SkipLayout(old(Rest()))
    {
      while pos < |source|
        invariant Valid() && SkipLayout(Rest()) == SkipLayout(old(Rest()))
        decreases |source| - pos
      {
        if IsWhitespace(source[pos]) {
          Advance();
        } else if source[pos] == '#' {
          SkipComment();
        } else {
          break;
        }
      }
    }

    method SkipComment()
      requires Valid()
      modifies this`pos, this`line
      ensures Valid() && Rest() == SkipLine(old(Rest())) && pos >= old(pos)
    {
      while pos < |source|
        invariant Valid() && SkipLine(Rest()) == SkipLine(old(Rest())) && pos >= old(pos)
        decreases |source| - pos
      {
        var c := source[pos];
        Advance();
        if c == '\n' { return; }
      }
    }

    method ReadString(quote: char) returns (r: Result<string, LexError>)
      requires Valid() && Rest() != ""
      modifies this`pos, this`line
      ensures Valid()
      ensures match StringFrom(old(Rest())[1..], quote)
              case Closed(text, rest) => r == Ok(text) && Rest() == rest
              case NoEscape => r == Err(UnterminatedEscape)
              case NoQuote => r == Err(UnterminatedString)
    {
      Advance();
      var result := "";
      ghost var spec := StringFrom(Rest(), quote);
      while pos < |source|
        invariant Valid() && Joined(result, StringFrom(Rest(), quote)) == spec
        decreases |source| - pos
      {
        var ch := source[pos];
        ghost var s := Rest();
        if ch == quote {
          Advance();
          assert result + "" == result;
          return Ok(result);
        } else if ch == '\\' {
          Advance();
          if pos == |source| { return Err(UnterminatedEscape); }
          var c := Unescape(source[pos]);
          Advance();
          assert Rest() == s[2..];
          JoinedBefore(result, c, StringFrom(Rest(), quote));
          result := result + [c];
        } else {
          Advance();
          JoinedBefore(result, ch, StringFrom(Rest(), quote));
          result := result + [ch];
        }
      }
      return Err(UnterminatedString);
    }

    /** The loop of `read_number` and `read_ident`: the two differ in the class they accept. */
    method ReadRun(p: char -> bool) returns (result: string)
      requires Valid()
      modifies this`pos, this`line
      ensures Valid()
      ensures var n := RunLength(old(Rest()), p); result == old(Rest())[..n] && Rest() == old(Rest())[n..]
    {
      result := "";
      ghost var s, k: nat := Rest(), 0;
      while pos < |source| && p(source[pos])
        invariant Valid() && k <= |s| && result == s[..k] && Rest() == s[k..]
        invariant k + RunLength(Rest(), p) == RunLength(s, p)
        decreases |source| - pos
      {
        RunStep(s, k, p);
        result := result + [source[pos]];
        Advance();
        k := k + 1;
      }
      RunEnds(Rest(), p);
    }

    /** One round of `tokenize` at a character that is not layout: the token there, or the error with its line. */
    method ReadToken() returns (r: Result<Token, LexError>)
      requires Valid() && Rest() != ""
      modifies this`pos, this`line
      ensures Valid()
      ensures var spec := TokenFrom(old(Rest()));
              if spec.Got? then r == Ok(spec.tok) && Rest() == spec.rest else r == Err(ErrorOf(source, spec))
    {
      ghost var s := Rest();
      var ch := source[pos];
      if Symbol(ch).Some? {
        Advance();
        return Ok(Symbol(ch).value);
      } else if ch == '=' && PeekChar(1) == Some('>') {
        Advance();
        Advance();
        assert Rest() == s[2..];
        return Ok(Arrow);
      } else if ch == '"' || ch == '\'' {
        var text := ReadString(ch);
        return if text.Ok? then Ok(Str(text.value)) else Err(text.error);
      } else if IsDigit(ch) {
        var digits := ReadRun(InNumber);
        return Ok(Number(digits));
      } else if StartsWord(ch) {
        var word := ReadRun(InWord);
        return Ok(WordToken(word));
      } else {
        assert source[..|source| - |s|] == source[..pos];
        return Err(UnexpectedCharacter(ch, line));
      }
    }

    method Tokenize() returns (r: Result<seq<Token>, LexError>)
      requires Valid() && Rest() == source
      modifies this`pos, this`line
      ensures Valid() && r == Lex(source)
    {
      var tokens := [];
      while true
        invariant Valid() && LexFrom(source) == Prepend(tokens, LexFrom(Rest()))
        decreases |source| - pos
      {
        ghost var before := Rest();
        SkipWhitespace();
        if pos == |source| {
          return Ok(tokens + [Eof]);
        }
        ghost var s := Rest();
        var tok := ReadToken();
        if tok.Err? { return Err(tok.error); }
        PrependMore(tokens, tok.value, LexFrom(Rest()));
        tokens := tokens + [tok.value];
      }
    }
  }

  lemma RunStep(s: string, k: nat, p: char -> bool)
    requires k < |s| && p(s[k])
    ensures RunLength(s[k..], p) == 1 + RunLength(s[k + 1..], p) && s[k..][1..] == s[k + 1..]
    ensures s[..k] + [s[k]] == s[..k + 1]
  {
    assert s[k..][1..] == s[k + 1..];
  }

  lemma RunEnds(s: string, p: char -> bool)
    requires s == "" || !p(s[0])
    ensures RunLength(s, p) == 0
  {
  }

  lemma PrependMore(ts: seq<Token>, t: Token, r: Lexed)
    ensures Prepend(ts, Prepend([t], r)) == Prepend(ts + [t], r)
  {
    if r.Tokens? { assert ts + ([t] + r.ts) == ts + [t] + r.ts; }
  }
}
