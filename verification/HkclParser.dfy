/** The constraint programs (`ast.rs`) and their recursive-descent parser (`parser.rs`). */
module HkclParser {
  import opened Wrappers
  import opened HkclLexer

  // ---- programs ----

  datatype Action = RejectIt | AcceptIt
  datatype Requirement = Predicate(name: string) | Check(name: string)
  datatype Constraint = Constraint(name: string, param: string, requires_: seq<Requirement>, otherwise_: Action)

  function RequirementHolds(r: Requirement, bindings: map<string, bool>): bool {
    if r.Check? && r.name == "always_true" then true
    else if r.Check? && r.name == "always_false" then false
    else r.name in bindings && bindings[r.name]
  }

  /** `Constraint::evaluate`: the first failing requirement decides by the otherwise action. */
  method EvaluateConstraint(c: Constraint, bindings: map<string, bool>) returns (r: bool)
    ensures r <==> ConstraintHolds(c, bindings)
    ensures r <==> c.otherwise_ == AcceptIt || forall j :: 0 <= j < |c.requires_| ==>
              || c.requires_[j] == Check("always_true")
              || (&& c.requires_[j] != Check("always_false")
                  && c.requires_[j].name in bindings && bindings[c.requires_[j].name])
  {
    for i := 0 to |c.requires_|
      invariant forall j :: 0 <= j < i ==> RequirementHolds(c.requires_[j], bindings)
    {
      if !RequirementHolds(c.requires_[i], bindings) { return c.otherwise_ == AcceptIt; }
    }
    return true;
  }

  /** All requirements hold, or failures are accepted anyway. */
  predicate ConstraintHolds(c: Constraint, bindings: map<string, bool>) {
    c.otherwise_ == AcceptIt || forall j :: 0 <= j < |c.requires_| ==> RequirementHolds(c.requires_[j], bindings)
  }

  predicate ProgramHolds(p: seq<Constraint>, bindings: map<string, bool>) {
    forall i :: 0 <= i < |p| ==> ConstraintHolds(p[i], bindings)
  }

  /** Making more names true never turns an accepted program into a rejected one. */
  lemma ProgramsAreMonotone(p: seq<Constraint>, a: map<string, bool>, b: map<string, bool>)
    requires forall x :: x in a && a[x] ==> x in b && b[x]
    requires ProgramHolds(p, a)
    ensures ProgramHolds(p, b)
  {
    forall i | 0 <= i < |p| ensures ConstraintHolds(p[i], b) {
      assert ConstraintHolds(p[i], a);
    }
  }

  // ---- parse trees: what was written, not only what it means ----

  datatype ReqTree = ReqTree(name: string, call: bool)
  datatype Tree = Tree(name: string, param: string, quoted: bool, reqs: seq<ReqTree>, otherwise_: Option<Action>)

  function ReqMeaning(r: ReqTree): Requirement { if r.call then Check(r.name) else Predicate(r.name) }

  function ReqsMeaning(rs: seq<ReqTree>): (r: seq<Requirement>)
    ensures |r| == |rs| && forall i :: 0 <= i < |rs| ==> r[i] == ReqMeaning(rs[i])
  {
    seq(|rs|, i requires 0 <= i < |rs| => ReqMeaning(rs[i]))
  }

  /** A missing `otherwise` means reject. */
  function Meaning(t: Tree): Constraint {
    Constraint(t.name, t.param, ReqsMeaning(t.reqs), if t.otherwise_.Some? then t.otherwise_.value else RejectIt)
  }

  function ProgramMeaning(ts: seq<Tree>): (r: seq<Constraint>)
    ensures |r| == |ts| && forall i :: 0 <= i < |ts| ==> r[i] == Meaning(ts[i])
  {
    seq(|ts|, i requires 0 <= i < |ts| => Meaning(ts[i]))
  }

  // ---- what the parser makes of the tokens that are left ----

  datatype ParseError = Expected(expected: Token, got: Token) | NoName | NoParam | NoAction | NoRequirement

  /** A parsed value with the tokens behind it, or the error. */
  datatype Parsed<+T> = Done(value: T, rest: seq<Token>) | Bad(error: ParseError) {
    predicate IsFailure() { Bad? }

    function PropagateFailure<U>(): Parsed<U>
      requires Bad?
    {
      Bad(error)
    }

    function Extract(): (T, seq<Token>)
      requires Done?
    {
      (value, rest)
    }
  }

  /** The current token; past the end it is `Eof`. */
  function Cur(ts: seq<Token>): Token { if ts == [] then Eof else ts[0] }

  function Drop(ts: seq<Token>): seq<Token> { if ts == [] then [] else ts[1..] }

  predicate SameKind(a: Token, b: Token) {
    a == b || (a.Ident? && b.Ident?) || (a.Number? && b.Number?) || (a.Str? && b.Str?)
  }

  function Take(ts: seq<Token>, t: Token): (r: Parsed<()>)
    ensures r.Done? && t != Eof ==> |r.rest| < |ts|
  {
    if SameKind(Cur(ts), t) then Done((), Drop(ts)) else Bad(Expected(t, Cur(ts)))
  }

  function ReqFrom(ts: seq<Token>): (r: Parsed<ReqTree>)
    ensures r.Done? ==> |r.rest| < |ts|
  {
    if !Cur(ts).Ident? then Bad(NoRequirement)
    else
      var name, ts := Cur(ts).name, Drop(ts);
      if Cur(ts) != LParen then Done(ReqTree(name, false), ts)
      else
        var (_, ts) :- Take(Drop(ts), RParen);
        Done(ReqTree(name, true), ts)
  }

  /** `require ... ;` */
  function OneReqFrom(ts: seq<Token>): (r: Parsed<ReqTree>)
    ensures r.Done? ==> |r.rest| < |ts|
  {
    var (_, ts1) :- Take(ts, Require);
    var (req, ts2) :- ReqFrom(ts1);
    var (_, ts3) :- Take(ts2, Semicolon);
    Done(req, ts3)
  }

  function ReqsFrom(ts: seq<Token>): (r: Parsed<seq<ReqTree>>)
    ensures r.Done? ==> |r.rest| <= |ts|
    decreases |ts|
  {
    if Cur(ts) == Otherwise || Cur(ts) == RBrace then Done([], ts)
    else
      var (req, ts1) :- OneReqFrom(ts);
      var (reqs, ts2) :- ReqsFrom(ts1);
      Done([req] + reqs, ts2)
  }

  function OtherwiseFrom(ts: seq<Token>): (r: Parsed<Option<Action>>)
    ensures r.Done? ==> |r.rest| <= |ts|
  {
    if Cur(ts) != Otherwise then Done(None, ts)
    else
      var t := Cur(Drop(ts));
      if t != Reject && t != Accept then Bad(NoAction)
      else
        var (_, ts) :- Take(Drop(Drop(ts)), Semicolon);
        Done(Some(if t == Reject then RejectIt else AcceptIt), ts)
  }

  /** `validity ( name )`. */
  function NameFrom(ts: seq<Token>): (r: Parsed<string>)
    ensures r.Done? ==> |r.rest| < |ts|
  {
    var (_, ts) :- Take(ts, Validity);
    var (_, ts) :- Take(ts, LParen);
    if !Cur(ts).Ident? then Bad(NoName)
    else
      var name := Cur(ts).name;
      var (_, ts) :- Take(Drop(ts), RParen);
      Done(name, ts)
  }

  /** The parameter, with whether it was quoted, and the opening brace. */
  function ParamFrom(ts: seq<Token>): (r: Parsed<(string, bool)>)
    ensures r.Done? ==> |r.rest| <= |ts|
  {
    var t := Cur(ts);
    if !t.Ident? && !t.Str? then Bad(NoParam)
    else
      var (_, ts) :- Take(Drop(ts), LBrace);
      Done((if t.Ident? then t.name else t.text, t.Str?), ts)
  }

  function HeadFrom(ts: seq<Token>): (r: Parsed<(string, string, bool)>)
    ensures r.Done? ==> |r.rest| < |ts|
  {
    var (name, ts) :- NameFrom(ts);
    var (param, ts) :- ParamFrom(ts);
    Done((name, param.0, param.1), ts)
  }

  function TreeFrom(ts: seq<Token>): (r: Parsed<Tree>)
    ensures r.Done? ==> |r.rest| < |ts|
  {
    var (head, ts) :- HeadFrom(ts);
    var (reqs, ts) :- ReqsFrom(ts);
    var (action, ts) :- OtherwiseFrom(ts);
    var (_, ts) :- Take(ts, RBrace);
    Done(Tree(head.0, head.1, head.2, reqs, action), ts)
  }

  function TreesFrom(ts: seq<Token>): Parsed<seq<Tree>>
    decreases |ts|
  {
    if Cur(ts) == Eof then Done([], ts)
    else
      var (tree, ts1) :- TreeFrom(ts);
      var (trees, ts2) :- TreesFrom(ts1);
      Done([tree] + trees, ts2)
  }

  /** `Parser::new(tokens).parse()`. */
  function Parse(tokens: seq<Token>): Result<seq<Constraint>, ParseError> {
    var r := TreesFrom(tokens);
    if r.Done? then Ok(ProgramMeaning(r.value)) else Err(r.error)
  }

  // ---- the parser itself ----

  class Parser {
    const tokens: seq<Token>
    var pos: nat

    ghost predicate Valid()
      reads this
    {
      pos <= |tokens|
    }

    ghost function Rest(): seq<Token>
      requires Valid()
      reads this
    {
      tokens[pos..]
    }

    constructor (tokens: seq<Token>)
      ensures Valid() && this.tokens == tokens && Rest() == tokens
    {
      this.tokens := tokens;
      pos := 0;
    }

    function Current(): (t: Token)
      requires Valid()
      reads this
      ensures t == Cur(Rest())
    {
      if pos < |tokens| then tokens[pos] else Eof
    }

    method Advance()
      requires Valid()
      modifies this`pos
      ensures Valid() && Rest() == Drop(old(Rest()))
    {
      if pos < |tokens| { pos := pos + 1; }
    }

    method Expect(expected: Token) returns (r: Result<(), ParseError>)
      requires Valid()
      modifies this`pos
      ensures Valid()
      ensures match Take(old(Rest()), expected)
              case Done(_, rest) => r.Ok? && Rest() == rest
              case Bad(e) => r == Err(e)
    {
      if SameKind(Current(), expected) {
        Advance();
        return Ok(());
      }
      return Err(Expected(expected, Current()));
    }

    method ParseRequirement() returns (r: Result<Requirement, ParseError>)
      requires Valid()
      modifies this`pos
      ensures Valid()
      ensures match ReqFrom(old(Rest()))
              case Done(req, rest) => r == Ok(ReqMeaning(req)) && Rest() == rest
              case Bad(e) => r == Err(e)
    {
      if !Current().Ident? { return Err(NoRequirement); }
      var name := Current().name;
      Advance();
      if Current() == LParen {
        Advance();
        var closed := Expect(RParen);
        if closed.Err? { return Err(closed.error); }
        return Ok(Check(name));
      }
      return Ok(Predicate(name));
    }

    /** `validity ( name )`. */
    method ParseName() returns (r: Result<string, ParseError>)
      requires Valid()
      modifies this`pos
      ensures Valid()
      ensures match NameFrom(old(Rest()))
              case Done(name, rest) => r == Ok(name) && Rest() == rest
              case Bad(e) => r == Err(e)
    {
      var e := Expect(Validity);
      if e.Err? { return Err(e.error); }
      e := Expect(LParen);
      if e.Err? { return Err(e.error); }
      if !Current().Ident? { return Err(NoName); }
      var name := Current().name;
      Advance();
      e := Expect(RParen);
      if e.Err? { return Err(e.error); }
      return Ok(name);
    }

    /** The parameter and the opening brace. */
    method ParseParam() returns (r: Result<string, ParseError>)
      requires Valid()
      modifies this`pos
      ensures Valid()
      ensures match ParamFrom(old(Rest()))
              case Done(param, rest) => r == Ok(param.0) && Rest() == rest
              case Bad(e) => r == Err(e)
    {
      var t := Current();
      if !t.Ident? && !t.Str? { return Err(NoParam); }
      Advance();
      var e := Expect(LBrace);
      if e.Err? { return Err(e.error); }
      return Ok(if t.Ident? then t.name else t.text);
    }

    /** `validity ( name ) param {`. */
    method ParseHead() returns (r: Result<(string, string), ParseError>)
      requires Valid()
      modifies this`pos
      ensures Valid()
      ensures match HeadFrom(old(Rest()))
              case Done(head, rest) => r == Ok((head.0, head.1)) && Rest() == rest
              case Bad(e) => r == Err(e)
    {
      hide NameFrom, ParamFrom;
      var name := ParseName();
      if name.Err? { return Err(name.error); }
      var param := ParseParam();
      if param.Err? { return Err(param.error); }
      return Ok((name.value, param.value));
    }

    /** The body of the loop over `require` statements. */
    method ParseOneRequirement() returns (r: Result<Requirement, ParseError>)
      requires Valid()
      modifies this`pos
      ensures Valid()
      ensures match OneReqFrom(old(Rest()))
              case Done(req, rest) => r == Ok(ReqMeaning(req)) && Rest() == rest
              case Bad(e) => r == Err(e)
    {
      var e := Expect(Require);
      if e.Err? { return Err(e.error); }
      r := ParseRequirement();
      if r.Err? { return; }
      e := Expect(Semicolon);
      if e.Err? { return Err(e.error); }
    }

    /** The loop itself, which stops at `otherwise` or the closing brace. */
    method ParseRequirements() returns (r: Result<seq<Requirement>, ParseError>)
      requires Valid()
      modifies this`pos
      ensures Valid()
      ensures match ReqsFrom(old(Rest()))
              case Done(reqs, rest) => r == Ok(ReqsMeaning(reqs)) && Rest() == rest
              case Bad(e) => r == Err(e)
    {
      ghost var trees: seq<ReqTree> := [];
      ghost var whole := ReqsFrom(Rest());
      var reqs := [];
      AfterNoReqs(whole);
      while Current() != Otherwise && Current() != RBrace
        invariant Valid() && reqs == ReqsMeaning(trees)
        invariant whole == AfterReqs(trees, ReqsFrom(Rest()))
        decreases |tokens| - pos
      {
        ghost var before := Rest();
        ghost var tree := OneReqFrom(before);
        ReqsStep(before);
        var req := ParseOneRequirement();
        if req.Err? { return Err(req.error); }
        AfterReqsMore(trees, tree.value, ReqsFrom(Rest()));
        trees, reqs := trees + [tree.value], reqs + [req.value];
      }
      AfterReqsEnd(trees, Rest());
      return Ok(reqs);
    }

    /** The optional `otherwise` clause; `Reject` when there is none. */
    method ParseOtherwise() returns (r: Result<Action, ParseError>)
      requires Valid()
      modifies this`pos
      ensures Valid()
      ensures match OtherwiseFrom(old(Rest()))
              case Done(action, rest) => r == Ok(if action.Some? then action.value else RejectIt) && Rest() == rest
              case Bad(e) => r == Err(e)
    {
      var action := RejectIt;
      if Current() == Otherwise {
        Advance();
        if Current() == Reject {
          Advance();
        } else if Current() == Accept {
          Advance();
          action := AcceptIt;
        } else {
          return Err(NoAction);
        }
        var e := Expect(Semicolon);
        if e.Err? { return Err(e.error); }
      }
      return Ok(action);
    }

    method ParseConstraint() returns (r: Result<Constraint, ParseError>)
      requires Valid()
      modifies this`pos
      ensures Valid()
      ensures match TreeFrom(old(Rest()))
              case Done(tree, rest) => r == Ok(Meaning(tree)) && Rest() == rest
              case Bad(e) => r == Err(e)
    {
      hide HeadFrom, ReqsFrom, OtherwiseFrom;
      var head := ParseHead();
      if head.Err? { return Err(head.error); }
      var reqs := ParseRequirements();
      if reqs.Err? { return Err(reqs.error); }
      var action := ParseOtherwise();
      if action.Err? { return Err(action.error); }
      var e := Expect(RBrace);
      if e.Err? { return Err(e.error); }
      return Ok(Constraint(head.value.0, head.value.1, reqs.value, action.value));
    }

    method ParseProgram() returns (r: Result<seq<Constraint>, ParseError>)
      requires Valid() && Rest() == tokens
      modifies this`pos
      ensures Valid() && r == Parse(tokens)
    {
      ghost var trees: seq<Tree> := [];
      ghost var whole := TreesFrom(Rest());
      var program := [];
      AfterNoTrees(whole);
      while Current() != Eof
        invariant Valid() && program == ProgramMeaning(trees)
        invariant whole == AfterTrees(trees, TreesFrom(Rest()))
        decreases |tokens| - pos
      {
        ghost var before := Rest();
        ghost var tree := TreeFrom(before);
        TreesStep(before);
        var constraint := ParseConstraint();
        if constraint.Err? { return Err(constraint.error); }
        AfterTreesMore(trees, tree.value, TreesFrom(Rest()));
        MeaningOfMore(trees, tree.value);
        trees, program := trees + [tree.value], program + [constraint.value];
      }
      AfterTreesEnd(trees, Rest());
      return Ok(program);
    }
  }

  lemma MeaningOfMore(trees: seq<Tree>, tree: Tree)
    ensures ProgramMeaning(trees + [tree]) == ProgramMeaning(trees) + [Meaning(tree)]
  {
  }

  lemma TreesStep(ts: seq<Token>)
    requires Cur(ts) != Eof
    ensures match TreeFrom(ts)
            case Done(tree, rest) => TreesFrom(ts) == AfterTrees([tree], TreesFrom(rest))
            case Bad(e) => TreesFrom(ts) == Bad(e)
  {
  }

  lemma AfterTreesEnd(trees: seq<Tree>, ts: seq<Token>)
    requires Cur(ts) == Eof
    ensures AfterTrees(trees, TreesFrom(ts)) == Done(trees, ts)
  {
    assert trees + [] == trees;
  }

  lemma ReqsStep(ts: seq<Token>)
    requires Cur(ts) != Otherwise && Cur(ts) != RBrace
    ensures match OneReqFrom(ts)
            case Done(req, rest) => ReqsFrom(ts) == AfterReqs([req], ReqsFrom(rest))
            case Bad(e) => ReqsFrom(ts) == Bad(e)
  {
  }

  lemma AfterReqsEnd(trees: seq<ReqTree>, ts: seq<Token>)
    requires Cur(ts) == Otherwise || Cur(ts) == RBrace
    ensures AfterReqs(trees, ReqsFrom(ts)) == Done(trees, ts)
  {
    assert trees + [] == trees;
  }

  function AfterReqs(trees: seq<ReqTree>, r: Parsed<seq<ReqTree>>): Parsed<seq<ReqTree>> {
    if r.Done? then Done(trees + r.value, r.rest) else r
  }

  lemma AfterNoReqs(r: Parsed<seq<ReqTree>>)
    ensures AfterReqs([], r) == r
  {
    if r.Done? { assert [] + r.value == r.value; }
  }

  lemma AfterReqsMore(trees: seq<ReqTree>, tree: ReqTree, r: Parsed<seq<ReqTree>>)
    ensures AfterReqs(trees, AfterReqs([tree], r)) == AfterReqs(trees + [tree], r)
  {
    if r.Done? { assert trees + ([tree] + r.value) == trees + [tree] + r.value; }
  }

  function AfterTrees(trees: seq<Tree>, r: Parsed<seq<Tree>>): Parsed<seq<Tree>> {
    if r.Done? then Done(trees + r.value, r.rest) else r
  }

  lemma AfterNoTrees(r: Parsed<seq<Tree>>)
    ensures AfterTrees([], r) == r
  {
    if r.Done? { assert [] + r.value == r.value; }
  }

  lemma AfterTreesMore(trees: seq<Tree>, tree: Tree, r: Parsed<seq<Tree>>)
    ensures AfterTrees(trees, AfterTrees([tree], r)) == AfterTrees(trees + [tree], r)
  {
    if r.Done? { assert trees + ([tree] + r.value) == trees + [tree] + r.value; }
  }
}
