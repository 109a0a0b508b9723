/** Boolean expressions over NAND and their truth tables (`boolean.rs`, `primitive.rs`). */
module BooleanAst {
  import opened Basics

  function Nand(a: bool, b: bool): bool { !(a && b) }

  datatype BoolExpr = Var(idx: nat) | Const(val: bool) | NandOf(left: BoolExpr, right: BoolExpr)

  // ---- building expressions ----

  function FromNot(a: BoolExpr): BoolExpr { NandOf(a, a) }

  function FromAnd(a: BoolExpr, b: BoolExpr): BoolExpr {
    var nab := NandOf(a, b);
    NandOf(nab, nab)
  }

  function FromOr(a: BoolExpr, b: BoolExpr): BoolExpr {
    NandOf(NandOf(a, a), NandOf(b, b))
  }

  function FromXor(a: BoolExpr, b: BoolExpr): BoolExpr {
    var notA, notB := NandOf(a, a), NandOf(b, b);
    NandOf(NandOf(notA, b), NandOf(a, notB))
  }

  function FromImplies(a: BoolExpr, b: BoolExpr): BoolExpr {
    NandOf(a, NandOf(b, b))
  }

  // ---- evaluating them ----

  /** All variables are below `n`; evaluation outside this scope panics. */
  predicate InScope(e: BoolExpr, n: nat) {
    match e
    case Var(idx) => idx < n
    case Const(_) => true
    case NandOf(l, r) => InScope(l, n) && InScope(r, n)
  }

  function Eval(e: BoolExpr, bindings: seq<bool>): bool
    requires InScope(e, |bindings|)
  {
    match e
    case Var(idx) => bindings[idx]
    case Const(val) => val
    case NandOf(l, r) =>
      var vl := Eval(l, bindings);
      var vr := Eval(r, bindings);
      Nand(vl, vr)
  }

  lemma ScopeOfNand(l: BoolExpr, r: BoolExpr, n: nat)
    ensures InScope(NandOf(l, r), n) <==> InScope(l, n) && InScope(r, n)
  {
  }

  lemma ConstructorsKeepScope(a: BoolExpr, b: BoolExpr, n: nat)
    ensures InScope(FromNot(a), n) <==> InScope(a, n)
    ensures InScope(FromAnd(a, b), n) <==> InScope(a, n) && InScope(b, n)
    ensures InScope(FromOr(a, b), n) <==> InScope(a, n) && InScope(b, n)
    ensures InScope(FromXor(a, b), n) <==> InScope(a, n) && InScope(b, n)
    ensures InScope(FromImplies(a, b), n) <==> InScope(a, n) && InScope(b, n)
  {
    ScopeOfNand(a, a, n);
    ScopeOfNand(b, b, n);
    ScopeOfNand(NandOf(a, a), b, n);
    ScopeOfNand(a, NandOf(b, b), n);
  }

  /** The constructors compute the connectives they are named after, whatever they are applied to. */
  lemma ConstructorsMean(a: BoolExpr, b: BoolExpr, v: seq<bool>)
    requires InScope(a, |v|) && InScope(b, |v|)
    ensures InScope(FromNot(a), |v|) && Eval(FromNot(a), v) == !Eval(a, v)
    ensures InScope(FromAnd(a, b), |v|) && Eval(FromAnd(a, b), v) == (Eval(a, v) && Eval(b, v))
    ensures InScope(FromOr(a, b), |v|) && Eval(FromOr(a, b), v) == (Eval(a, v) || Eval(b, v))
    ensures InScope(FromXor(a, b), |v|) && Eval(FromXor(a, b), v) == (Eval(a, v) != Eval(b, v))
    ensures InScope(FromImplies(a, b), |v|) && Eval(FromImplies(a, b), v) == (Eval(a, v) ==> Eval(b, v))
  {
    ConstructorsKeepScope(a, b, |v|);
    var notA, notB := NandOf(a, a), NandOf(b, b);
    assert Eval(notA, v) == !Eval(a, v) && Eval(notB, v) == !Eval(b, v);
    ScopeOfNand(notA, b, |v|);
    ScopeOfNand(a, notB, |v|);
    assert Eval(NandOf(notA, b), v) == (Eval(a, v) || !Eval(b, v));
    assert Eval(NandOf(a, notB), v) == (!Eval(a, v) || Eval(b, v));
  }

  // ---- formulas over all the connectives keep their meaning ----

  datatype Formula =
    | Atom(idx: nat)
    | Truth(val: bool)
    | Not(f: Formula)
    | And(l: Formula, r: Formula)
    | Or(l: Formula, r: Formula)
    | Xor(l: Formula, r: Formula)
    | Implies(l: Formula, r: Formula)

  predicate Closed(f: Formula, n: nat) {
    match f
    case Atom(idx) => idx < n
    case Truth(_) => true
    case Not(g) => Closed(g, n)
    case And(l, r) => Closed(l, n) && Closed(r, n)
    case Or(l, r) => Closed(l, n) && Closed(r, n)
    case Xor(l, r) => Closed(l, n) && Closed(r, n)
    case Implies(l, r) => Closed(l, n) && Closed(r, n)
  }

  predicate Holds(f: Formula, b: seq<bool>)
    requires Closed(f, |b|)
  {
    match f
    case Atom(idx) => b[idx]
    case Truth(val) => val
    case Not(g) => !Holds(g, b)
    case And(l, r) => Holds(l, b) && Holds(r, b)
    case Or(l, r) => Holds(l, b) || Holds(r, b)
    case Xor(l, r) => Holds(l, b) != Holds(r, b)
    case Implies(l, r) => Holds(l, b) ==> Holds(r, b)
  }

  function Translate(f: Formula): BoolExpr {
    match f
    case Atom(idx) => Var(idx)
    case Truth(val) => Const(val)
    case Not(g) => FromNot(Translate(g))
    case And(l, r) => FromAnd(Translate(l), Translate(r))
    case Or(l, r) => FromOr(Translate(l), Translate(r))
    case Xor(l, r) => FromXor(Translate(l), Translate(r))
    case Implies(l, r) => FromImplies(Translate(l), Translate(r))
  }

  /** Translating a formula through the constructors keeps its scope and its meaning. */
  lemma {:induction false} TranslationKeepsMeaning(f: Formula, b: seq<bool>)
    ensures InScope(Translate(f), |b|) <==> Closed(f, |b|)
    ensures Closed(f, |b|) ==> Eval(Translate(f), b) == Holds(f, b)
  {
    match f
    case Atom(_) =>
    case Truth(_) =>
    case Not(g) =>
      TranslationKeepsMeaning(g, b);
      Connective(g, g, b);
    case And(l, r) =>
      TranslationKeepsMeaning(l, b);
      TranslationKeepsMeaning(r, b);
      Connective(l, r, b);
    case Or(l, r) =>
      TranslationKeepsMeaning(l, b);
      TranslationKeepsMeaning(r, b);
      Connective(l, r, b);
    case Xor(l, r) =>
      TranslationKeepsMeaning(l, b);
      TranslationKeepsMeaning(r, b);
      Connective(l, r, b);
    case Implies(l, r) =>
      TranslationKeepsMeaning(l, b);
      TranslationKeepsMeaning(r, b);
      Connective(l, r, b);
  }

  lemma Connective(l: Formula, r: Formula, b: seq<bool>)
    ensures var tl, tr := Translate(l), Translate(r);
            && (InScope(FromNot(tl), |b|) <==> InScope(tl, |b|))
            && (InScope(FromAnd(tl, tr), |b|) <==> InScope(tl, |b|) && InScope(tr, |b|))
            && (InScope(FromOr(tl, tr), |b|) <==> InScope(tl, |b|) && InScope(tr, |b|))
            && (InScope(FromXor(tl, tr), |b|) <==> InScope(tl, |b|) && InScope(tr, |b|))
            && (InScope(FromImplies(tl, tr), |b|) <==> InScope(tl, |b|) && InScope(tr, |b|))
            && (InScope(tl, |b|) && InScope(tr, |b|) ==>
                  && Eval(FromNot(tl), b) == !Eval(tl, b)
                  && Eval(FromAnd(tl, tr), b) == (Eval(tl, b) && Eval(tr, b))
                  && Eval(FromOr(tl, tr), b) == (Eval(tl, b) || Eval(tr, b))
                  && Eval(FromXor(tl, tr), b) == (Eval(tl, b) != Eval(tr, b))
                  && Eval(FromImplies(tl, tr), b) == (Eval(tl, b) ==> Eval(tr, b)))
  {
    ConstructorsKeepScope(Translate(l), Translate(r), |b|);
    if InScope(Translate(l), |b|) && InScope(Translate(r), |b|) { ConstructorsMean(Translate(l), Translate(r), b); }
  }

  /** `lower_to_nand`. */
  function LowerToNand(e: BoolExpr): (r: BoolExpr)
    ensures r == e
  {
    match e
    case Var(idx) => Var(idx)
    case Const(val) => Const(val)
    case NandOf(l, r) => NandOf(LowerToNand(l), LowerToNand(r))
  }

  // ---- rows of a truth table ----

  /** `row >> k`. */
  function Shr(row: nat, k: nat): nat
    decreases k
  {
    if k == 0 then row else Shr(row / 2, k - 1)
  }

  /** The assignment of a row: its binary digits, the most significant first. */
  function Bindings(row: nat, n: nat): (b: seq<bool>)
    ensures |b| == n
  {
    seq(n, i requires 0 <= i < n => Shr(row, n - 1 - i) % 2 == 1)
  }

  /** The row of an assignment. */
  function RowOf(b: seq<bool>): nat {
    if b == [] then 0 else 2 * RowOf(b[..|b| - 1]) + (if b[|b| - 1] then 1 else 0)
  }

  lemma BindingsStep(row: nat, n: nat)
    requires n > 0
    ensures Bindings(row, n) == Bindings(row / 2, n - 1) + [row % 2 == 1]
  {
    forall i | 0 <= i < n ensures Bindings(row, n)[i] == (Bindings(row / 2, n - 1) + [row % 2 == 1])[i] {
      assert i < n - 1 ==> Shr(row, n - 1 - i) == Shr(row / 2, n - 2 - i);
    }
  }

  lemma {:induction false} RowOfBindings(row: nat, n: nat)
    requires row < Pow2(n)
    ensures RowOf(Bindings(row, n)) == row
  {
    if n > 0 {
      BindingsStep(row, n);
      RowOfBindings(row / 2, n - 1);
      assert Bindings(row, n)[..n - 1] == Bindings(row / 2, n - 1);
    }
  }

  lemma {:induction false} BindingsOfRow(b: seq<bool>)
    ensures RowOf(b) < Pow2(|b|) && Bindings(RowOf(b), |b|) == b
  {
    if b != [] {
      var init := b[..|b| - 1];
      BindingsOfRow(init);
      BindingsStep(RowOf(b), |b|);
      assert RowOf(b) / 2 == RowOf(init);
      assert b == init + [b[|b| - 1]];
    }
  }

  lemma {:induction false} ShrDivides(row: nat, k: nat)
    ensures Shr(row, k) == row / Pow2(k)
  {
    if k > 0 {
      assert Pow2(k) == 2 * Pow2(k - 1);
      hide Pow2;
      ShrDivides(row / 2, k - 1);
      HalfFirst(row, Pow2(k - 1), Pow2(k));
    }
  }

  lemma HalfFirst(v: nat, p: nat, pp: nat)
    requires p > 0 && pp == 2 * p
    ensures v / 2 / p == v / pp
  {
    var q, r := v / 2 / p, v / 2 % p;
    assert v / 2 == p * q + r;
    assert v == pp * q + (2 * r + v % 2);
    assert 0 <= 2 * r + v % 2 < pp;
    QuotientIs(v, pp, q, 2 * r + v % 2);
  }

  /** Variable `i` of a row is its binary digit worth `2^(n - 1 - i)`. */
  lemma RowDigits(row: nat, n: nat, i: nat)
    requires i < n
    ensures Bindings(row, n)[i] <==> (row / Pow2(n - 1 - i)) % 2 == 1
  {
    ShrDivides(row, n - 1 - i);
  }

  /** Rows and assignments correspond one to one. */
  lemma RowsAreAssignments(n: nat, row: nat, b: seq<bool>)
    requires |b| == n
    ensures row < Pow2(n) && Bindings(row, n) == b <==> row == RowOf(b)
  {
    BindingsOfRow(b);
    if row < Pow2(n) && Bindings(row, n) == b { RowOfBindings(row, n); }
  }

  // ---- truth tables and equivalence ----

  /** One row per assignment, in binary order. */
  method TruthTable(e: BoolExpr, n: nat) returns (table: seq<(seq<bool>, bool)>)
    requires n < 64 && InScope(e, n)
    ensures |table| == Pow2(n)
    ensures forall b: seq<bool> | |b| == n ::
              RowOf(b) < |table| && table[RowOf(b)] == (b, Eval(e, b))
  {
    var rows := Pow2(n);
    table := [];
    for row := 0 to rows
      invariant |table| == row
      invariant forall k :: 0 <= k < row ==> table[k] == (Bindings(k, n), Eval(e, Bindings(k, n)))
    {
      var bindings := Bindings(row, n);
      var result := Eval(e, bindings);
      table := table + [(bindings, result)];
    }
    forall b: seq<bool> | |b| == n ensures RowOf(b) < rows && table[RowOf(b)] == (b, Eval(e, b)) {
      BindingsOfRow(b);
    }
  }

  ghost predicate Equivalent(a: BoolExpr, b: BoolExpr, n: nat)
    requires InScope(a, n) && InScope(b, n)
  {
    forall v: seq<bool> | |v| == n :: Eval(a, v) == Eval(b, v)
  }

  /** Comparing the tables decides equivalence on every assignment. */
  method FunctionallyEquivalent(a: BoolExpr, b: BoolExpr, n: nat) returns (r: bool)
    requires n < 64 && InScope(a, n) && InScope(b, n)
    ensures r <==> Equivalent(a, b, n)
  {
    var ta := TruthTable(a, n);
    var tb := TruthTable(b, n);
    r := forall k :: 0 <= k < |ta| ==> ta[k].1 == tb[k].1;
    if r {
      forall v: seq<bool> | |v| == n ensures Eval(a, v) == Eval(b, v) {
        assert ta[RowOf(v)].1 == tb[RowOf(v)].1;
      }
    } else {
      var k :| 0 <= k < |ta| && ta[k].1 != tb[k].1;
      RowOfBindings(k, n);
      assert Eval(a, Bindings(k, n)) != Eval(b, Bindings(k, n));
    }
  }

  // ---- NAND is enough ----

  lemma {:induction false} EvalPrefix(e: BoolExpr, b: seq<bool>, v: bool)
    requires InScope(e, |b|)
    ensures InScope(e, |b + [v]|) && Eval(e, b + [v]) == Eval(e, b)
  {
    match e
    case Var(_) =>
    case Const(_) =>
    case NandOf(l, r) =>
      EvalPrefix(l, b, v);
      EvalPrefix(r, b, v);
  }

  function Choose(v: BoolExpr, low: BoolExpr, high: BoolExpr): BoolExpr {
    FromOr(FromAnd(v, high), FromAnd(FromNot(v), low))
  }

  lemma Chosen(low: BoolExpr, high: BoolExpr, n: nat)
    requires n > 0 && InScope(low, n) && InScope(high, n)
    ensures InScope(Choose(Var(n - 1), low, high), n)
    ensures forall b: seq<bool> | |b| == n ::
              Eval(Choose(Var(n - 1), low, high), b) == if b[n - 1] then Eval(high, b) else Eval(low, b)
  {
    var v := Var(n - 1);
    var yes, no := FromAnd(v, high), FromAnd(FromNot(v), low);
    ConstructorsKeepScope(v, high, n);
    ConstructorsKeepScope(FromNot(v), low, n);
    ConstructorsKeepScope(yes, no, n);
    forall b: seq<bool> | |b| == n
      ensures Eval(Choose(v, low, high), b) == if b[n - 1] then Eval(high, b) else Eval(low, b)
    {
      ConstructorsMean(v, high, b);
      ConstructorsMean(FromNot(v), low, b);
      ConstructorsMean(yes, no, b);
    }
  }

  /** An expression for a Boolean function, by deciding on the last variable. */
  function Express(f: seq<bool> -> bool, n: nat): (e: BoolExpr)
    ensures InScope(e, n)
    decreases n
  {
    if n == 0 then Const(f([]))
    else
      var low := Express(b => f(b + [false]), n - 1);
      var high := Express(b => f(b + [true]), n - 1);
      Widen(low, n - 1);
      Widen(high, n - 1);
      Chosen(low, high, n);
      Choose(Var(n - 1), low, high)
  }

  lemma {:induction false} Widen(e: BoolExpr, n: nat)
    requires InScope(e, n)
    ensures InScope(e, n + 1)
  {
    match e
    case Var(_) =>
    case Const(_) =>
    case NandOf(l, r) =>
      Widen(l, n);
      Widen(r, n);
  }

  /** Every Boolean function of `n` variables is the value of some NAND expression. */
  lemma {:induction false} NandIsComplete(f: seq<bool> -> bool, b: seq<bool>)
    ensures Eval(Express(f, |b|), b) == f(b)
    decreases |b|
  {
    if b == [] {
      assert b == [];
    } else {
      var n := |b|;
      var init, last := b[..n - 1], b[n - 1];
      var low, high := Express(c => f(c + [false]), n - 1), Express(c => f(c + [true]), n - 1);
      NandIsComplete(c => f(c + [false]), init);
      NandIsComplete(c => f(c + [true]), init);
      Widen(low, n - 1);
      Widen(high, n - 1);
      Chosen(low, high, n);
      EvalPrefix(low, init, last);
      EvalPrefix(high, init, last);
      assert init + [last] == b;
    }
  }
}
