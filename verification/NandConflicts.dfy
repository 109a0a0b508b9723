/** The conflict registry of the NAND filter (`conflicts.rs`). Expert identifiers are natural numbers. */
module NandConflicts {
  type Pair = (nat, nat)

  function Canonical(a: nat, b: nat): (p: Pair)
    ensures p.0 <= p.1 && ((p.0 == a && p.1 == b) || (p.0 == b && p.1 == a))
  {
    if a <= b then (a, b) else (b, a)
  }

  predicate Conflicting(conflicts: set<Pair>, a: nat, b: nat) { a != b && Canonical(a, b) in conflicts }

  /** The order of pairs `sort` uses: by first component, then by second. */
  predicate Before(p: Pair, q: Pair) { p.0 < q.0 || (p.0 == q.0 && p.1 < q.1) }

  ghost predicate Ascending(s: seq<Pair>) {
    forall i, j :: 0 <= i < j < |s| ==> Before(s[i], s[j])
  }

  ghost predicate Sorted(s: seq<Pair>) {
    forall i, j :: 0 <= i < j < |s| ==> !Before(s[j], s[i])
  }

  function Insert(x: Pair, s: seq<Pair>): (r: seq<Pair>)
    ensures forall p :: p in r <==> p == x || p in s
    ensures multiset(r) == multiset(s) + multiset{x}
  {
    if s == [] || !Before(s[0], x) then [x] + s
    else
      assert s == [s[0]] + s[1..];
      [s[0]] + Insert(x, s[1..])
  }

  lemma {:induction false} InsertSorted(x: Pair, s: seq<Pair>)
    requires Sorted(s)
    ensures Sorted(Insert(x, s))
    ensures Ascending(s) && x !in s ==> Ascending(Insert(x, s))
  {
    if s != [] && Before(s[0], x) {
      InsertSorted(x, s[1..]);
      var r := Insert(x, s[1..]);
      forall j | 0 <= j < |r| ensures !Before(r[j], s[0]) && (Ascending(s) && x !in s ==> Before(s[0], r[j])) {
        assert r[j] in r;
      }
    }
  }

  lemma FirstApart<T>(s: seq<T>)
    requires s != []
    ensures multiset(s) == multiset(s[1..]) + multiset{s[0]}
    ensures forall p :: p in s <==> p == s[0] || p in s[1..]
  {
    assert s == [s[0]] + s[1..];
  }

  /** `Vec::sort` on pairs. */
  function Sort(s: seq<Pair>): (r: seq<Pair>)
    ensures Sorted(r) && multiset(r) == multiset(s)
    ensures forall p :: p in r <==> p in s
  {
    if s == [] then []
    else
      InsertSorted(s[0], Sort(s[1..]));
      FirstApart(s);
      Insert(s[0], Sort(s[1..]))
  }

  lemma FirstIsLeast(s: seq<Pair>, p: Pair)
    requires Sorted(s) && |s| > 1 && s[0] != s[1] && p in s[1..]
    ensures Before(s[0], p)
  {
    var k :| 0 < k < |s| && s[k] == p;
    assert !Before(s[1], s[0]) && !Before(s[k], s[0]) && (k == 1 || !Before(s[k], s[1]));
  }

  lemma DedupStep(s: seq<Pair>, r: seq<Pair>)
    requires Sorted(s) && |s| > 1 && s[0] != s[1]
    requires Ascending(r) && forall p :: p in r <==> p in s[1..]
    ensures Ascending([s[0]] + r)
  {
    forall j | 0 <= j < |r| ensures Before(s[0], r[j]) {
      assert r[j] in r;
      FirstIsLeast(s, r[j]);
    }
  }

  /** `Vec::dedup`: of equal neighbours only one stays. */
  function Dedup(s: seq<Pair>): (r: seq<Pair>)
    requires Sorted(s)
    ensures Ascending(r) && forall p :: p in r <==> p in s
  {
    if |s| <= 1 then s
    else if s[0] == s[1] then Dedup(s[1..])
    else
      DedupStep(s, Dedup(s[1..]));
      [s[0]] + Dedup(s[1..])
  }

  lemma HeadIn<T>(s: seq<T>)
    ensures s != [] ==> s[0] in s
  {
  }

  /** The ascending list of a set of pairs. */
  ghost function Enumerate(s: set<Pair>): (r: seq<Pair>)
    ensures Ascending(r) && forall p :: p in r <==> p in s
  {
    if s == {} then []
    else
      var x :| x in s;
      InsertSorted(x, Enumerate(s - {x}));
      Insert(x, Enumerate(s - {x}))
  }

  /** There is only one. */
  lemma {:induction false} AscendingListIsUnique(a: seq<Pair>, b: seq<Pair>)
    requires Ascending(a) && Ascending(b) && forall p :: p in a <==> p in b
    ensures a == b
  {
    HeadIn(a);
    HeadIn(b);
    if a != [] {
      assert a[0] == b[0];
      forall p ensures p in a[1..] <==> p in b[1..] {
        assert p in a <==> p == a[0] || p in a[1..];
        assert p in b <==> p == b[0] || p in b[1..];
      }
      AscendingListIsUnique(a[1..], b[1..]);
      assert a == [a[0]] + a[1..] && b == [b[0]] + b[1..];
    }
  }

  /** The registered conflicts among a set of experts. */
  ghost function Induced(conflicts: set<Pair>, ids: set<nat>): set<Pair> {
    set p | p in conflicts && p.0 in ids && p.1 in ids
  }

  ghost function Elements(s: seq<nat>): set<nat> { set e | e in s }

  /** `sort` and `dedup` make the ascending list of what was found. */
  function Tidied(found: seq<Pair>, ghost all: set<Pair>): (r: seq<Pair>)
    requires forall p :: p in found <==> p in all
    ensures r == Enumerate(all)
    ensures forall i, j :: 0 <= i < j < |r| ==> r[i].0 < r[j].0 || (r[i].0 == r[j].0 && r[i].1 < r[j].1)
  {
    AscendingListIsUnique(Dedup(Sort(found)), Enumerate(all));
    Dedup(Sort(found))
  }

  ghost predicate Canonicals(conflicts: set<Pair>) { forall p :: p in conflicts ==> p.0 < p.1 }

  /** Looking at every later expert for every expert finds every registered pair. */
  lemma AllFound(conflicts: set<Pair>, experts: seq<nat>, found: seq<Pair>)
    requires Canonicals(conflicts)
    requires forall p :: p in found ==> p in conflicts && p.0 in experts && p.1 in experts
    requires forall k, l :: 0 <= k < l < |experts| && Conflicting(conflicts, experts[k], experts[l]) ==>
                            Canonical(experts[k], experts[l]) in found
    ensures forall p :: p in found <==> p in Induced(conflicts, Elements(experts))
  {
    forall p | p in conflicts && p.0 in experts && p.1 in experts ensures p in found {
      var k :| 0 <= k < |experts| && experts[k] == p.0;
      var l :| 0 <= l < |experts| && experts[l] == p.1;
      assert Canonical(p.0, p.1) == p && Canonical(p.1, p.0) == p;
      assert if k < l then Conflicting(conflicts, experts[k], experts[l])
             else Conflicting(conflicts, experts[l], experts[k]);
    }
  }

  class ConflictRegistry {
    var conflicts: set<Pair>

    ghost predicate Valid()
      reads this
    {
      Canonicals(conflicts)
    }

    constructor ()
      ensures Valid() && conflicts == {}
    {
      conflicts := {};
    }

    /** Afterwards exactly the two experts conflict in addition; an expert never conflicts with itself. */
    method RegisterConflict(a: nat, b: nat)
      requires Valid()
      modifies this
      ensures Valid()
      ensures forall x: nat, y: nat :: Conflicting(conflicts, x, y) <==>
                Conflicting(old(conflicts), x, y) || (x != y && ((x == a && y == b) || (x == b && y == a)))
    {
      if a == b { return; }
      conflicts := conflicts + {Canonical(a, b)};
    }

    method AreConflicting(a: nat, b: nat) returns (r: bool)
      ensures r == Conflicting(conflicts, a, b)
    {
      if a == b { return false; }
      var pair := Canonical(a, b);
      return pair in conflicts;
    }

    /** All registered pairs among the experts, each once, ascending by first and then by second expert, whatever
        order or repetitions the list has. */
    method FindConflicts(experts: seq<nat>) returns (found: seq<Pair>)
      requires Valid()
      ensures found == Enumerate(Induced(conflicts, Elements(experts)))
      ensures forall a: nat, b: nat :: (a, b) in found <==> (a, b) in conflicts && a in experts && b in experts
      ensures forall i, j :: 0 <= i < j < |found| ==>
                found[i].0 < found[j].0 || (found[i].0 == found[j].0 && found[i].1 < found[j].1)
    {
      found := [];
      for i := 0 to |experts|
        invariant FoundFor(experts, found, i, 0)
      {
        found := FindLater(experts, found, i);
      }
      AllFound(conflicts, experts, found);
      found := Tidied(found, Induced(conflicts, Elements(experts)));
    }

    /** All pairs found lie among the experts, and all those of the first `i` experts, and of the next one with the
        experts before place `j`, are found. */
    ghost predicate FoundFor(experts: seq<nat>, found: seq<Pair>, i: nat, j: nat)
      reads this
    {
      && (forall p :: p in found ==> p in conflicts && p.0 in experts && p.1 in experts)
      && forall k, l :: 0 <= k < l < |experts| && (k < i || (k == i && l < j)) && Conflicting(conflicts, experts[k], experts[l]) ==>
           Canonical(experts[k], experts[l]) in found
    }

    /** The inner loop: the conflicts of one expert with those behind it. */
    method FindLater(experts: seq<nat>, before: seq<Pair>, i: nat) returns (found: seq<Pair>)
      requires i < |experts| && FoundFor(experts, before, i, 0)
      ensures FoundFor(experts, found, i + 1, 0)
    {
      found := before;
      for j := i + 1 to |experts|
        invariant FoundFor(experts, found, i, j)
      {
        var hit := AreConflicting(experts[i], experts[j]);
        if hit {
          assert experts[i] in experts && experts[j] in experts;
          found := found + [Canonical(experts[i], experts[j])];
        }
      }
    }
  }
}
