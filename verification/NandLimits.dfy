/** When the order of the input matters to the NAND filter, when the admitted experts are as many as the
    conflicts allow, and when the filter follows the rule it documents: the exact conditions. */
module NandLimits {
  import opened NandConflicts
  import opened NandFilter

  // ---- order of the input ----

  /** Which of two entries of different experts goes when they conflict. */
  ghost function Outcome(a: Activation, b: Activation): nat {
    if a.id <= b.id then Loser((a.id, b.id), a.weight, b.weight) else Loser((b.id, a.id), b.weight, a.weight)
  }

  ghost predicate Rivals(s: seq<Activation>, a: Activation, b: Activation, other: Activation) {
    && a in s && b in s && other in s && a.weight > 0.0 && b.weight > 0.0 && other.weight > 0.0
    && a.id == b.id != other.id
  }

  /** All active entries of an expert fare alike against each active entry of any other expert. */
  ghost predicate Unambiguous(s: seq<Activation>) {
    forall a, b, other :: Rivals(s, a, b, other) ==> Outcome(a, other) == Outcome(b, other)
  }

  /** All active entries of an expert fare alike against the experts it has a registered conflict with. */
  ghost predicate UnambiguousUnder(conflicts: set<Pair>, s: seq<Activation>) {
    forall a, b, other :: Rivals(s, a, b, other) && Conflicting(conflicts, a.id, other.id) ==>
      Outcome(a, other) == Outcome(b, other)
  }

  /** No expert is active with two weights. */
  ghost predicate Consistent(s: seq<Activation>) {
    forall a, b :: a in s && b in s && a.weight > 0.0 && b.weight > 0.0 && a.id == b.id ==> a.weight == b.weight
  }

  /** No expert is active twice. */
  ghost predicate DistinctActive(s: seq<Activation>) {
    forall i, j :: 0 <= i < j < |s| && s[i].weight > 0.0 && s[j].weight > 0.0 ==> s[i].id != s[j].id
  }

  lemma {:induction false} WeightIsListed(s: seq<Activation>, a: Activation)
    requires a in s
    ensures Activation(a.id, WeightOf(s, a.id)) in s
  {
    if s[0].id != a.id { WeightIsListed(s[1..], a); }
  }

  /** The entry an expert counts with. */
  lemma CountedEntry(s: seq<Activation>, id: nat) returns (a: Activation)
    requires id in ActiveIds(s)
    ensures a in s && a.weight > 0.0 && a == Activation(id, Weight(s, id))
  {
    var b :| b in s && b.weight > 0.0 && b.id == id;
    WeightIsListed(Active(s), b);
    a := Activation(id, Weight(s, id));
  }

  lemma SameMembers(s: seq<Activation>, t: seq<Activation>)
    requires multiset(s) == multiset(t)
    ensures (forall a :: a in s <==> a in t) && ActiveIds(s) == ActiveIds(t)
  {
    forall a ensures a in s <==> a in t {
      assert a in multiset(s) <==> a in multiset(t);
    }
  }

  lemma SameLoser(conflicts: set<Pair>, s: seq<Activation>, t: seq<Activation>, p: Pair)
    requires UnambiguousUnder(conflicts, s) && multiset(s) == multiset(t)
    requires p in conflicts && p.0 < p.1 && {p.0, p.1} <= ActiveIds(s)
    ensures LoserIn(Active(s), p) == LoserIn(Active(t), p)
  {
    SameMembers(s, t);
    var a := CountedEntry(s, p.0);
    var b := CountedEntry(s, p.1);
    var c := CountedEntry(t, p.0);
    var d := CountedEntry(t, p.1);
    assert Rivals(s, a, c, b) && Rivals(s, b, d, c);
    assert Conflicting(conflicts, a.id, b.id) && Conflicting(conflicts, b.id, c.id);
    assert Outcome(a, b) == Outcome(c, b) && Outcome(b, c) == Outcome(d, c);
  }

  lemma {:induction false} KeptCounts(s: seq<Activation>, suppressed: set<nat>, a: Activation)
    ensures multiset(Kept(s, suppressed))[a] == if a.weight > 0.0 && a.id !in suppressed then multiset(s)[a] else 0
  {
    if s != [] {
      KeptCounts(s[1..], suppressed, a);
      assert s == [s[0]] + s[1..];
    }
  }

  /** Reordering input that is unambiguous under the registry changes nothing but the order of the output. */
  lemma OrderDoesNotMatter(conflicts: set<Pair>, s: seq<Activation>, t: seq<Activation>)
    requires Canonicals(conflicts) && UnambiguousUnder(conflicts, s) && multiset(s) == multiset(t)
    ensures Suppressed(conflicts, s) == Suppressed(conflicts, t)
    ensures multiset(Filtered(conflicts, s)) == multiset(Filtered(conflicts, t))
  {
    SameMembers(s, t);
    var cs := Enumerate(Induced(conflicts, ActiveIds(s)));
    forall p | p in cs ensures LoserIn(Active(s), p) == LoserIn(Active(t), p) {
      SameLoser(conflicts, s, t, p);
    }
    ResolveSameLosers(cs, Active(s), Active(t), {});
    forall a ensures multiset(Filtered(conflicts, s))[a] == multiset(Filtered(conflicts, t))[a] {
      KeptCounts(s, Suppressed(conflicts, s), a);
      KeptCounts(t, Suppressed(conflicts, t), a);
    }
  }

  lemma PullOut(s: seq<Activation>, a: Activation) returns (rest: seq<Activation>)
    requires a in s
    ensures multiset(s) == multiset(rest) + multiset{a}
    ensures forall b :: b in s && b != a ==> b in rest
  {
    var i :| 0 <= i < |s| && s[i] == a;
    rest := s[..i] + s[i + 1..];
    assert s == (s[..i] + [a]) + s[i + 1..];
    forall b | b in s && b != a ensures b in rest {
      assert b in multiset(s);
      assert b in multiset(rest);
    }
  }

  lemma PullThree(s: seq<Activation>, a: Activation, b: Activation, c: Activation) returns (rest: seq<Activation>)
    requires a in s && b in s && c in s && a != b && a != c && b != c
    ensures multiset(s) == multiset(rest) + multiset{c} + multiset{b} + multiset{a}
  {
    var r1 := PullOut(s, a);
    var r2 := PullOut(r1, b);
    rest := PullOut(r2, c);
  }

  lemma WeightOfFirst(x: Activation, s: seq<Activation>, id: nat)
    requires x.weight > 0.0
    ensures Weight([x] + s, id) == if x.id == id then x.weight else Weight(s, id)
  {
    assert ([x] + s)[1..] == s;
    assert Active([x] + s) == [x] + Active(s);
    assert ([x] + Active(s))[1..] == Active(s);
  }

  lemma OneConflict(s: seq<Activation>, p: Pair)
    requires p.0 < p.1 && {p.0, p.1} <= ActiveIds(s)
    ensures Suppressed({p}, s) == {LoserIn(Active(s), p)}
  {
    assert Induced({p}, ActiveIds(s)) == {p};
    AscendingListIsUnique([p], Enumerate({p}));
    ResolveMore([p], 0, Active(s), {});
    assert [p][0..] == [p] && [p][1..] == [];
  }

  /** With the two entries in front their outcome decides a conflict of the two experts. */
  lemma FrontDecides(a: Activation, other: Activation, rest: seq<Activation>)
    requires a.weight > 0.0 && other.weight > 0.0 && a.id != other.id
    ensures Suppressed({Canonical(a.id, other.id)}, [other] + ([a] + rest)) == {Outcome(a, other)}
  {
    var s, p := [other] + ([a] + rest), Canonical(a.id, other.id);
    assert s[0] == other && s[1] == a;
    assert a in s && other in s;
    assert {a.id, other.id} <= ActiveIds(s);
    WeightOfFirst(other, [a] + rest, a.id);
    WeightOfFirst(other, [a] + rest, other.id);
    WeightOfFirst(a, rest, a.id);
    OneConflict(s, p);
  }

  /** An order of the input in which a given entry of an expert meets a given other expert. */
  lemma OrderFor(s: seq<Activation>, a: Activation, b: Activation, other: Activation) returns (t: seq<Activation>)
    requires Rivals(s, a, b, other) && a != b
    ensures multiset(t) == multiset(s) && Suppressed({Canonical(a.id, other.id)}, t) == {Outcome(a, other)}
  {
    var rest := PullThree(s, other, a, b);
    t := [other] + ([a] + ([b] + rest));
    FrontDecides(a, other, [b] + rest);
    hide Suppressed, Outcome;
    ThreeInFront(other, a, b, rest);
  }

  /** Where two entries of an expert fare differently, two orders of the input give different results. */
  lemma AmbiguityMakesOrderMatter(s: seq<Activation>, a: Activation, b: Activation, other: Activation)
      returns (conflicts: set<Pair>, t: seq<Activation>, u: seq<Activation>)
    requires Rivals(s, a, b, other) && Outcome(a, other) != Outcome(b, other)
    ensures conflicts == {Canonical(a.id, other.id)} && Canonicals(conflicts)
    ensures multiset(t) == multiset(s) && multiset(u) == multiset(s)
    ensures Suppressed(conflicts, t) != Suppressed(conflicts, u)
    ensures multiset(Filtered(conflicts, t)) != multiset(Filtered(conflicts, u))
  {
    conflicts := {Canonical(a.id, other.id)};
    t := OrderFor(s, a, b, other);
    u := OrderFor(s, b, a, other);
    OutcomeIsOneOfThem(a, other);
    OutcomeIsOneOfThem(b, other);
    SameMembers(s, t);
    hide Suppressed, Outcome, Filtered;
    KeptDiffers(a, other, t, u, conflicts, Outcome(a, other), Outcome(b, other));
  }

  lemma OutcomeIsOneOfThem(a: Activation, b: Activation)
    ensures Outcome(a, b) == a.id || Outcome(a, b) == b.id
  {
  }

  lemma ThreeInFront<T>(a: T, b: T, c: T, rest: seq<T>)
    ensures multiset([a] + ([b] + ([c] + rest))) == multiset(rest) + multiset{c} + multiset{b} + multiset{a}
  {
  }

  lemma KeptDiffers(a: Activation, other: Activation, t: seq<Activation>, u: seq<Activation>, conflicts: set<Pair>, x: nat, y: nat)
    requires multiset(t) == multiset(u) && a in t && other in t && a.weight > 0.0 && other.weight > 0.0
    requires Suppressed(conflicts, t) == {x} && Suppressed(conflicts, u) == {y}
    requires x != y && (x == a.id || x == other.id) && (y == a.id || y == other.id)
    ensures multiset(Filtered(conflicts, t)) != multiset(Filtered(conflicts, u))
  {
    var gone := if x == a.id then a else other;
    KeptCounts(t, {x}, gone);
    KeptCounts(u, {y}, gone);
    assert multiset(u)[gone] > 0 by { assert gone in multiset(t); }
  }

  /** No order of the input changes who is suppressed, under any registry. */
  ghost predicate OrderIsIrrelevant(s: seq<Activation>) {
    forall conflicts, t :: Canonicals(conflicts) && multiset(t) == multiset(s) ==>
      Suppressed(conflicts, t) == Suppressed(conflicts, s)
  }

  /** No order of the input changes which entries are admitted, under any registry. */
  ghost predicate OutputIgnoresOrder(s: seq<Activation>) {
    forall conflicts, t :: Canonicals(conflicts) && multiset(t) == multiset(s) ==>
      multiset(Filtered(conflicts, t)) == multiset(Filtered(conflicts, s))
  }

  /** The order of the input is irrelevant exactly for unambiguous input. */
  lemma OrderMattersExactlyWhenAmbiguous(s: seq<Activation>)
    ensures OrderIsIrrelevant(s) <==> Unambiguous(s)
    ensures OutputIgnoresOrder(s) <==> Unambiguous(s)
  {
    if Unambiguous(s) {
      forall conflicts, t | Canonicals(conflicts) && multiset(t) == multiset(s)
        ensures Suppressed(conflicts, t) == Suppressed(conflicts, s)
        ensures multiset(Filtered(conflicts, t)) == multiset(Filtered(conflicts, s))
      {
        OrderDoesNotMatter(conflicts, s, t);
      }
    } else {
      var a, b, other :| Rivals(s, a, b, other) && Outcome(a, other) != Outcome(b, other);
      var conflicts, t, u := AmbiguityMakesOrderMatter(s, a, b, other);
      assert OrderIsIrrelevant(s) ==> Suppressed(conflicts, t) == Suppressed(conflicts, s) == Suppressed(conflicts, u);
      assert OutputIgnoresOrder(s) ==>
        multiset(Filtered(conflicts, t)) == multiset(Filtered(conflicts, s)) == multiset(Filtered(conflicts, u));
    }
  }

  /** No order of the input changes who is suppressed, whichever of the conflicts are registered. */
  ghost predicate OrderIsIrrelevantUnder(conflicts: set<Pair>, s: seq<Activation>) {
    forall some, t :: some <= conflicts && multiset(t) == multiset(s) ==> Suppressed(some, t) == Suppressed(some, s)
  }

  /** For the conflicts of one registry: the order is irrelevant, also when some of them are taken away, exactly
      if the input is unambiguous under that registry. */
  lemma OrderMattersUnderRegistry(conflicts: set<Pair>, s: seq<Activation>)
    requires Canonicals(conflicts)
    ensures OrderIsIrrelevantUnder(conflicts, s) <==> UnambiguousUnder(conflicts, s)
  {
    hide Suppressed, Outcome, Filtered, Rivals;
    if UnambiguousUnder(conflicts, s) {
      forall some, t | some <= conflicts && multiset(t) == multiset(s) ensures Suppressed(some, t) == Suppressed(some, s) {
        assert UnambiguousUnder(some, s);
        OrderDoesNotMatter(some, s, t);
      }
    } else {
      var a, b, other :|
        Rivals(s, a, b, other) && Conflicting(conflicts, a.id, other.id) && Outcome(a, other) != Outcome(b, other);
      var some, t, u := AmbiguityMakesOrderMatter(s, a, b, other);
      assert some <= conflicts;
      assert OrderIsIrrelevantUnder(conflicts, s) ==> Suppressed(some, t) == Suppressed(some, s) == Suppressed(some, u);
    }
  }

  /** Input in which no expert is active twice, or with two weights, may come in any order. */
  lemma DistinctExpertsInAnyOrder(s: seq<Activation>)
    requires Consistent(s) || DistinctActive(s)
    ensures OrderIsIrrelevant(s) && OutputIgnoresOrder(s)
  {
    forall a, b, other | Rivals(s, a, b, other) ensures Outcome(a, other) == Outcome(b, other) {
      var i :| 0 <= i < |s| && s[i] == a;
      var j :| 0 <= j < |s| && s[j] == b;
    }
    OrderMattersExactlyWhenAmbiguous(s);
  }

  // ---- maximality and the documented rule ----

  /** Every active expert that is not admitted conflicts with one that is: nobody could be added. */
  ghost predicate Maximal(conflicts: set<Pair>, s: seq<Activation>) {
    forall x :: x in Suppressed(conflicts, s) ==>
      exists y :: y in ActiveIds(s) && y !in Suppressed(conflicts, s) && Conflicting(conflicts, x, y)
  }

  /** The documented rule: of every conflicting active pair the lower-ranked expert is suppressed, and nobody else. */
  ghost predicate FollowsRule(conflicts: set<Pair>, s: seq<Activation>) {
    forall x :: x in Suppressed(conflicts, s) <==>
      x in ActiveIds(s) && exists y :: y in ActiveIds(s) && Conflicting(conflicts, x, y) && RanksBelow(s, x, y)
  }

  /** Experts in conflict with the same expert are in conflict with each other. */
  ghost predicate Transitive(conflicts: set<Pair>) {
    forall x: nat, y: nat, z: nat :: x != z && Conflicting(conflicts, x, y) && Conflicting(conflicts, y, z) ==>
      Conflicting(conflicts, x, z)
  }

  /** Under transitive conflicts the start of a climbing path conflicts with every later expert on it. */
  lemma {:induction false} ClimbKeepsConflict(conflicts: set<Pair>, s: seq<Activation>, path: seq<nat>, k: nat)
    requires Transitive(conflicts) && Climbs(conflicts, s, path) && 0 < k < |path|
    ensures Conflicting(conflicts, path[0], path[k]) && RanksBelow(s, path[0], path[k])
  {
    assert Conflicting(conflicts, path[k - 1], path[k - 1 + 1]) && RanksBelow(s, path[k - 1], path[k - 1 + 1]);
    if k > 1 { ClimbKeepsConflict(conflicts, s, path, k - 1); }
  }

  /** A suppressed expert conflicts with an admitted one above it. */
  lemma AdmittedRival(conflicts: set<Pair>, s: seq<Activation>, x: nat) returns (z: nat)
    requires Canonicals(conflicts) && Transitive(conflicts) && x in Suppressed(conflicts, s)
    ensures z in ActiveIds(s) && z !in Suppressed(conflicts, s)
    ensures Conflicting(conflicts, x, z) && RanksBelow(s, x, z)
  {
    var y := Blamed(conflicts, s, x);
    var path := SuppressionIsJustified(conflicts, s, x);
    AdmittedIds(conflicts, s);
    ClimbKeepsConflict(conflicts, s, path, |path| - 1);
    z := path[|path| - 1];
  }

  lemma TransitiveIsMaximal(conflicts: set<Pair>, s: seq<Activation>)
    requires Canonicals(conflicts) && Transitive(conflicts)
    ensures Maximal(conflicts, s)
  {
    forall x | x in Suppressed(conflicts, s)
      ensures exists y :: y in ActiveIds(s) && y !in Suppressed(conflicts, s) && Conflicting(conflicts, x, y)
    {
      var z := AdmittedRival(conflicts, s, x);
    }
  }

  lemma SettledBetween(conflicts: set<Pair>, s: seq<Activation>, x: nat, z: nat)
    requires Canonicals(conflicts) && {x, z} <= ActiveIds(s) && Conflicting(conflicts, x, z)
    ensures x in Suppressed(conflicts, s) || z in Suppressed(conflicts, s)
  {
    assert Canonical(x, z) in Induced(conflicts, ActiveIds(s));
    ResolveSettles(Enumerate(Induced(conflicts, ActiveIds(s))), Active(s), {}, Canonical(x, z));
  }

  lemma TransitiveFollowsRule(conflicts: set<Pair>, s: seq<Activation>)
    requires Canonicals(conflicts) && Transitive(conflicts)
    ensures FollowsRule(conflicts, s)
  {
    forall x | x in Suppressed(conflicts, s)
      ensures x in ActiveIds(s) && exists y :: y in ActiveIds(s) && Conflicting(conflicts, x, y) && RanksBelow(s, x, y)
    {
      var y := Blamed(conflicts, s, x);
    }
    forall x, y | x in ActiveIds(s) && y in ActiveIds(s) && Conflicting(conflicts, x, y) && RanksBelow(s, x, y)
      ensures x in Suppressed(conflicts, s)
    {
      var z := y;
      if y in Suppressed(conflicts, s) {
        z := AdmittedRival(conflicts, s, y);
        assert Conflicting(conflicts, x, z);
      }
      SettledBetween(conflicts, s, x, z);
    }
  }

  /** Experts that conflict along a path but not across it. The pair of the lower end is resolved first, wherever
      the middle stands. */
  ghost predicate OpenPath(conflicts: set<Pair>, x: nat, y: nat, z: nat) {
    x < z && Conflicting(conflicts, x, y) && Conflicting(conflicts, y, z) && !Conflicting(conflicts, x, z)
  }

  lemma NotTransitiveHasOpenPath(conflicts: set<Pair>) returns (x: nat, y: nat, z: nat)
    requires !Transitive(conflicts)
    ensures OpenPath(conflicts, x, y, z)
  {
    x, y, z :| x != z && Conflicting(conflicts, x, y) && Conflicting(conflicts, y, z) && !Conflicting(conflicts, x, z);
    if z < x {
      x, z := z, x;
      SymmetricPairs(x, y, z);
    }
  }

  lemma SymmetricPairs(x: nat, y: nat, z: nat)
    requires x != z && x != y && y != z
    ensures Canonical(x, y) == Canonical(y, x) && Canonical(y, z) == Canonical(z, y) && Canonical(x, z) == Canonical(z, x)
    ensures x < z <==> Before(Canonical(x, y), Canonical(y, z))
  {
  }

  /** Three active experts, and what they count for. */
  lemma ThreeExperts(x: nat, y: nat, z: nat, wx: real, wy: real, wz: real) returns (s: seq<Activation>)
    requires x != y && y != z && x != z && wx > 0.0 && wy > 0.0 && wz > 0.0
    ensures ActiveIds(s) == {x, y, z} && Weight(s, x) == wx && Weight(s, y) == wy && Weight(s, z) == wz
  {
    var a, b, c := Activation(x, wx), Activation(y, wy), Activation(z, wz);
    var s1, s2 := [c] + [], [b] + ([c] + []);
    s := [a] + s2;
    assert s == [a, b, c] && a in s && b in s && c in s;
    WeightOfFirst(a, s2, x);
    WeightOfFirst(a, s2, y);
    WeightOfFirst(a, s2, z);
    WeightOfFirst(b, s1, y);
    WeightOfFirst(b, s1, z);
    WeightOfFirst(c, [], z);
  }

  /** On an open path the filter resolves the two conflicts in turn. */
  lemma PathResolved(conflicts: set<Pair>, s: seq<Activation>, x: nat, y: nat, z: nat)
    requires Canonicals(conflicts) && OpenPath(conflicts, x, y, z) && ActiveIds(s) == {x, y, z}
    ensures var first, second := LoserIn(Active(s), Canonical(x, y)), LoserIn(Active(s), Canonical(y, z));
            Suppressed(conflicts, s) == if first == y then {y} else {first, second}
  {
    var p, q := Canonical(x, y), Canonical(y, z);
    SymmetricPairs(x, y, z);
    PathPairs(conflicts, x, y, z);
    AscendingListIsUnique([p, q], Enumerate({p, q}));
    TwoInTurn(Active(s), x, y, z);
  }

  lemma PathPairs(conflicts: set<Pair>, x: nat, y: nat, z: nat)
    requires Canonicals(conflicts) && OpenPath(conflicts, x, y, z)
    ensures Induced(conflicts, {x, y, z}) == {Canonical(x, y), Canonical(y, z)}
  {
    forall p | p in conflicts && p.0 in {x, y, z} && p.1 in {x, y, z} ensures p == Canonical(x, y) || p == Canonical(y, z) {
      assert p == Canonical(p.0, p.1);
    }
  }

  lemma TwoInTurn(active: seq<Activation>, x: nat, y: nat, z: nat)
    requires x != y && y != z && x != z
    ensures var first, second := LoserIn(active, Canonical(x, y)), LoserIn(active, Canonical(y, z));
            Resolve([Canonical(x, y), Canonical(y, z)], active, {}) == if first == y then {y} else {first, second}
  {
    var cs := [Canonical(x, y), Canonical(y, z)];
    ResolveMore(cs, 0, active, {});
    ResolveMore(cs, 1, active, {LoserIn(active, Canonical(x, y))});
    assert cs[0..] == cs && cs[2..] == [];
  }

  /** On three experts of an open path the weights decide alone: if the lower end or the middle is the lighter of its
      pair it goes first; a middle that has gone takes no further part. */
  lemma PathDecided(conflicts: set<Pair>, s: seq<Activation>, x: nat, y: nat, z: nat)
    requires Canonicals(conflicts) && OpenPath(conflicts, x, y, z) && ActiveIds(s) == {x, y, z}
    requires Weight(s, x) != Weight(s, y) && Weight(s, y) != Weight(s, z)
    ensures Suppressed(conflicts, s) ==
              if Weight(s, y) < Weight(s, x) then {y}
              else if Weight(s, y) < Weight(s, z) then {x, y} else {x, z}
  {
    PathResolved(conflicts, s, x, y, z);
  }

  /** With weights rising along an open path, the first expert is suppressed though no admitted one is in
      conflict with it. */
  lemma OpenPathLosesMaximality(conflicts: set<Pair>, x: nat, y: nat, z: nat) returns (s: seq<Activation>)
    requires Canonicals(conflicts) && OpenPath(conflicts, x, y, z)
    ensures Weight(s, x) < Weight(s, y) < Weight(s, z)
    ensures Suppressed(conflicts, s) == {x, y} && ActiveIds(s) == {x, y, z} && !Maximal(conflicts, s)
  {
    s := ThreeExperts(x, y, z, 1.0, 2.0, 3.0);
    PathResolved(conflicts, s, x, y, z);
    assert LoserIn(Active(s), Canonical(x, y)) == x && LoserIn(Active(s), Canonical(y, z)) == y;
    assert x in Suppressed(conflicts, s);
  }

  /** With weights falling along an open path, the last expert is admitted though the heavier one before it is
      in conflict with it. */
  lemma OpenPathBreaksRule(conflicts: set<Pair>, x: nat, y: nat, z: nat) returns (s: seq<Activation>)
    requires Canonicals(conflicts) && OpenPath(conflicts, x, y, z)
    ensures Suppressed(conflicts, s) == {y} && ActiveIds(s) == {x, y, z}
    ensures RanksBelow(s, z, y) && !FollowsRule(conflicts, s)
  {
    s := ThreeExperts(x, y, z, 3.0, 2.0, 1.0);
    PathResolved(conflicts, s, x, y, z);
    assert LoserIn(Active(s), Canonical(x, y)) == y;
    SymmetricPairs(x, y, z);
    assert Conflicting(conflicts, z, y) && RanksBelow(s, z, y);
  }

  /** For a registry, the admitted set is maximal on every input exactly if conflicts are transitive. */
  lemma MaximalExactlyWhenTransitive(conflicts: set<Pair>)
    requires Canonicals(conflicts)
    ensures (forall s :: Maximal(conflicts, s)) <==> Transitive(conflicts)
  {
    if Transitive(conflicts) {
      forall s ensures Maximal(conflicts, s) {
        TransitiveIsMaximal(conflicts, s);
      }
    } else {
      var x, y, z := NotTransitiveHasOpenPath(conflicts);
      var s := OpenPathLosesMaximality(conflicts, x, y, z);
    }
  }

  /** And the filter follows its documented rule on every input exactly under the same condition. */
  lemma RuleExactlyWhenTransitive(conflicts: set<Pair>)
    requires Canonicals(conflicts)
    ensures (forall s :: FollowsRule(conflicts, s)) <==> Transitive(conflicts)
  {
    if Transitive(conflicts) {
      forall s ensures FollowsRule(conflicts, s) {
        TransitiveFollowsRule(conflicts, s);
      }
    } else {
      var x, y, z := NotTransitiveHasOpenPath(conflicts);
      var s := OpenPathBreaksRule(conflicts, x, y, z);
    }
  }

  // ---- the same for the experts of one input ----

  /** Conflicts that involve nobody active have no influence. */
  lemma OnlyActiveConflictsCount(conflicts: set<Pair>, ids: set<nat>, s: seq<Activation>)
    requires ActiveIds(s) <= ids
    ensures var among := Induced(conflicts, ids);
            && Suppressed(among, s) == Suppressed(conflicts, s) && Filtered(among, s) == Filtered(conflicts, s)
            && (Maximal(among, s) <==> Maximal(conflicts, s)) && (FollowsRule(among, s) <==> FollowsRule(conflicts, s))
  {
    var among := Induced(conflicts, ids);
    assert Induced(among, ActiveIds(s)) == Induced(conflicts, ActiveIds(s));
    assert Suppressed(among, s) == Suppressed(conflicts, s);
    SuppressedAreActive(conflicts, s);
    hide Suppressed;
    forall x, y | x in ActiveIds(s) && y in ActiveIds(s) ensures Conflicting(among, x, y) <==> Conflicting(conflicts, x, y) {
    }
  }

  lemma SuppressedAreActive(conflicts: set<Pair>, s: seq<Activation>)
    ensures Suppressed(conflicts, s) <= ActiveIds(s)
  {
    forall x | x in Suppressed(conflicts, s) ensures x in ActiveIds(s) {
      var p := ResolveTakesLosers(Enumerate(Induced(conflicts, ActiveIds(s))), Active(s), {}, x);
    }
  }

  lemma {:induction false} ResolveTakesLosers(cs: seq<Pair>, active: seq<Activation>, suppressed: set<nat>, x: nat)
      returns (p: Pair)
    requires x in Resolve(cs, active, suppressed) && x !in suppressed
    ensures p in cs && (x == p.0 || x == p.1)
  {
    p := cs[0];
    if p.0 in suppressed || p.1 in suppressed {
      p := ResolveTakesLosers(cs[1..], active, suppressed, x);
    } else if x != LoserIn(active, p) {
      p := ResolveTakesLosers(cs[1..], active, suppressed + {LoserIn(active, p)}, x);
    }
  }

  lemma TransitiveAmong(conflicts: set<Pair>, ids: set<nat>, s: seq<Activation>)
    requires Canonicals(conflicts) && Transitive(Induced(conflicts, ids)) && ActiveIds(s) <= ids
    ensures Maximal(conflicts, s) && FollowsRule(conflicts, s)
  {
    hide Maximal, FollowsRule, Transitive, Filtered, Suppressed;
    TransitiveIsMaximal(Induced(conflicts, ids), s);
    TransitiveFollowsRule(Induced(conflicts, ids), s);
    OnlyActiveConflictsCount(conflicts, ids, s);
  }

  lemma OpenPathAmong(conflicts: set<Pair>, ids: set<nat>) returns (s: seq<Activation>, t: seq<Activation>)
    requires Canonicals(conflicts) && !Transitive(Induced(conflicts, ids))
    ensures ActiveIds(s) <= ids && !Maximal(conflicts, s) && ActiveIds(t) <= ids && !FollowsRule(conflicts, t)
  {
    var among := Induced(conflicts, ids);
    var x, y, z := NotTransitiveHasOpenPath(among);
    assert {x, y, z} <= ids;
    hide Maximal, FollowsRule, Transitive, Filtered, Suppressed, Induced;
    s := OpenPathLosesMaximality(among, x, y, z);
    t := OpenPathBreaksRule(among, x, y, z);
    OnlyActiveConflictsCount(conflicts, ids, s);
    OnlyActiveConflictsCount(conflicts, ids, t);
  }

  /** Among any set of experts: the admitted set is maximal whichever of them are active, and the documented rule
      is followed whichever of them are active, exactly if the conflicts among them are transitive. */
  lemma ExactlyWhenTransitiveAmong(conflicts: set<Pair>, ids: set<nat>)
    requires Canonicals(conflicts)
    ensures (forall s :: ActiveIds(s) <= ids ==> Maximal(conflicts, s)) <==> Transitive(Induced(conflicts, ids))
    ensures (forall s :: ActiveIds(s) <= ids ==> FollowsRule(conflicts, s)) <==> Transitive(Induced(conflicts, ids))
  {
    hide Maximal, FollowsRule, Transitive, Induced;
    if Transitive(Induced(conflicts, ids)) {
      forall s | ActiveIds(s) <= ids ensures Maximal(conflicts, s) && FollowsRule(conflicts, s) {
        TransitiveAmong(conflicts, ids, s);
      }
    } else {
      var s, t := OpenPathAmong(conflicts, ids);
    }
  }

  /** So for one input it is enough that the conflicts among its active experts are transitive. */
  lemma TransitiveAmongActive(conflicts: set<Pair>, s: seq<Activation>)
    requires Canonicals(conflicts) && Transitive(Induced(conflicts, ActiveIds(s)))
    ensures Maximal(conflicts, s) && FollowsRule(conflicts, s)
  {
    TransitiveAmong(conflicts, ActiveIds(s), s);
  }
}
