/** The NAND filter (`filter.rs`). Weights are real numbers. */
module NandFilter {
  import opened Basics
  import opened NandConflicts

  datatype Activation = Activation(id: nat, weight: real)

  // ---- the pieces of the filter ----

  function Active(s: seq<Activation>): (r: seq<Activation>)
    ensures forall a :: a in r <==> a in s && a.weight > 0.0
  {
    if s == [] then []
    else if s[0].weight > 0.0 then [s[0]] + Active(s[1..])
    else Active(s[1..])
  }

  /** The activations that are active and not suppressed, in their original order. */
  function Kept(s: seq<Activation>, suppressed: set<nat>): (r: seq<Activation>)
    ensures forall a :: a in r <==> a in s && a.weight > 0.0 && a.id !in suppressed
  {
    if s == [] then []
    else if s[0].weight > 0.0 && s[0].id !in suppressed then [s[0]] + Kept(s[1..], suppressed)
    else Kept(s[1..], suppressed)
  }

  ghost predicate SortedById(s: seq<Activation>) { forall i, j :: 0 <= i < j < |s| ==> s[i].id <= s[j].id }

  function InsertById(x: Activation, s: seq<Activation>): (r: seq<Activation>)
    ensures multiset(r) == multiset(s) + multiset{x}
    ensures SortedById(s) ==> SortedById(r)
  {
    if s == [] || x.id <= s[0].id then [x] + s
    else
      assert s == [s[0]] + s[1..];
      InsertBehind(x, s, InsertById(x, s[1..]));
      [s[0]] + InsertById(x, s[1..])
  }

  lemma InsertBehind(x: Activation, s: seq<Activation>, r: seq<Activation>)
    requires s != [] && s[0].id < x.id && multiset(r) == multiset(s[1..]) + multiset{x}
    requires SortedById(s[1..]) ==> SortedById(r)
    ensures SortedById(s) ==> SortedById([s[0]] + r)
  {
    if SortedById(s) {
      forall j | 0 <= j < |r| ensures s[0].id <= r[j].id {
        assert r[j] in multiset(r);
      }
    }
  }

  /** `sort_by_key`: ascending by identifier, with every entry as often as before. That entries with equal
      identifiers keep their order is `SortIsStable`. */
  function SortById(s: seq<Activation>): (r: seq<Activation>)
    ensures multiset(r) == multiset(s) && SortedById(r)
  {
    if s == [] then []
    else
      assert s == [s[0]] + s[1..];
      InsertById(s[0], SortById(s[1..]))
  }

  lemma SortKeepsEntries(s: seq<Activation>, a: Activation)
    ensures a in SortById(s) <==> a in s
  {
    assert a in SortById(s) <==> a in multiset(SortById(s));
  }

  /** The weight of the first entry for an identifier, 0 when there is none. */
  function WeightOf(s: seq<Activation>, id: nat): real {
    if s == [] then 0.0 else if s[0].id == id then s[0].weight else WeightOf(s[1..], id)
  }

  function IdsOf(s: seq<Activation>): (r: seq<nat>)
    ensures |r| == |s| && forall i :: 0 <= i < |s| ==> r[i] == s[i].id
  {
    seq(|s|, i requires 0 <= i < |s| => s[i].id)
  }

  /** Which of two conflicting experts goes: the lighter one, the first of the pair when they weigh the same. */
  function Loser(p: Pair, wa: real, wb: real): nat { if wa < wb then p.0 else if wb < wa then p.1 else p.0 }

  function Resolve(cs: seq<Pair>, active: seq<Activation>, suppressed: set<nat>): set<nat> {
    if cs == [] then suppressed
    else if cs[0].0 in suppressed || cs[0].1 in suppressed then Resolve(cs[1..], active, suppressed)
    else
      var loser := Loser(cs[0], WeightOf(active, cs[0].0), WeightOf(active, cs[0].1));
      Resolve(cs[1..], active, suppressed + {loser})
  }

  // ---- the filter as a function of its input ----

  ghost function ActiveIds(s: seq<Activation>): set<nat> { set a | a in s && a.weight > 0.0 :: a.id }

  /** The weight an expert counts with: that of its first active entry. */
  ghost function Weight(s: seq<Activation>, id: nat): real { WeightOf(Active(s), id) }

  ghost function Suppressed(conflicts: set<Pair>, s: seq<Activation>): set<nat> {
    Resolve(Enumerate(Induced(conflicts, ActiveIds(s))), Active(s), {})
  }

  ghost function Filtered(conflicts: set<Pair>, s: seq<Activation>): seq<Activation> {
    Kept(s, Suppressed(conflicts, s))
  }

  lemma {:induction false} InsertFirst(x: Activation, s: seq<Activation>, id: nat)
    ensures WeightOf(InsertById(x, s), id) == if x.id == id then x.weight else WeightOf(s, id)
  {
    var r := InsertById(x, s);
    if s == [] || x.id <= s[0].id {
      assert r[1..] == s;
    } else {
      InsertFirst(x, s[1..], id);
      assert r[0] == s[0] && r[1..] == InsertById(x, s[1..]);
    }
  }

  /** Sorting keeps the first entry of every expert first. */
  lemma {:induction false} SortKeepsFirst(s: seq<Activation>, id: nat)
    ensures WeightOf(SortById(s), id) == WeightOf(s, id)
  {
    if s != [] {
      SortKeepsFirst(s[1..], id);
      InsertFirst(s[0], SortById(s[1..]), id);
    }
  }

  /** The entries of one expert, in order. */
  function Entries(s: seq<Activation>, id: nat): seq<Activation> {
    if s == [] then []
    else if s[0].id == id then [s[0]] + Entries(s[1..], id)
    else Entries(s[1..], id)
  }

  lemma {:induction false} InsertIsStable(x: Activation, s: seq<Activation>, id: nat)
    ensures Entries(InsertById(x, s), id) == if x.id == id then [x] + Entries(s, id) else Entries(s, id)
  {
    if s == [] || x.id <= s[0].id {
      FirstEntry(x, s, id);
    } else {
      InsertIsStable(x, s[1..], id);
      FirstEntry(s[0], s[1..], id);
      FirstEntry(s[0], InsertById(x, s[1..]), id);
      assert [s[0]] + s[1..] == s;
    }
  }

  lemma FirstEntry(x: Activation, s: seq<Activation>, id: nat)
    ensures Entries([x] + s, id) == if x.id == id then [x] + Entries(s, id) else Entries(s, id)
  {
    assert ([x] + s)[1..] == s;
  }

  /** Sorting keeps the entries of each expert, all of them and in their order. */
  lemma {:induction false} SortIsStable(s: seq<Activation>, id: nat)
    ensures Entries(SortById(s), id) == Entries(s, id)
  {
    if s != [] {
      SortIsStable(s[1..], id);
      InsertIsStable(s[0], SortById(s[1..]), id);
    }
  }

  /** The expert of a pair that loses by the weights in a list. */
  ghost function LoserIn(active: seq<Activation>, p: Pair): nat { Loser(p, WeightOf(active, p.0), WeightOf(active, p.1)) }

  lemma {:induction false} ResolveSameLosers(cs: seq<Pair>, a: seq<Activation>, b: seq<Activation>, suppressed: set<nat>)
    requires forall p :: p in cs ==> LoserIn(a, p) == LoserIn(b, p)
    ensures Resolve(cs, a, suppressed) == Resolve(cs, b, suppressed)
  {
    if cs != [] {
      assert cs[0] in cs;
      if cs[0].0 in suppressed || cs[0].1 in suppressed {
        ResolveSameLosers(cs[1..], a, b, suppressed);
      } else {
        ResolveSameLosers(cs[1..], a, b, suppressed + {LoserIn(a, cs[0])});
      }
    }
  }

  lemma SortedIds(s: seq<Activation>)
    ensures Elements(IdsOf(SortById(Active(s)))) == ActiveIds(s)
  {
    var sorted := SortById(Active(s));
    forall a ensures a in sorted <==> a in Active(s) {
      SortKeepsEntries(Active(s), a);
    }
    forall e | e in ActiveIds(s) ensures e in IdsOf(sorted) {
      var a :| a in s && a.weight > 0.0 && a.id == e;
      assert a in sorted;
      var i :| 0 <= i < |sorted| && sorted[i] == a;
      assert IdsOf(sorted)[i] == e;
    }
    forall e | e in IdsOf(sorted) ensures e in ActiveIds(s) {
      var i :| 0 <= i < |sorted| && IdsOf(sorted)[i] == e;
      assert sorted[i] in sorted;
    }
  }

  lemma ResolveMore(cs: seq<Pair>, i: nat, active: seq<Activation>, suppressed: set<nat>)
    requires i < |cs|
    ensures Resolve(cs[i..], active, suppressed) == Resolve(cs[i + 1..], active,
              if cs[i].0 in suppressed || cs[i].1 in suppressed then suppressed
              else suppressed + {Loser(cs[i], WeightOf(active, cs[i].0), WeightOf(active, cs[i].1))})
  {
    assert cs[i..][0] == cs[i] && cs[i..][1..] == cs[i + 1..];
  }

  /** The loop of the filter over the sorted conflicts. */
  method ResolveConflicts(conflicts: seq<Pair>, active: seq<Activation>) returns (suppressed: set<nat>)
    ensures suppressed == Resolve(conflicts, active, {})
  {
    suppressed := {};
    for i := 0 to |conflicts|
      invariant Resolve(conflicts, active, {}) == Resolve(conflicts[i..], active, suppressed)
    {
      var (a, b) := conflicts[i];
      ResolveMore(conflicts, i, active, suppressed);
      if a in suppressed || b in suppressed { continue; }
      var wa, wb := WeightOf(active, a), WeightOf(active, b);
      if wa < wb {
        suppressed := suppressed + {a};
      } else if wb < wa {
        suppressed := suppressed + {b};
      } else {
        suppressed := suppressed + {a};
      }
    }
  }

  lemma SortingIsNeutral(conflicts: set<Pair>, s: seq<Activation>)
    ensures var active := SortById(Active(s));
            Resolve(Enumerate(Induced(conflicts, Elements(IdsOf(active)))), active, {}) == Suppressed(conflicts, s)
  {
    var active := SortById(Active(s));
    SortedIds(s);
    forall id: nat ensures WeightOf(active, id) == WeightOf(Active(s), id) {
      SortKeepsFirst(Active(s), id);
    }
    ResolveSameLosers(Enumerate(Induced(conflicts, ActiveIds(s))), active, Active(s), {});
  }

  /** `NANDFilter::filter`. */
  method Filter(registry: ConflictRegistry, activations: seq<Activation>) returns (admitted: seq<Activation>)
    requires registry.Valid()
    ensures admitted == Filtered(registry.conflicts, activations)
  {
    if activations == [] { return []; }
    var active := SortById(Active(activations));
    var conflicts := registry.FindConflicts(IdsOf(active));
    var suppressed := ResolveConflicts(conflicts, active);
    SortingIsNeutral(registry.conflicts, activations);
    return Kept(activations, suppressed);
  }

  // ---- what resolving the conflicts guarantees ----

  /** The order in which experts survive: by weight, and by identifier among equals. */
  ghost predicate RanksBelow(s: seq<Activation>, x: nat, y: nat) {
    Weight(s, x) < Weight(s, y) || (Weight(s, x) == Weight(s, y) && x < y)
  }

  lemma {:induction false} ResolveGrows(cs: seq<Pair>, active: seq<Activation>, suppressed: set<nat>)
    ensures suppressed <= Resolve(cs, active, suppressed)
  {
    if cs != [] {
      if cs[0].0 in suppressed || cs[0].1 in suppressed {
        ResolveGrows(cs[1..], active, suppressed);
      } else {
        ResolveGrows(cs[1..], active, suppressed + {Loser(cs[0], WeightOf(active, cs[0].0), WeightOf(active, cs[0].1))});
      }
    }
  }

  /** Every conflict is settled: one of its two experts ends up suppressed. */
  lemma {:induction false} ResolveSettles(cs: seq<Pair>, active: seq<Activation>, suppressed: set<nat>, p: Pair)
    requires p in cs
    ensures p.0 in Resolve(cs, active, suppressed) || p.1 in Resolve(cs, active, suppressed)
  {
    var more := if cs[0].0 in suppressed || cs[0].1 in suppressed then suppressed
                else suppressed + {Loser(cs[0], WeightOf(active, cs[0].0), WeightOf(active, cs[0].1))};
    if p == cs[0] {
      ResolveGrows(cs[1..], active, more);
    } else {
      ResolveSettles(cs[1..], active, more, p);
    }
  }

  /** Nobody is suppressed without a conflicting expert above. */
  lemma {:induction false} ResolveBlames(cs: seq<Pair>, s: seq<Activation>, suppressed: set<nat>, x: nat) returns (y: nat)
    requires forall p :: p in cs ==> p.0 < p.1
    requires x in Resolve(cs, Active(s), suppressed) && x !in suppressed
    ensures Canonical(x, y) in cs && RanksBelow(s, x, y)
  {
    assert cs[0] in cs;
    if cs[0].0 in suppressed || cs[0].1 in suppressed {
      y := ResolveBlames(cs[1..], s, suppressed, x);
    } else {
      var loser := Loser(cs[0], Weight(s, cs[0].0), Weight(s, cs[0].1));
      if x == loser {
        y := if x == cs[0].0 then cs[0].1 else cs[0].0;
        assert Canonical(x, y) == cs[0];
      } else {
        y := ResolveBlames(cs[1..], s, suppressed + {loser}, x);
      }
    }
  }

  // ---- the admitted experts ----

  lemma AdmittedIds(conflicts: set<Pair>, s: seq<Activation>)
    ensures ActiveIds(Filtered(conflicts, s)) == ActiveIds(s) - Suppressed(conflicts, s)
  {
    var admitted := Filtered(conflicts, s);
    forall e | e in ActiveIds(s) - Suppressed(conflicts, s) ensures e in ActiveIds(admitted) {
      var a :| a in s && a.weight > 0.0 && a.id == e;
      assert a in admitted;
    }
  }

  /** No two admitted experts conflict, on every input. */
  lemma AdmittedAreConflictFree(conflicts: set<Pair>, s: seq<Activation>, a: Activation, b: Activation)
    requires Canonicals(conflicts)
    requires a in Filtered(conflicts, s) && b in Filtered(conflicts, s)
    ensures !Conflicting(conflicts, a.id, b.id)
  {
    if Conflicting(conflicts, a.id, b.id) {
      assert a.id in ActiveIds(s) && b.id in ActiveIds(s);
      ResolveSettles(Enumerate(Induced(conflicts, ActiveIds(s))), Active(s), {}, Canonical(a.id, b.id));
    }
  }

  /** `at` lists, in order, the places of `s` whose entries are `r`. */
  ghost predicate Selects(s: seq<Activation>, at: seq<nat>, r: seq<Activation>) {
    && |at| == |r|
    && (forall k :: 0 <= k < |at| ==> at[k] < |s| && s[at[k]] == r[k])
    && (forall k, l :: 0 <= k < l < |at| ==> at[k] < at[l])
  }

  predicate Stays(a: Activation, suppressed: set<nat>) { a.weight > 0.0 && a.id !in suppressed }

  /** The places include those of all entries that stay. */
  ghost predicate Covers(s: seq<Activation>, suppressed: set<nat>, at: seq<nat>) {
    forall i :: 0 <= i < |s| && Stays(s[i], suppressed) ==> i in at
  }

  lemma CoversLater(x: Activation, s: seq<Activation>, suppressed: set<nat>, at: seq<nat>, moved: seq<nat>)
    requires Covers(s, suppressed, at) && forall i: nat :: i in at ==> i + 1 in moved
    ensures Covers([x] + s, suppressed, [0] + moved) && (!Stays(x, suppressed) ==> Covers([x] + s, suppressed, moved))
  {
    var all := [x] + s;
    forall i: nat | 0 < i < |all| && Stays(all[i], suppressed) ensures i in moved {
      assert all[i] == s[i - 1];
      assert (i - 1) + 1 in moved;
    }
  }

  lemma SelectsLater(x: Activation, s: seq<Activation>, at: seq<nat>, r: seq<Activation>, moved: seq<nat>)
    requires Selects(s, at, r)
    requires |moved| == |at| && forall k :: 0 <= k < |at| ==> moved[k] == at[k] + 1
    ensures Selects([x] + s, moved, r) && Selects([x] + s, [0] + moved, [x] + r)
    ensures forall i: nat :: i in at ==> i + 1 in moved
  {
    forall i: nat | i in at ensures i + 1 in moved {
      var k :| 0 <= k < |at| && at[k] == i;
      assert moved[k] == i + 1;
    }
  }

  lemma {:induction false} KeptSelects(s: seq<Activation>, suppressed: set<nat>) returns (at: seq<nat>)
    ensures Selects(s, at, Kept(s, suppressed)) && Covers(s, suppressed, at)
  {
    hide Selects, Covers;
    if s == [] {
      at := [];
      NothingKept(suppressed);
    } else {
      var tail := s[1..];
      var rest := KeptSelects(tail, suppressed);
      var moved := seq(|rest|, k requires 0 <= k < |rest| => rest[k] + 1);
      SelectsLater(s[0], tail, rest, Kept(tail, suppressed), moved);
      CoversLater(s[0], tail, suppressed, rest, moved);
      assert s == [s[0]] + tail;
      at := if Stays(s[0], suppressed) then [0] + moved else moved;
    }
  }

  lemma NothingKept(suppressed: set<nat>)
    ensures Selects([], [], Kept([], suppressed)) && Covers([], suppressed, [])
  {
  }

  /** The output is the input without the inactive and the suppressed entries: nothing else is lost,
      reordered, repeated or reweighted. */
  lemma OutputIsASelection(conflicts: set<Pair>, s: seq<Activation>) returns (at: seq<nat>)
    ensures Selects(s, at, Filtered(conflicts, s))
    ensures forall i :: 0 <= i < |s| ==>
              (i in at <==> s[i].weight > 0.0 && s[i].id !in Suppressed(conflicts, s))
  {
    at := KeptSelects(s, Suppressed(conflicts, s));
    forall i | 0 <= i < |s| && i in at
      ensures s[i].weight > 0.0 && s[i].id !in Suppressed(conflicts, s)
    {
      var k :| 0 <= k < |at| && at[k] == i;
      assert Filtered(conflicts, s)[k] in Filtered(conflicts, s);
    }
  }

  lemma {:induction false} KeptAll(s: seq<Activation>)
    requires forall a :: a in s ==> a.weight > 0.0
    ensures Kept(s, {}) == s
  {
    if s != [] {
      assert s[0] in s;
      KeptAll(s[1..]);
    }
  }

  /** Filtering twice is filtering once. */
  lemma FilteringIsIdempotent(conflicts: set<Pair>, s: seq<Activation>)
    requires Canonicals(conflicts)
    ensures Filtered(conflicts, Filtered(conflicts, s)) == Filtered(conflicts, s)
  {
    var once := Filtered(conflicts, s);
    forall p | p in Induced(conflicts, ActiveIds(once)) ensures !Conflicting(conflicts, p.0, p.1) {
      var a :| a in once && a.id == p.0;
      var b :| b in once && b.id == p.1;
      AdmittedAreConflictFree(conflicts, s, a, b);
    }
    assert Enumerate(Induced(conflicts, ActiveIds(once))) == [] by {
      HeadIn(Enumerate(Induced(conflicts, ActiveIds(once))));
    }
    KeptAll(once);
  }

  // ---- suppression is justified ----

  /** A path in the conflict graph on which every expert outranks the one before. */
  ghost predicate Climbs(conflicts: set<Pair>, s: seq<Activation>, path: seq<nat>) {
    && (forall i :: 0 <= i < |path| ==> path[i] in ActiveIds(s))
    && forall i :: 0 <= i < |path| - 1 ==> Conflicting(conflicts, path[i], path[i + 1]) && RanksBelow(s, path[i], path[i + 1])
  }

  ghost function Above(s: seq<Activation>, x: nat): set<nat> {
    set y | y in ActiveIds(s) && RanksBelow(s, x, y)
  }

  lemma AboveShrinks(s: seq<Activation>, x: nat, y: nat)
    requires y in ActiveIds(s) && RanksBelow(s, x, y)
    ensures |Above(s, y)| < |Above(s, x)|
  {
    assert Above(s, y) <= Above(s, x) - {y};
    SubsetSize(Above(s, y), Above(s, x) - {y});
  }

  lemma Blamed(conflicts: set<Pair>, s: seq<Activation>, x: nat) returns (y: nat)
    requires Canonicals(conflicts) && x in Suppressed(conflicts, s)
    ensures {x, y} <= ActiveIds(s) && Conflicting(conflicts, x, y) && RanksBelow(s, x, y)
  {
    y := ResolveBlames(Enumerate(Induced(conflicts, ActiveIds(s))), s, {}, x);
    assert Canonical(x, y) in Induced(conflicts, ActiveIds(s));
    assert x in {Canonical(x, y).0, Canonical(x, y).1} && y in {Canonical(x, y).0, Canonical(x, y).1};
  }

  /** From every active expert a climbing path leads to an admitted one; for a suppressed expert it has a step. */
  lemma {:induction false} SuppressionIsJustified(conflicts: set<Pair>, s: seq<Activation>, x: nat)
      returns (path: seq<nat>)
    requires Canonicals(conflicts) && x in ActiveIds(s)
    ensures path != [] && path[0] == x && Climbs(conflicts, s, path)
    ensures path[|path| - 1] in ActiveIds(Filtered(conflicts, s))
    ensures x in Suppressed(conflicts, s) <==> |path| > 1
    decreases |Above(s, x)|
  {
    AdmittedIds(conflicts, s);
    if x !in Suppressed(conflicts, s) {
      path := [x];
    } else {
      var y := Blamed(conflicts, s, x);
      AboveShrinks(s, x, y);
      var rest := SuppressionIsJustified(conflicts, s, y);
      path := [x] + rest;
    }
  }

  lemma FirstStep(conflicts: set<Pair>, s: seq<Activation>, path: seq<nat>)
    requires Climbs(conflicts, s, path)
    ensures |path| > 1 ==> path[1] in ActiveIds(s) && RanksBelow(s, path[0], path[1])
  {
  }

  /** The top-ranked active expert is always admitted. */
  lemma TopRankedSurvives(conflicts: set<Pair>, s: seq<Activation>, x: nat)
    requires Canonicals(conflicts) && x in ActiveIds(s)
    requires forall y :: y in ActiveIds(s) ==> !RanksBelow(s, x, y)
    ensures x in ActiveIds(Filtered(conflicts, s))
  {
    var path := SuppressionIsJustified(conflicts, s, x);
    FirstStep(conflicts, s, path);
  }

  /** The filter returns nothing exactly when nothing was active. */
  lemma EmptyExactlyWhenNothingActive(conflicts: set<Pair>, s: seq<Activation>)
    requires Canonicals(conflicts)
    ensures Filtered(conflicts, s) == [] <==> forall a :: a in s ==> a.weight <= 0.0
  {
    if a :| a in s && a.weight > 0.0 {
      assert a.id in ActiveIds(s);
      var path := SuppressionIsJustified(conflicts, s, a.id);
      assert path[|path| - 1] in ActiveIds(Filtered(conflicts, s));
    } else {
      HeadIn(Filtered(conflicts, s));
    }
  }
}
