/** The event-sourced runtime (`action.rs`, `world.rs`, `tick.rs`, `advancement.rs`). Receipts are not part of
    this model. */
module Runtime {
  import opened Wrappers
  import opened Words

  type Facts = map<string, string>

  datatype Action =
    | SetFact(key: string, value: string)
    | RemoveFact(key: string)
    | Batch(acts: seq<Action>)

  class WorldState {
    var facts: Facts

    constructor ()
      ensures facts == map[]
    {
      facts := map[];
    }

    constructor Clone(other: WorldState)
      ensures facts == other.facts
    {
      facts := other.facts;
    }

    method Set(key: string, value: string)
      modifies this
      ensures facts == old(facts)[key := value]
    {
      facts := facts[key := value];
    }
  }

  function Lookup(f: Facts, key: string): Option<string> { if key in f then Some(f[key]) else None }

  // ---- applying an action ----

  /** The facts after an action. */
  function Applied(a: Action, f: Facts): Facts
    decreases a, if a.Batch? then |a.acts| + 1 else 0
  {
    match a
    case SetFact(k, v) => f[k := v]
    case RemoveFact(k) => f - {k}
    case Batch(acts) => AppliedUpTo(a, |acts|, f)
  }

  /** The facts after the first `n` actions of a batch. */
  function AppliedUpTo(a: Action, n: nat, f: Facts): Facts
    requires a.Batch? && n <= |a.acts|
    decreases a, n
  {
    if n == 0 then f else Applied(a.acts[n - 1], AppliedUpTo(a, n - 1, f))
  }

  /** `Action::apply`, which always succeeds. */
  method Apply(a: Action, world: WorldState)
    modifies world
    ensures world.facts == Applied(a, old(world.facts))
    decreases a
  {
    match a
    case SetFact(k, v) =>
      world.Set(k, v);
    case RemoveFact(k) =>
      world.facts := world.facts - {k};
    case Batch(acts) =>
      for i := 0 to |acts|
        invariant world.facts == AppliedUpTo(a, i, old(world.facts))
      {
        Apply(acts[i], world);
      }
  }

  /** What single actions do to a key, and that a batch does its actions one after the other. */
  lemma ActionsMean(f: Facts, k: string, v: string, key: string)
    ensures Lookup(Applied(SetFact(k, v), f), key) == if key == k then Some(v) else Lookup(f, key)
    ensures Lookup(Applied(RemoveFact(k), f), key) == if key == k then None else Lookup(f, key)
  {
  }

  lemma {:induction false} BatchesMean(acts: seq<Action>, a: Action, f: Facts)
    ensures Applied(Batch([]), f) == f
    ensures Applied(Batch(acts + [a]), f) == Applied(a, Applied(Batch(acts), f))
  {
    var all := Batch(acts + [a]);
    assert all.acts[|acts|] == a;
    SameStart(all, Batch(acts), |acts|, f);
  }

  lemma {:induction false} SameStart(a: Action, b: Action, n: nat, f: Facts)
    requires a.Batch? && b.Batch? && n <= |a.acts| && n <= |b.acts| && a.acts[..n] == b.acts[..n]
    ensures AppliedUpTo(a, n, f) == AppliedUpTo(b, n, f)
  {
    if n > 0 {
      assert a.acts[..n - 1] == a.acts[..n][..n - 1] && b.acts[..n - 1] == b.acts[..n][..n - 1];
      assert a.acts[n - 1] == a.acts[..n][n - 1] && b.acts[n - 1] == b.acts[..n][n - 1];
      SameStart(a, b, n - 1, f);
    }
  }

  // ---- what nested batches amount to ----

  datatype Leaf = Put(key: string, value: string) | Erase(key: string)

  /** The single writes an action consists of, in order, at any depth. */
  function Leaves(a: Action): seq<Leaf>
    decreases a, if a.Batch? then |a.acts| + 1 else 0
  {
    match a
    case SetFact(k, v) => [Put(k, v)]
    case RemoveFact(k) => [Erase(k)]
    case Batch(acts) => LeavesUpTo(a, |acts|)
  }

  function LeavesUpTo(a: Action, n: nat): seq<Leaf>
    requires a.Batch? && n <= |a.acts|
    decreases a, n
  {
    if n == 0 then [] else LeavesUpTo(a, n - 1) + Leaves(a.acts[n - 1])
  }

  function Write(l: Leaf, f: Facts): Facts {
    if l.Put? then f[l.key := l.value] else f - {l.key}
  }

  /** Performing writes one after the other. */
  function Run(ls: seq<Leaf>, f: Facts): Facts {
    if ls == [] then f else Write(ls[|ls| - 1], Run(ls[..|ls| - 1], f))
  }

  lemma {:induction false} RunAppend(a: seq<Leaf>, b: seq<Leaf>, f: Facts)
    ensures Run(a + b, f) == Run(b, Run(a, f))
  {
    if b == [] {
      assert a + b == a;
    } else {
      RunAppend(a, b[..|b| - 1], f);
      assert (a + b)[..|a + b| - 1] == a + b[..|b| - 1];
    }
  }

  /** Applying an action performs exactly its leaves, whatever the nesting of batches. */
  lemma {:induction false} ApplyIsFlat(a: Action, f: Facts)
    ensures Applied(a, f) == Run(Leaves(a), f)
    decreases a, if a.Batch? then |a.acts| + 1 else 0
  {
    match a
    case SetFact(k, v) =>
      assert Run([Put(k, v)], f) == Write(Put(k, v), Run([], f));
    case RemoveFact(k) =>
      assert Run([Erase(k)], f) == Write(Erase(k), Run([], f));
    case Batch(acts) =>
      ApplyUpToIsFlat(a, |acts|, f);
  }

  lemma {:induction false} ApplyUpToIsFlat(a: Action, n: nat, f: Facts)
    requires a.Batch? && n <= |a.acts|
    ensures AppliedUpTo(a, n, f) == Run(LeavesUpTo(a, n), f)
    decreases a, n
  {
    if n > 0 {
      ApplyUpToIsFlat(a, n - 1, f);
      ApplyIsFlat(a.acts[n - 1], AppliedUpTo(a, n - 1, f));
      RunAppend(LeavesUpTo(a, n - 1), Leaves(a.acts[n - 1]), f);
    }
  }

  /** The place of the last write to a key. */
  function LastWrite(ls: seq<Leaf>, key: string): (r: Option<nat>)
    ensures r.Some? ==> r.value < |ls| && ls[r.value].key == key && forall i :: r.value < i < |ls| ==> ls[i].key != key
    ensures r.None? ==> forall i :: 0 <= i < |ls| ==> ls[i].key != key
  {
    if ls == [] then None
    else if ls[|ls| - 1].key == key then Some(|ls| - 1)
    else LastWrite(ls[..|ls| - 1], key)
  }

  /** The last leaf that touches a key decides it; without one the key keeps what it had. */
  lemma {:induction false} LastWriteDecides(ls: seq<Leaf>, f: Facts, key: string)
    ensures Lookup(Run(ls, f), key) ==
              match LastWrite(ls, key)
              case None => Lookup(f, key)
              case Some(i) => if ls[i].Put? then Some(ls[i].value) else None
  {
    if ls != [] { LastWriteDecides(ls[..|ls| - 1], f, key); }
  }

  // ---- ticks ----

  datatype Tick = Tick(index: nat, sigmaIn: Facts, action: Action, sigmaOut: Facts)

  /** The facts when the history begins to be extended: those after the last tick. */
  function After(history: seq<Tick>): Facts {
    if history == [] then map[] else history[|history| - 1].sigmaOut
  }

  /** Indices count up (modulo 2^64), and every tick leads from the facts after the one before to the facts
      its action makes of them. */
  ghost predicate Chained(history: seq<Tick>) {
    forall i :: 0 <= i < |history| ==> Follows(history[..i], history[i])
  }

  ghost predicate Follows(before: seq<Tick>, tick: Tick) {
    tick.index == Low64(|before|) && tick.sigmaIn == After(before) && tick.sigmaOut == Applied(tick.action, tick.sigmaIn)
  }

  class Runtime {
    var currentState: WorldState
    var tickHistory: seq<Tick>
    var currentIndex: nat

    ghost predicate Valid()
      reads this, currentState
    {
      && Chained(tickHistory)
      && currentState.facts == After(tickHistory)
      && currentIndex == Low64(|tickHistory|)
    }

    constructor ()
      ensures Valid() && fresh(currentState) && tickHistory == []
    {
      currentState := new WorldState();
      tickHistory := [];
      currentIndex := 0;
    }

    method AdvanceTick(action: Action)
      requires Valid()
      modifies this
      ensures Valid() && fresh(currentState)
      ensures currentState.facts == Applied(action, old(currentState.facts))
      ensures tickHistory == old(tickHistory) +
                [Tick(old(currentIndex), old(currentState.facts), action, currentState.facts)]
    {
      var sigmaIn := currentState.facts;
      var sigmaOut := new WorldState.Clone(currentState);
      Apply(action, sigmaOut);
      var tick := Tick(currentIndex, sigmaIn, action, sigmaOut.facts);
      ChainedMore(tickHistory, tick);
      tickHistory := tickHistory + [tick];
      currentState := sigmaOut;
      currentIndex := Inc64(currentIndex);
    }
  }

  lemma ChainedMore(history: seq<Tick>, tick: Tick)
    ensures Chained(history + [tick]) <==> Chained(history) && Follows(history, tick)
  {
    var all := history + [tick];
    assert all[..|history|] == history && all[|history|] == tick;
    assert forall i :: 0 <= i < |history| ==> all[..i] == history[..i] && all[i] == history[i];
    if Chained(all) {
      forall i | 0 <= i < |history| ensures Follows(history[..i], history[i]) {
        assert Follows(all[..i], all[i]);
      }
    }
  }

  /** All writes of a history. */
  function AllLeaves(history: seq<Tick>): seq<Leaf> {
    if history == [] then [] else AllLeaves(history[..|history| - 1]) + Leaves(history[|history| - 1].action)
  }

  /** Replaying the flattened actions from the empty world gives the state after the history, and the indices
      are the tick numbers. */
  lemma {:induction false} Replay(history: seq<Tick>)
    requires Chained(history)
    ensures After(history) == Run(AllLeaves(history), map[])
    ensures forall i :: 0 <= i < |history| ==> history[i].index == i % TWO_64
  {
    forall i | 0 <= i < |history| ensures history[i].index == i % TWO_64 {
      assert Follows(history[..i], history[i]);
      Low64IsModulo(i);
    }
    if history != [] {
      var m := |history| - 1;
      var before, tick := history[..m], history[m];
      assert history == before + [tick];
      ChainedMore(before, tick);
      Replay(before);
      ApplyIsFlat(tick.action, After(before));
      RunAppend(AllLeaves(before), Leaves(tick.action), map[]);
    }
  }

  /** What the runtime knows about a key is what the last write to it said, over the whole history. */
  lemma CurrentFactIsLastWrite(history: seq<Tick>, key: string)
    requires Chained(history)
    ensures Lookup(After(history), key) ==
              match LastWrite(AllLeaves(history), key)
              case None => None
              case Some(i) => if AllLeaves(history)[i].Put? then Some(AllLeaves(history)[i].value) else None
  {
    Replay(history);
    LastWriteDecides(AllLeaves(history), map[], key);
  }
}
