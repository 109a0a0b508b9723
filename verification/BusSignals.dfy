/** The condition variables of the bus on top of its transition system: who sleeps, whom a signal wakes, and which
    wake-ups can be missed. */
module BusSignals {
  import opened Basics
  import opened Wrappers
  import opened BusTypes
  import opened BusProtocol
  import opened BusInvariant
  import opened BusOwner
  import opened BusTheorems

  /** A thread in `RecvWait` sleeps on the condition variable of its connection until it is released: by a signal,
      a broadcast, its timeout or for no reason. Released, it competes for the queue lock. `missed` is history: who
      was about to sleep when the broadcast of a disconnect came. */
  datatype Signals = Signals(bus: Bus, released: set<nat>, missed: set<nat>)

  /** A step of a thread, with those it wakes, or the end of a sleep that nobody ended. */
  datatype Move = Step(t: nat, choice: Choice, woken: set<nat>) | Release(t: nat)

  predicate Asleep(s: Signals, u: nat, c: nat) {
    u < |s.bus.threads| && s.bus.threads[u] == RecvWait(c) && u !in s.released
  }

  function Sleepers(s: Signals, c: nat): set<nat> {
    set u | 0 <= u < |s.bus.threads| && Asleep(s, u, c)
  }

  /** A signal, sent after an accepted push, wakes at least one sleeper if there is one; a broadcast wakes all. */
  predicate Wakes(s: Signals, pc: PC, woken: set<nat>) {
    if pc.Counting? && pc.ok then woken <= Sleepers(s, pc.c) && (Sleepers(s, pc.c) != {} ==> woken != {})
    else if pc.Broadcasting? then woken == Sleepers(s, pc.c)
    else woken == {}
  }

  predicate Allowed(s: Signals, m: Move) {
    match m
    case Step(t, choice, woken) =>
      && Enabled(s.bus, t, choice)
      && (s.bus.threads[t].RecvWait? ==> t in s.released)
      && Wakes(s, s.bus.threads[t], woken)
    case Release(t) => t < |s.bus.threads| && s.bus.threads[t].RecvWait? && t !in s.released
  }

  /** Those that have decided to sleep on a connection and do not sleep yet. */
  function Dozing(b: Bus, pc: PC): set<nat> {
    set u | 0 <= u < |b.threads| && pc.Broadcasting? && b.threads[u] == RecvSleep(pc.c)
  }

  function Moved(s: Signals, m: Move): Signals
    requires Allowed(s, m)
  {
    match m
    case Step(t, choice, woken) =>
      Signals(Next(s.bus, t, choice), s.released - {t} + woken, s.missed - woken + Dozing(s.bus, s.bus.threads[t]))
    case Release(t) => Signals(s.bus, s.released + {t}, s.missed - {t})
  }

  function Play(n: nat, moves: seq<Move>): Option<Signals> {
    if moves == [] then Some(Signals(Init(n), {}, {})) else
      var last := |moves| - 1;
      var before := Play(n, moves[..last]);
      if before.Some? && Allowed(before.value, moves[last]) then Some(Moved(before.value, moves[last])) else None
  }

  /** Some run of some number of threads leads here. */
  ghost predicate Possible(s: Signals) { exists n, moves :: Play(n, moves) == Some(s) }

  lemma GoesOn(s: Signals, m: Move)
    requires Possible(s) && Allowed(s, m)
    ensures Possible(Moved(s, m))
  {
    hide Allowed, Moved;
    var n, moves :| Play(n, moves) == Some(s);
    assert (moves + [m])[..|moves|] == moves;
    assert Play(n, moves + [m]) == Some(Moved(s, m));
  }

  // ---- the same runs as without condition variables ----

  lemma {:induction false} PlayReaches(n: nat, moves: seq<Move>)
    ensures Play(n, moves).Some? ==> Reachable(Play(n, moves).value.bus)
  {
    if moves == [] {
      assert Exec(n, []) == Some(Init(n));
    } else if Play(n, moves).Some? {
      hide Enabled, Next, Reachable, Wakes, Dozing;
      var before, m := moves[..|moves| - 1], moves[|moves| - 1];
      PlayReaches(n, before);
      if m.Step? { StepReaches(Play(n, before).value.bus, m.t, m.choice); }
    }
  }

  /** Everybody who waits has been released. */
  ghost predicate NoneAsleep(s: Signals) {
    forall u :: 0 <= u < |s.bus.threads| && s.bus.threads[u].RecvWait? ==> u in s.released
  }

  lemma OneStep(s: Bus, t: nat, choice: Choice)
    requires Enabled(s, t, choice)
    ensures OnlyMoved(s, Next(s, t, choice), t)
  {
    if !InTable(s.threads[t]) { OtherCodeKeepsTable(s, t, choice); }
  }

  lemma StepAwake(s: Signals, t: nat, choice: Choice) returns (s': Signals)
    requires Possible(s) && NoneAsleep(s) && Enabled(s.bus, t, choice)
    ensures Possible(s') && NoneAsleep(s') && s'.bus == Next(s.bus, t, choice)
  {
    OneStep(s.bus, t, choice);
    assert Allowed(s, Step(t, choice, {}));
    hide Next, Possible, Enabled;
    GoesOn(s, Step(t, choice, {}));
    s' := Moved(s, Step(t, choice, {}));
    if s'.bus.threads[t].RecvWait? {
      GoesOn(s', Release(t));
      s' := Moved(s', Release(t));
    }
  }

  lemma {:induction false} ExecIsPlayed(n: nat, schedule: seq<Event>) returns (s: Signals)
    requires Exec(n, schedule).Some?
    ensures Possible(s) && NoneAsleep(s) && s.bus == Exec(n, schedule).value
  {
    if schedule == [] {
      s := Signals(Init(n), {}, {});
      assert Play(n, []) == Some(s);
    } else {
      hide Possible, NoneAsleep, Next, Enabled;
      var last := |schedule| - 1;
      s := ExecIsPlayed(n, schedule[..last]);
      s := StepAwake(s, schedule[last].t, schedule[last].choice);
    }
  }

  /** With condition variables the bus reaches the same states as with waits that may end at any time: what holds
      in all of those holds here, and nothing less was considered there. */
  lemma SameStatesReached(b: Bus)
    ensures Reachable(b) <==> exists s :: Possible(s) && s.bus == b
  {
    if Reachable(b) {
      var n, schedule :| Exec(n, schedule) == Some(b);
      var s := ExecIsPlayed(n, schedule);
    }
    if s :| Possible(s) && s.bus == b {
      var n, moves :| Play(n, moves) == Some(s);
      PlayReaches(n, moves);
    }
  }

  // ---- messages ----

  /** A thread that will take a message of the connection next if there is one, or wake one that will. */
  predicate Serves(s: Signals, u: nat, c: nat) {
    && u < |s.bus.threads|
    && var pc := s.bus.threads[u];
       || (pc == RecvWait(c) && u in s.released)
       || pc == RecvCheck(c) || pc == RecvPop(c)
       || (pc.Counting? && pc.c == c && pc.ok)
  }

  function Servers(s: Signals, c: nat): set<nat> {
    set u | 0 <= u < |s.bus.threads| && Serves(s, u, c)
  }

  /** Wherever somebody sleeps, every queued message has a thread of its own that will take it. */
  ghost predicate EnoughAwake(s: Signals, c: nat) {
    c < |s.bus.heap| && Sleepers(s, c) != {} ==> |s.bus.heap[c].queue| <= |Servers(s, c)|
  }

  /** Nobody decides to sleep with a message in the queue. */
  ghost predicate DozersSawNothing(b: Bus) {
    forall u :: 0 <= u < |b.threads| && b.threads[u].RecvSleep? ==>
      b.threads[u].c < |b.heap| && b.heap[b.threads[u].c].queue == []
  }

  /** How the receiving code goes on. */
  ghost predicate GoesOnAs(b: Bus, pc: PC, pc': PC) {
    && (pc'.RecvWait? ==> pc == RecvSleep(pc'.c))
    && (pc'.RecvSleep? ==> pc == RecvCheck(pc'.c) && pc.c < |b.heap| && b.heap[pc.c].queue == [] && b.heap[pc.c].active)
    && (pc.RecvWait? ==> pc' == RecvPop(pc.c) || pc' == RecvCheck(pc.c))
    && (pc.RecvCheck? ==> pc' == RecvSleep(pc.c) || pc' == RecvPop(pc.c))
    && (pc.RecvSleep? ==> pc' == RecvWait(pc.c))
  }

  lemma ReceiverGoesOn(pc: PC, conn: Conn, me: nat, choice: Choice)
    requires ConnOf(pc).Some? && !InTable(pc) && (pc.RecvWait? ==> choice.Wake?)
    ensures var pc' := ConnEffect(pc, conn, me, choice).pc;
            && (pc'.RecvWait? ==> pc == RecvSleep(pc'.c))
            && (pc'.RecvSleep? ==> pc == RecvCheck(pc'.c) && conn.queue == [] && conn.active)
            && (pc.RecvWait? ==> pc' == RecvPop(pc.c) || pc' == RecvCheck(pc.c))
            && (pc.RecvCheck? ==> pc' == RecvSleep(pc.c) || pc' == RecvPop(pc.c))
            && (pc.RecvSleep? ==> pc' == RecvWait(pc.c))
  {
  }

  lemma StepGoesOn(b: Bus, t: nat, choice: Choice)
    requires Enabled(b, t, choice)
    ensures GoesOnAs(b, b.threads[t], Next(b, t, choice).threads[t])
  {
    var pc := b.threads[t];
    if !InTable(pc) && ConnOf(pc).Some? {
      hide ConnEffect;
      ReceiverGoesOn(pc, b.heap[ConnOf(pc).value], t, choice);
    }
  }

  /** What a step does to one queue. */
  ghost predicate QueueGoesOn(b: Bus, b': Bus, t: nat, c: nat)
    requires t < |b.threads| && t < |b'.threads| && c < |b.heap| && c < |b'.heap|
  {
    var pc, pc', q, q' := b.threads[t], b'.threads[t], b.heap[c].queue, b'.heap[c].queue;
    if pc.Pushing? && pc.c == c then
      pc'.Counting? && pc'.c == c && |q'| == |q| + if pc'.ok then 1 else 0
    else if pc == RecvPop(c) then pc' == QUnlock(c) && |q'| == if q == [] then 0 else |q| - 1
    else q' == q
  }

  lemma EffectOnQueue(pc: PC, conn: Conn, me: nat, choice: Choice)
    requires ConnOf(pc).Some? && !InTable(pc) && (pc.RecvWait? ==> choice.Wake?)
    ensures var e := ConnEffect(pc, conn, me, choice);
            var q' := if e.conn.Some? then e.conn.value.queue else conn.queue;
            if pc.Pushing? then e.pc.Counting? && e.pc.c == pc.c && |q'| == |conn.queue| + if e.pc.ok then 1 else 0
            else if pc.RecvPop? then e.pc == QUnlock(pc.c) && |q'| == if conn.queue == [] then 0 else |conn.queue| - 1
            else q' == conn.queue
  {
  }

  lemma StepOnQueue(b: Bus, t: nat, choice: Choice, c: nat)
    requires Enabled(b, t, choice) && c < |b.heap|
    ensures var b' := Next(b, t, choice); t < |b'.threads| && c < |b'.heap| && QueueGoesOn(b, b', t, c)
  {
    var pc := b.threads[t];
    OneStep(b, t, choice);
    if InTable(pc) {
      TableKeepsBuffers(b, t, choice, c);
    } else if ConnOf(pc) == Some(c) {
      StepOnOwnQueue(b, t, choice, c);
    } else {
      hide Next;
      OthersKeepBuffers(b, t, choice, c);
    }
  }

  lemma StepOnOwnQueue(b: Bus, t: nat, choice: Choice, c: nat)
    requires Enabled(b, t, choice) && c < |b.heap| && !InTable(b.threads[t]) && ConnOf(b.threads[t]) == Some(c)
    ensures var b' := Next(b, t, choice); t < |b'.threads| && c < |b'.heap| && QueueGoesOn(b, b', t, c)
  {
    hide ConnEffect;
    EffectOnQueue(b.threads[t], b.heap[c], t, choice);
  }

  lemma DozersStep(b: Bus, t: nat, choice: Choice)
    requires Reachable(b) && Enabled(b, t, choice) && DozersSawNothing(b)
    ensures DozersSawNothing(Next(b, t, choice))
  {
    var b' := Next(b, t, choice);
    OneStep(b, t, choice);
    StepGoesOn(b, t, choice);
    hide Next, Enabled, Reachable;
    forall u | 0 <= u < |b'.threads| && b'.threads[u].RecvSleep?
      ensures b'.threads[u].c < |b'.heap| && b'.heap[b'.threads[u].c].queue == []
    {
      var c := b'.threads[u].c;
      if u == t {
        StepOnQueue(b, t, choice, c);
      } else {
        DozerHoldsLock(b, u);
        OnlyLockHoldersWrite(b, t, choice, c);
      }
    }
  }

  lemma DozerHoldsLock(b: Bus, u: nat)
    requires Reachable(b) && u < |b.threads| && b.threads[u].RecvSleep?
    ensures b.threads[u].c < |b.heap| && b.heap[b.threads[u].c].lock == Some(u)
  {
    ReachableInvariant(b);
  }

  /** The step of `t` is allowed, and leads from `s` to `s'`. */
  ghost predicate Happens(s: Signals, s': Signals, t: nat, choice: Choice, woken: set<nat>) {
    && Allowed(s, Step(t, choice, woken)) && s' == Moved(s, Step(t, choice, woken))
    && OnlyMoved(s.bus, s'.bus, t) && GoesOnAs(s.bus, s.bus.threads[t], s'.bus.threads[t])
  }

  /** The threads that serve go on serving, but for the one that made the step; those woken join them. */
  lemma ServersKept(s: Signals, s': Signals, t: nat, choice: Choice, woken: set<nat>, c: nat)
    requires Happens(s, s', t, choice, woken)
    ensures Servers(s, c) - {t} <= Servers(s', c)
    ensures woken <= Sleepers(s, c) ==> woken <= Servers(s', c) && woken !! Servers(s, c)
  {
    hide Next, Enabled;
    forall u | u in Servers(s, c) && u != t ensures u in Servers(s', c) {
      assert s'.bus.threads[u] == s.bus.threads[u];
    }
  }

  /** Nobody new sleeps unless `t` does. */
  lemma SleepersKept(s: Signals, s': Signals, t: nat, choice: Choice, woken: set<nat>, c: nat)
    requires Happens(s, s', t, choice, woken) && s.bus.threads[t] != RecvSleep(c)
    ensures Sleepers(s', c) <= Sleepers(s, c) - woken
  {
    hide Next, Enabled;
    forall u | u in Sleepers(s', c) ensures u in Sleepers(s, c) && u !in woken {
      assert u != t ==> s'.bus.threads[u] == s.bus.threads[u];
    }
  }

  /** How many there are after some joined and at most one left. */
  lemma StillMany(before: set<nat>, after: set<nat>, t: nat, woken: set<nat>)
    requires before - {t} <= after
    ensures |after| + 1 >= |before|
    ensures t !in before || t in after ==> |after| >= |before|
    ensures t !in before && t in after ==> |after| >= |before| + 1
    ensures woken != {} && woken <= after && woken !! before ==> |after| >= |before|
  {
    SubsetSize(before - {t}, after);
    if t in after { SubsetSize(before - {t} + {t}, after); }
    if woken != {} && woken <= after && woken !! before {
      SubsetSize(before - {t} + woken, after);
      var u :| u in woken;
      assert woken == {u} + (woken - {u});
    }
  }

  /** Does the thread that steps serve the connection, before and after? */
  lemma ServesAround(s: Signals, s': Signals, t: nat, choice: Choice, woken: set<nat>, c: nat)
    requires Happens(s, s', t, choice, woken) && c < |s.bus.heap| && c < |s'.bus.heap|
    requires QueueGoesOn(s.bus, s'.bus, t, c) && s'.bus.heap[c].queue != []
    ensures var q, q' := |s.bus.heap[c].queue|, |s'.bus.heap[c].queue|;
            var before, after := t in Servers(s, c), t in Servers(s', c);
            var signals := s.bus.threads[t].Counting? && s.bus.threads[t].ok && s.bus.threads[t].c == c;
            && (signals ==> q' == q && (woken != {} || Sleepers(s, c) == {}) && woken <= Sleepers(s, c))
            && (!signals ==> || (q' == q && (!before || after)) || (q' == q + 1 && !before && after)
                             || q' + 1 == q)
  {
    hide Next, Enabled, Sleepers;
    assert t in Servers(s, c) <==> Serves(s, t, c);
    assert t in Servers(s', c) <==> Serves(s', t, c);
  }

  /** There are enough left awake. */
  lemma AwakeSuffice(s: Signals, s': Signals, t: nat, choice: Choice, woken: set<nat>, c: nat)
    requires Happens(s, s', t, choice, woken) && c < |s.bus.heap| && c < |s'.bus.heap|
    requires QueueGoesOn(s.bus, s'.bus, t, c) && EnoughAwake(s, c) && s.bus.threads[t] != RecvSleep(c)
    requires Sleepers(s', c) != {} && s'.bus.heap[c].queue != []
    ensures |s'.bus.heap[c].queue| <= |Servers(s', c)|
  {
    SleepersKept(s, s', t, choice, woken, c);
    ServersKept(s, s', t, choice, woken, c);
    ServesAround(s, s', t, choice, woken, c);
    hide Happens, QueueGoesOn, Servers, Sleepers;
    StillMany(Servers(s, c), Servers(s', c), t, woken);
  }

  lemma NobodyAtNew(b: Bus, u: nat, c: nat)
    requires Reachable(b) && u < |b.threads| && (b.threads[u] == RecvWait(c) || b.threads[u] == RecvSleep(c))
    ensures c < |b.heap|
  {
    ReachableInvariant(b);
    assert LightOk(b, b.threads[u]);
  }

  lemma AwakeStep(s: Signals, s': Signals, t: nat, choice: Choice, woken: set<nat>, c: nat)
    requires Happens(s, s', t, choice, woken)
    requires Reachable(s.bus) && DozersSawNothing(s.bus) && EnoughAwake(s, c)
    ensures EnoughAwake(s', c)
  {
    hide Next, Enabled, Reachable, Servers;
    if c < |s'.bus.heap| && Sleepers(s', c) != {} && s'.bus.heap[c].queue != [] {
      var u :| u in Sleepers(s', c);
      if s.bus.threads[t] == RecvSleep(c) {
        NobodyAtNew(s.bus, t, c);
        StepOnQueue(s.bus, t, choice, c);
      } else {
        SleepersKept(s, s', t, choice, woken, c);
        NobodyAtNew(s.bus, u, c);
        StepOnQueue(s.bus, t, choice, c);
        AwakeSuffice(s, s', t, choice, woken, c);
      }
    }
  }

  // ---- disconnects ----

  /** About to sleep on a connection, or asleep there. */
  predicate Attends(s: Signals, u: nat, c: nat) {
    u < |s.bus.threads| && (s.bus.threads[u] == RecvSleep(c) || Asleep(s, u, c))
  }

  predicate Inactive(b: Bus, c: nat) { c < |b.heap| && !b.heap[c].active }

  /** A broadcast is still to come for the connection. */
  ghost predicate Announced(b: Bus, c: nat) {
    exists v :: 0 <= v < |b.threads| && b.threads[v] == Broadcasting(c)
  }

  ghost predicate ReleasedOk(s: Signals) {
    forall u :: u in s.released ==> u < |s.bus.threads| && s.bus.threads[u].RecvWait?
  }

  ghost predicate BroadcastsOk(b: Bus) {
    forall v :: 0 <= v < |b.threads| && b.threads[v].Broadcasting? ==> Inactive(b, b.threads[v].c)
  }

  /** Those who missed a broadcast attend an inactive connection; and as soon as no broadcast is to come for an
      inactive connection, it is attended only by those who missed one. */
  ghost predicate MissedOk(s: Signals, u: nat) {
    && (u in s.missed ==> exists c :: Attends(s, u, c) && Inactive(s.bus, c))
    && (forall c :: Attends(s, u, c) && Inactive(s.bus, c) && !Announced(s.bus, c) ==> u in s.missed)
  }

  lemma StepOnActive(b: Bus, t: nat, choice: Choice, c: nat)
    requires Enabled(b, t, choice) && c < |b.heap|
    ensures c < |Next(b, t, choice).heap|
    ensures Next(b, t, choice).heap[c].active == (b.heap[c].active && b.threads[t] != Clearing(c))
  {
    if !InTable(b.threads[t]) { OtherCodeKeepsTable(b, t, choice); }
  }

  /** Who announces a disconnect has made the connection inactive. */
  lemma AnnouncerComes(b: Bus, t: nat, choice: Choice)
    requires Enabled(b, t, choice)
    ensures var pc, pc' := b.threads[t], Next(b, t, choice).threads[t];
            && (pc'.Broadcasting? ==> pc == Clearing(pc'.c) && Inactive(Next(b, t, choice), pc'.c))
            && (pc.Clearing? ==> pc' == Broadcasting(pc.c))
  {
    var pc := b.threads[t];
    if !InTable(pc) && ConnOf(pc).Some? {
      hide ConnEffect;
      NoAnnouncement(pc, b.heap[ConnOf(pc).value], t, choice);
    }
  }

  lemma NoAnnouncement(pc: PC, conn: Conn, me: nat, choice: Choice)
    requires ConnOf(pc).Some? && !InTable(pc) && (pc.RecvWait? ==> choice.Wake?)
    ensures !ConnEffect(pc, conn, me, choice).pc.Broadcasting?
  {
  }

  lemma BroadcastsStep(b: Bus, t: nat, choice: Choice)
    requires Enabled(b, t, choice) && BroadcastsOk(b)
    ensures BroadcastsOk(Next(b, t, choice))
  {
    var b' := Next(b, t, choice);
    OneStep(b, t, choice);
    AnnouncerComes(b, t, choice);
    hide Next, Enabled;
    forall v | 0 <= v < |b'.threads| && b'.threads[v].Broadcasting? ensures Inactive(b', b'.threads[v].c) {
      if v != t {
        assert b'.threads[v] == b.threads[v];
        StepOnActive(b, t, choice, b.threads[v].c);
      }
    }
  }

  lemma ReleasedStep(s: Signals, s': Signals, t: nat, choice: Choice, woken: set<nat>)
    requires Happens(s, s', t, choice, woken) && ReleasedOk(s)
    ensures ReleasedOk(s')
  {
    hide Next, Enabled;
    forall u | u in s'.released ensures u < |s'.bus.threads| && s'.bus.threads[u].RecvWait? {
      if u in woken { assert u in Sleepers(s, s.bus.threads[t].c) && u != t; }
      assert s'.bus.threads[u] == s.bus.threads[u];
    }
  }

  /** Who attends after the step has attended before, or has just seen the connection active. */
  lemma AttendedBefore(s: Signals, s': Signals, t: nat, choice: Choice, woken: set<nat>, u: nat, c: nat)
    requires Happens(s, s', t, choice, woken) && Attends(s', u, c)
    ensures u !in woken && (Attends(s, u, c) || (u == t && s.bus.threads[t] == RecvCheck(c) && c < |s.bus.heap| && s.bus.heap[c].active))
    ensures u in s.missed ==> u in s'.missed
  {
    hide Next, Enabled;
    if u != t { assert s'.bus.threads[u] == s.bus.threads[u]; }
  }

  /** Who attends and is not woken goes on attending. */
  lemma AttendsStill(s: Signals, s': Signals, t: nat, choice: Choice, woken: set<nat>, u: nat, c: nat)
    requires Happens(s, s', t, choice, woken) && ReleasedOk(s) && Attends(s, u, c) && u !in woken
    ensures Attends(s', u, c)
  {
    hide Next, Enabled;
    if u != t { assert s'.bus.threads[u] == s.bus.threads[u]; }
  }

  lemma MissedStays(s: Signals, s': Signals, t: nat, choice: Choice, woken: set<nat>, u: nat)
    requires Happens(s, s', t, choice, woken) && ReleasedOk(s) && BroadcastsOk(s.bus) && MissedOk(s, u) && u in s'.missed
    ensures exists c :: Attends(s', u, c) && Inactive(s'.bus, c)
  {
    hide Next, Enabled;
    var c: nat;
    if u in s.missed && u !in woken {
      c :| Attends(s, u, c) && Inactive(s.bus, c);
    } else {
      c := s.bus.threads[t].c;
      assert Attends(s, u, c);
    }
    AttendsStill(s, s', t, choice, woken, u, c);
    StepOnActive(s.bus, t, choice, c);
  }

  lemma AnnouncedStays(b: Bus, b': Bus, t: nat, c: nat)
    requires OnlyMoved(b, b', t) && Announced(b, c) && b.threads[t] != Broadcasting(c)
    ensures Announced(b', c)
  {
    var v :| 0 <= v < |b.threads| && b.threads[v] == Broadcasting(c);
    assert b'.threads[v] == Broadcasting(c);
  }

  lemma MissedComes(s: Signals, s': Signals, t: nat, choice: Choice, woken: set<nat>, u: nat, c: nat)
    requires Happens(s, s', t, choice, woken) && MissedOk(s, u)
    requires Attends(s', u, c) && Inactive(s'.bus, c) && !Announced(s'.bus, c) && c < |s.bus.heap|
    ensures u in s'.missed
  {
    var pc, pc' := s.bus.threads[t], s'.bus.threads[t];
    AttendedBefore(s, s', t, choice, woken, u, c);
    StepOnActive(s.bus, t, choice, c);
    AnnouncerComes(s.bus, t, choice);
    hide Next, Enabled;
    assert pc' != Broadcasting(c);
    if Announced(s.bus, c) && pc != Broadcasting(c) { AnnouncedStays(s.bus, s'.bus, t, c); }
  }

  lemma MissedStep(s: Signals, s': Signals, t: nat, choice: Choice, woken: set<nat>, u: nat)
    requires Happens(s, s', t, choice, woken) && Reachable(s.bus) && ReleasedOk(s) && BroadcastsOk(s.bus) && MissedOk(s, u)
    ensures MissedOk(s', u)
  {
    hide Happens, Reachable, Attends, Announced;
    if u in s'.missed { MissedStays(s, s', t, choice, woken, u); }
    forall c | Attends(s', u, c) && Inactive(s'.bus, c) && !Announced(s'.bus, c) ensures u in s'.missed {
      AttendsKnown(s, s', t, choice, woken, u, c);
      MissedComes(s, s', t, choice, woken, u, c);
    }
  }

  lemma AttendsKnown(s: Signals, s': Signals, t: nat, choice: Choice, woken: set<nat>, u: nat, c: nat)
    requires Happens(s, s', t, choice, woken) && Reachable(s.bus) && Attends(s', u, c)
    ensures c < |s.bus.heap|
  {
    AttendedBefore(s, s', t, choice, woken, u, c);
    hide Next, Enabled, Reachable;
    if Attends(s, u, c) { NobodyAtNew(s.bus, u, c); }
  }

  // ---- the invariant ----

  ghost predicate SignalsOk(s: Signals) {
    && Reachable(s.bus) && DozersSawNothing(s.bus) && BroadcastsOk(s.bus) && ReleasedOk(s)
    && (forall c: nat :: EnoughAwake(s, c)) && forall u: nat :: MissedOk(s, u)
  }

  lemma StepKeepsSignals(s: Signals, t: nat, choice: Choice, woken: set<nat>)
    requires SignalsOk(s) && Allowed(s, Step(t, choice, woken))
    ensures SignalsOk(Moved(s, Step(t, choice, woken)))
  {
    var s' := Moved(s, Step(t, choice, woken));
    OneStep(s.bus, t, choice);
    StepGoesOn(s.bus, t, choice);
    assert Happens(s, s', t, choice, woken);
    hide Happens, Reachable, DozersSawNothing, BroadcastsOk, ReleasedOk, EnoughAwake, MissedOk, Next, Enabled, Wakes;
    StepReaches(s.bus, t, choice);
    DozersStep(s.bus, t, choice);
    BroadcastsStep(s.bus, t, choice);
    ReleasedStep(s, s', t, choice, woken);
    forall c: nat ensures EnoughAwake(s', c) { AwakeStep(s, s', t, choice, woken, c); }
    forall u: nat ensures MissedOk(s', u) { MissedStep(s, s', t, choice, woken, u); }
  }

  lemma ReleaseKeepsAwake(s: Signals, t: nat, c: nat)
    requires Allowed(s, Release(t)) && EnoughAwake(s, c)
    ensures EnoughAwake(Moved(s, Release(t)), c)
  {
    var s' := Moved(s, Release(t));
    if c < |s.bus.heap| && Sleepers(s', c) != {} {
      var u :| u in Sleepers(s', c);
      assert u in Sleepers(s, c);
      forall v | v in Servers(s, c) ensures v in Servers(s', c) {}
      SubsetSize(Servers(s, c), Servers(s', c));
    }
  }

  lemma ReleaseKeepsMissed(s: Signals, t: nat, u: nat)
    requires Allowed(s, Release(t)) && MissedOk(s, u)
    ensures MissedOk(Moved(s, Release(t)), u)
  {
    var s' := Moved(s, Release(t));
    forall c ensures Attends(s', u, c) <==> Attends(s, u, c) && u != t {}
  }

  lemma {:induction false} PlayKeepsSignals(n: nat, moves: seq<Move>)
    ensures Play(n, moves).Some? ==> SignalsOk(Play(n, moves).value)
  {
    if moves == [] {
      assert Exec(n, []) == Some(Init(n));
    } else if Play(n, moves).Some? {
      var before, m := moves[..|moves| - 1], moves[|moves| - 1];
      PlayKeepsSignals(n, before);
      MoveKeepsSignals(Play(n, before).value, m);
    }
  }

  lemma MoveKeepsSignals(s: Signals, m: Move)
    requires SignalsOk(s) && Allowed(s, m)
    ensures SignalsOk(Moved(s, m))
  {
    if m.Step? {
      StepKeepsSignals(s, m.t, m.choice, m.woken);
    } else {
      hide EnoughAwake, MissedOk, Reachable;
      forall c: nat ensures EnoughAwake(Moved(s, m), c) { ReleaseKeepsAwake(s, m.t, c); }
      forall u: nat ensures MissedOk(Moved(s, m), u) { ReleaseKeepsMissed(s, m.t, u); }
    }
  }

  // ---- what this means for receivers ----

  lemma PossibleIsOk(s: Signals)
    requires Possible(s)
    ensures SignalsOk(s)
  {
    var n, moves :| Play(n, moves) == Some(s);
    PlayKeepsSignals(n, moves);
  }

  /** No wake-up for a message is lost: whenever a receiver sleeps on a connection whose lock is free, at least as
      many threads have been released from their sleep there as messages wait. */
  lemma NoMessageWakeupIsLost(s: Signals, u: nat, c: nat)
    requires Possible(s) && Asleep(s, u, c) && c < |s.bus.heap| && s.bus.heap[c].lock.None?
    ensures |s.bus.heap[c].queue| <= |set v | 0 <= v < |s.bus.threads| && s.bus.threads[v] == RecvWait(c) && v in s.released|
  {
    PossibleIsOk(s);
    assert u in Sleepers(s, c) && EnoughAwake(s, c);
    ReachableInvariant(s.bus);
    var awake := set v | 0 <= v < |s.bus.threads| && s.bus.threads[v] == RecvWait(c) && v in s.released;
    forall v | v in Servers(s, c) ensures v in awake {
      ServerWaits(s, v, c);
    }
    SubsetSize(Servers(s, c), awake);
  }

  lemma ServerWaits(s: Signals, v: nat, c: nat)
    requires LocksOk(s.bus) && c < |s.bus.heap| && s.bus.heap[c].lock.None? && Serves(s, v, c)
    ensures s.bus.threads[v] == RecvWait(c) && v in s.released
  {
  }

  /** A wake-up for a disconnect can be lost, and exactly so: once no broadcast is to come any more, a receiver
      sleeps on an inactive connection exactly if it was between its test of `active` and its sleep when a
      broadcast came, and nothing has ended its sleep since. */
  lemma DisconnectMissedExactly(s: Signals, u: nat, c: nat)
    requires Possible(s) && Asleep(s, u, c) && c < |s.bus.heap| && !Announced(s.bus, c)
    ensures !s.bus.heap[c].active <==> u in s.missed
  {
    PossibleIsOk(s);
    assert MissedOk(s, u) && Attends(s, u, c);
    if u in s.missed {
      var d :| Attends(s, u, d) && Inactive(s.bus, d);
      assert d == c;
    }
  }

  /** When all have come to rest, idle or asleep, nobody sleeps on a connection with a message in its queue, and on
      an inactive one only who missed the broadcast. */
  lemma NobodySleepsOnMessages(s: Signals, u: nat, c: nat)
    requires Possible(s) && Asleep(s, u, c) && c < |s.bus.heap|
    requires forall v :: 0 <= v < |s.bus.threads| ==>
               s.bus.threads[v].Idle? || (s.bus.threads[v].RecvWait? && v !in s.released)
    ensures s.bus.heap[c].queue == [] && (s.bus.heap[c].active <==> u !in s.missed)
  {
    PossibleIsOk(s);
    assert u in Sleepers(s, c) && EnoughAwake(s, c);
    assert Servers(s, c) == {};
    DisconnectMissedExactly(s, u, c);
  }

  /** A step that wakes nobody. */
  lemma PlainStep(s: Signals, t: nat, choice: Choice) returns (s': Signals)
    requires Possible(s) && Enabled(s.bus, t, choice)
    requires var pc := s.bus.threads[t]; !pc.Counting? && !pc.Broadcasting? && !pc.RecvWait?
    ensures Possible(s') && s' == Signals(Next(s.bus, t, choice), s.released - {t}, s.missed)
  {
    hide Next, Possible;
    GoesOn(s, Step(t, choice, {}));
    s' := Moved(s, Step(t, choice, {}));
  }

  /** A thread disconnects, up to its broadcast. */
  lemma DisconnectRuns(s: Signals, t: nat, c: nat) returns (s': Signals)
    requires Possible(s) && t < |s.bus.threads| && s.bus.threads[t] == Idle && s.bus.lock.None? && c < |s.bus.heap|
    requires Named(s.bus)
    ensures Possible(s') && s'.released == s.released - {t} && s'.missed == s.missed
    ensures s'.bus.threads == s.bus.threads[t := Broadcasting(c)] && Named(s'.bus)
    ensures s'.bus.heap == s.bus.heap[c := s.bus.heap[c].(active := false)]
  {
    hide Possible;
    s' := RemovalRuns(s, t, c);
    s' := PlainStep(s', t, Go);
    s' := PlainStep(s', t, Go);
  }

  lemma RemovalRuns(s: Signals, t: nat, c: nat) returns (s': Signals)
    requires Possible(s) && t < |s.bus.threads| && s.bus.threads[t] == Idle && s.bus.lock.None? && c < |s.bus.heap|
    requires Named(s.bus)
    ensures Possible(s') && s'.released == s.released - {t} && s'.missed == s.missed
    ensures s'.bus.threads == s.bus.threads[t := BusUnlockThenClear(c)] && Named(s'.bus) && s'.bus.heap == s.bus.heap
  {
    hide Possible, SwapRemove;
    s' := PlainStep(s, t, Start(WantBus(Disconnect(c))));
    s' := PlainStep(s', t, Go);
    SwapRemoveStays(s'.bus, c);
    s' := PlainStep(s', t, Go);
  }

  lemma SwapRemoveStays(b: Bus, c: nat)
    requires Named(b)
    ensures Named(b.(conns := SwapRemove(b.conns, c)))
  {
    forall i | 0 <= i < |SwapRemove(b.conns, c)| ensures SwapRemove(b.conns, c)[i] in b.conns {
    }
  }

  lemma BroadcastRuns(s: Signals, t: nat, c: nat) returns (s': Signals)
    requires Possible(s) && t < |s.bus.threads| && s.bus.threads[t] == Broadcasting(c) && c < |s.bus.heap| && Named(s.bus)
    ensures Possible(s') && s'.bus == Goto(s.bus, t, Idle)
    ensures forall u :: u in s'.released ==> u in s.released || u in Sleepers(s, c)
  {
    hide Possible;
    GoesOn(s, Step(t, Go, Sleepers(s, c)));
    s' := Moved(s, Step(t, Go, Sleepers(s, c)));
  }

  lemma SleepRuns(s: Signals, u: nat, c: nat) returns (s': Signals)
    requires Possible(s) && u < |s.bus.threads| && s.bus.threads[u] == RecvSleep(c) && c < |s.bus.heap| && Named(s.bus)
    ensures Possible(s') && s'.bus.threads == s.bus.threads[u := RecvWait(c)] && Asleep(s', u, c)
    ensures c < |s'.bus.heap| && s'.bus.heap[c].active == s.bus.heap[c].active
  {
    hide Possible;
    s' := PlainStep(s, u, Go);
  }

  lemma DozerIsKnown(s: Signals, u: nat, c: nat)
    requires Possible(s) && u < |s.bus.threads| && s.bus.threads[u] == RecvSleep(c)
    ensures c < |s.bus.heap| && Named(s.bus)
  {
    PossibleIsOk(s);
    ReachableInvariant(s.bus);
    assert LightOk(s.bus, s.bus.threads[u]);
  }

  /** Whoever is about to sleep when a disconnect goes through sleeps on the inactive connection, while everybody
      else is where they were. */
  lemma DisconnectPassesDozer(s: Signals, u: nat, t: nat, c: nat) returns (s': Signals)
    requires Possible(s) && u < |s.bus.threads| && s.bus.threads[u] == RecvSleep(c)
    requires t < |s.bus.threads| && s.bus.threads[t] == Idle && s.bus.lock.None?
    ensures Possible(s') && Asleep(s', u, c) && Inactive(s'.bus, c)
    ensures s'.bus.threads == s.bus.threads[u := RecvWait(c)]
  {
    hide Possible, Sleepers;
    DozerIsKnown(s, u, c);
    s' := DisconnectRuns(s, t, c);
    s' := BroadcastRuns(s', t, c);
    s' := SleepRuns(s', u, c);
    assert s.bus.threads[t := Broadcasting(c)][t := Idle] == s.bus.threads;
  }

  /** Two threads, one connection: the first is about to sleep on it, the second idle. */
  lemma DozingReceiver() returns (s: Signals)
    ensures Possible(s) && s.bus.threads == [RecvSleep(0), Idle] && s.bus.lock.None?
  {
    s := Signals(Init(2), {}, {});
    assert Play(2, []) == Some(s);
    hide Possible;
    s := FirstConnects(s, 1, "");
    s := ReceiverDozes(s, 0, 0);
    assert s.bus.threads == [RecvSleep(0), Idle];
  }

  lemma FirstConnects(s: Signals, t: nat, id: string) returns (s': Signals)
    requires Possible(s) && t < |s.bus.threads| && s.bus.threads[t] == Idle && s.bus.lock.None?
    requires s.bus.conns == [] && s.bus.heap == []
    ensures Possible(s') && s'.bus.threads == s.bus.threads && s'.bus.lock.None? && s'.bus.conns == [0] && |s'.bus.heap| == 1
    ensures var conn := s'.bus.heap[0]; conn.active && conn.queue == [] && conn.lock.None?
  {
    hide Possible;
    s' := PlainStep(s, t, Start(WantBus(Connect(id))));
    s' := PlainStep(s', t, Go);
    s' := PlainStep(s', t, Go);
    s' := PlainStep(s', t, Go);
  }

  lemma ReceiverDozes(s: Signals, u: nat, c: nat) returns (s': Signals)
    requires Possible(s) && u < |s.bus.threads| && s.bus.threads[u] == Idle && Named(s.bus)
    requires c < |s.bus.heap| && s.bus.heap[c].active && s.bus.heap[c].queue == [] && s.bus.heap[c].lock.None?
    ensures Possible(s') && s'.bus.threads == s.bus.threads[u := RecvSleep(c)] && s'.bus.lock == s.bus.lock
  {
    hide Possible;
    s' := PlainStep(s, u, Start(RecvWant(c, true)));
    s' := PlainStep(s', u, Go);
    s' := PlainStep(s', u, Go);
  }

  /** So a receiver can sleep on an inactive connection while nobody else does anything any more. */
  lemma DisconnectCanBeMissed() returns (s: Signals)
    ensures Possible(s) && Asleep(s, 0, 0) && Inactive(s.bus, 0) && s.bus.threads == [RecvWait(0), Idle] && 0 in s.missed
  {
    s := DozingReceiver();
    s := DisconnectPassesDozer(s, 0, 1, 0);
    DisconnectMissedExactly(s, 0, 0);
  }
}
