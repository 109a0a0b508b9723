/** The thread inside the bus lock, the counters, and the whole invariant over every step. */
module BusOwner {
  import opened Wrappers
  import opened BusTypes
  import opened BusProtocol
  import opened BusInvariant

  // ---- steps that cannot disturb the holder of the bus lock ----

  /** Between `s` and `s'` no message was pushed and no table, call or identity changed. */
  ghost predicate Calm(s: Bus, s': Bus) {
    && s'.conns == s.conns && s'.calls == s.calls && s'.fanned == s.fanned && |s'.heap| == |s.heap|
    && forall c :: 0 <= c < |s.heap| ==>
         && s'.heap[c].id == s.heap[c].id && s'.heap[c].attempts == s.heap[c].attempts
         && |s'.heap[c].queue| <= |s.heap[c].queue|
  }

  lemma FanFrame(s: Bus, s': Bus, call: Call, f: Fan, done: bool)
    requires Calm(s, s') && FanOk(s, call, f, done)
    ensures FanOk(s', call, f, done)
  {
  }

  lemma FreshFrame(s: Bus, s': Bus, stamp: nat)
    requires Calm(s, s') && AllFresh(s, stamp)
    ensures AllFresh(s', stamp)
  {
  }

  lemma FromFrame(s: Bus, s': Bus, call: Call, c: nat, from: Origin, done: bool)
    requires Calm(s, s') && FromOk(s, call, c, from, done)
    ensures FromOk(s', call, c, from, done)
  {
    match from {
      case ByPublish(f) => FanFrame(s, s', call, f, done);
      case ByAddress(_) => if !done { FreshFrame(s, s', call.stamp); }
      case ByTopic(se) => if !done { FreshFrame(s, s', call.stamp); }
    }
  }

  lemma HolderFramePublish(s: Bus, s': Bus, pc: PC)
    requires Calm(s, s') && HolderOk(s, pc) && (pc.PubAt? || pc.PubWantScan? || pc.PubScan? || pc.PubScanned?)
    ensures HolderOk(s', pc)
  {
    FanFrame(s, s', pc.call, pc.fan, false);
  }

  lemma HolderFrameRoute(s: Bus, s': Bus, pc: PC)
    requires Calm(s, s') && HolderOk(s, pc)
    requires pc.RouteDirect? || pc.RouteAt? || pc.RouteWantScan? || pc.RouteScan? || pc.RouteScanned?
    ensures HolderOk(s', pc)
  {
    FreshFrame(s, s', pc.call.stamp);
  }

  lemma HolderFramePush(s: Bus, s': Bus, pc: PC)
    requires Calm(s, s') && HolderOk(s, pc) && (pc.WantPush? || pc.Pushing? || pc.Counting? || pc.PushUnlock?)
    ensures HolderOk(s', pc)
  {
    FromFrame(s, s', pc.call, pc.c, pc.from, pc.Counting? || pc.PushUnlock?);
  }

  lemma HolderFrame(s: Bus, s': Bus, pc: PC)
    requires Calm(s, s') && HolderOk(s, pc)
    ensures HolderOk(s', pc)
  {
    if pc.PubAt? || pc.PubWantScan? || pc.PubScan? || pc.PubScanned? {
      HolderFramePublish(s, s', pc);
    } else if pc.RouteDirect? || pc.RouteAt? || pc.RouteWantScan? || pc.RouteScan? || pc.RouteScanned? {
      HolderFrameRoute(s, s', pc);
    } else if pc.WantPush? || pc.Pushing? || pc.Counting? || pc.PushUnlock? {
      HolderFramePush(s, s', pc);
    }
  }

  lemma EffectIsCalm(pc: PC, conn: Conn, me: nat, choice: Choice)
    requires ConnOf(pc).Some? && !InTable(pc) && (pc.RecvWait? ==> choice.Wake?) && !pc.Pushing?
    ensures var e := ConnEffect(pc, conn, me, choice);
            e.conn.Some? ==> && e.conn.value.id == conn.id && e.conn.value.attempts == conn.attempts
                             && |e.conn.value.queue| <= |conn.queue|
  {
  }

  lemma StepIsCalm(s: Bus, t: nat, choice: Choice)
    requires Enabled(s, t, choice) && !InTable(s.threads[t]) && !s.threads[t].Pushing?
    ensures Calm(s, Next(s, t, choice))
  {
    var pc := s.threads[t];
    if ConnOf(pc).Some? {
      EffectIsCalm(pc, s.heap[ConnOf(pc).value], t, choice);
    }
  }

  // ---- the holder's own steps ----

  lemma AllAreFresh(s: Bus, c: nat)
    requires HistoryOk(s) && c < |s.heap|
    ensures Fresh(s.heap[c], |s.calls|)
  {
    assert ConnOk(s.calls, s.heap[c]);
  }

  /** The loop of publish passes a connection whose outcome is known. */
  lemma FanAdvance(s: Bus, call: Call, f: Fan, done: bool, o: Outcome)
    requires FanOk(s, call, f, done) && Named(s) && f.i < |s.conns|
    requires OutcomeOf(s.heap[s.conns[f.i]], call.stamp) == o
    requires |f.hits| == f.i + 1
    requires o != Skipped <==> DirectTo(call.msg, s.heap[s.conns[f.i]].id) || (IsBroadcast(call.msg) && f.hits[f.i])
    ensures FanOk(s, call, Visited(f, o), false)
  {
    assert (f.outcomes + [o])[..f.i] == f.outcomes;
  }

  lemma FanNoted(s: Bus, call: Call, f: Fan, hit: bool)
    requires FanOk(s, call, f, false) && |f.hits| == f.i
    ensures FanOk(s, call, Noted(f, hit), false) && Noted(f, hit).hits[f.i] == hit
  {
  }

  lemma SearchAdvance(s: Bus, se: Search, look: Look)
    requires SearchOk(s, se) && se.i < |s.conns| && look.c == s.conns[se.i] < |s.heap|
    requires |s.heap[look.c].queue| <= look.count <= QUEUE_MAX
    ensures SearchOk(s, Looked(se, look))
  {
    var se' := Looked(se, look);
    assert se'.seen[se.i] == look;
    assert forall j :: 0 <= j < se.i ==> se'.seen[j] == se.seen[j];
    if look.matched && look.count < se.minQ {
      assert se'.seen[se.i] == Look(se'.best.value, true, se'.minQ);
    } else if se.best.Some? {
      var p :| 0 <= p < |se.seen| && se.seen[p] == Look(se.best.value, true, se.minQ) &&
        forall j :: 0 <= j < p && se.seen[j].matched ==> se.minQ < se.seen[j].count;
      assert se'.seen[p] == Look(se'.best.value, true, se'.minQ);
    }
  }

  lemma HolderAtPublish(s: Bus, t: nat, choice: Choice)
    requires TableOk(s) && Enabled(s, t, choice) && s.threads[t].PubAt? && HolderOk(s, s.threads[t])
    ensures HolderOk(s, Next(s, t, choice).threads[t])
  {
    var call, f := s.threads[t].call, s.threads[t].fan;
    if f.i < |s.conns| {
      var c := s.conns[f.i];
      FanNoted(s, call, f, false);
      if !DirectTo(call.msg, s.heap[c].id) && !IsBroadcast(call.msg) {
        FanAdvance(s, call, Noted(f, false), false, Skipped);
      }
    }
  }

  lemma HolderAtScanned(s: Bus, pc: PC)
    requires TableOk(s) && pc.PubScanned? && HolderOk(s, pc)
    ensures HolderOk(s, if pc.hit then WantPush(pc.call, pc.c, ByPublish(Noted(pc.fan, pc.hit)))
                        else PubAt(pc.call, Visited(Noted(pc.fan, pc.hit), Skipped)))
  {
    FanNoted(s, pc.call, pc.fan, pc.hit);
    if !pc.hit { FanAdvance(s, pc.call, Noted(pc.fan, false), false, Skipped); }
  }

  lemma HolderAtLook(s: Bus, pc: PC)
    requires pc.RouteScanned? && HolderOk(s, pc)
    ensures HolderOk(s, RouteAt(pc.call, Looked(pc.search, pc.look)))
  {
    SearchAdvance(s, pc.search, pc.look);
  }

  lemma HolderAtRoute(s: Bus, t: nat, choice: Choice)
    requires TableOk(s) && Enabled(s, t, choice) && HolderOk(s, s.threads[t])
    requires s.threads[t].RouteDirect? || s.threads[t].RouteAt?
    ensures HolderOk(s, Next(s, t, choice).threads[t])
  {
    hide HolderOk, TableOk;
    if s.threads[t].RouteDirect? { HolderAtDirect(s, t, choice); } else { HolderAtSearch(s, t, choice); }
  }

  lemma HolderAtDirect(s: Bus, t: nat, choice: Choice)
    requires TableOk(s) && Enabled(s, t, choice) && s.threads[t].RouteDirect? && HolderOk(s, s.threads[t])
    ensures HolderOk(s, Next(s, t, choice).threads[t])
  {
  }

  lemma HolderAtSearch(s: Bus, t: nat, choice: Choice)
    requires TableOk(s) && Enabled(s, t, choice) && s.threads[t].RouteAt? && HolderOk(s, s.threads[t])
    ensures HolderOk(s, Next(s, t, choice).threads[t])
  {
  }

  lemma HolderAtPushUnlock(s: Bus, pc: PC)
    requires TableOk(s) && pc.PushUnlock? && HolderOk(s, pc)
    ensures HolderOk(s, AfterPush(pc.call, pc.from, pc.ok))
  {
    if pc.from.ByPublish? {
      FanAdvance(s, pc.call, pc.from.fan, true, if pc.ok then Accepted else Dropped);
    }
  }

  /** The push gives its connection the outcome of this call and leaves every other connection alone. */
  lemma FanAfterPush(s: Bus, s': Bus, call: Call, f: Fan)
    requires TableOk(s) && FanOk(s, call, f, false) && f.i < |s.conns|
    requires s'.conns == s.conns && s'.fanned == s.fanned
    requires |s'.heap| == |s.heap| && s'.heap[s.conns[f.i]].id == s.heap[s.conns[f.i]].id
    requires forall d :: 0 <= d < |s.heap| && d != s.conns[f.i] ==> s'.heap[d] == s.heap[d]
    ensures FanOk(s', call, f, true)
  {
    assert forall j :: 0 <= j < |s.conns| && j != f.i ==> s.conns[j] != s.conns[f.i];
    assert s.conns[f.i] in s.conns;
  }

  lemma PushOutcome(conn: Conn, call: Call, c: nat, from: Origin)
    ensures var e := PushEffect(conn, call, c, from);
            && e.pc.Counting? && e.pc.call == call && e.pc.c == c && e.pc.from == from && e.conn.Some?
            && OutcomeOf(e.conn.value, call.stamp) == (if e.pc.ok then Accepted else Dropped)
            && e.conn.value.id == conn.id
  {
  }

  lemma HolderAtPush(s: Bus, t: nat, choice: Choice)
    requires TableOk(s) && Enabled(s, t, choice) && s.threads[t].Pushing? && HolderOk(s, s.threads[t])
    ensures HolderOk(Next(s, t, choice), Next(s, t, choice).threads[t])
  {
    var s', pc := Next(s, t, choice), s.threads[t];
    PushOutcome(s.heap[pc.c], pc.call, pc.c, pc.from);
    if pc.from.ByPublish? {
      FanAfterPush(s, s', pc.call, pc.from.fan);
    }
  }

  /** Taking a queue lock, looking at the subscriptions and counting keep what is known as it is. */
  predicate Passes(pc: PC) {
    pc.PubWantScan? || pc.PubScan? || pc.RouteWantScan? || pc.WantPush? || pc.Counting?
  }

  lemma HolderPasses(s: Bus, pc: PC, conn: Conn, me: nat, choice: Choice)
    requires Passes(pc) && HolderOk(s, pc)
    ensures HolderOk(s, ConnEffect(pc, conn, me, choice).pc)
  {
  }

  lemma HolderAtScan(s: Bus, pc: PC, me: nat, choice: Choice)
    requires TableOk(s) && HistoryOk(s) && pc.RouteScan? && HolderOk(s, pc) && pc.c < |s.heap|
    ensures HolderOk(s, ConnEffect(pc, s.heap[pc.c], me, choice).pc)
  {
    assert ConnOk(s.calls, s.heap[pc.c]);
  }

  /** The new program counter is justified in the new state, given that the old one is. */
  lemma HolderMoves(s: Bus, s': Bus, t: nat, choice: Choice)
    requires TableOk(s) && HistoryOk(s) && Enabled(s, t, choice) && !InTable(s.threads[t]) && !s.threads[t].Pushing?
    requires s' == Next(s, t, choice) && Calm(s, s') && HoldsBus(s.threads[t])
    requires TableOk(s') && HolderOk(s, s.threads[t]) && HolderOk(s', s.threads[t])
    ensures HolderOk(s', s'.threads[t])
  {
    hide HolderOk, TableOk, HistoryOk, Calm, Next;
    if Looks(s.threads[t]) { HolderLooks(s, s', t, choice); } else { HolderGoesOn(s, s', t, choice); }
  }

  /** The steps that read the table or a connection. */
  predicate Looks(pc: PC) { pc.PubAt? || pc.RouteDirect? || pc.RouteAt? || pc.RouteScan? }

  lemma HolderLooks(s: Bus, s': Bus, t: nat, choice: Choice)
    requires TableOk(s) && HistoryOk(s) && Enabled(s, t, choice) && Looks(s.threads[t])
    requires s' == Next(s, t, choice) && Calm(s, s') && HolderOk(s, s.threads[t])
    ensures HolderOk(s', s'.threads[t])
  {
    hide HolderOk, TableOk, HistoryOk, Calm;
    var pc := s.threads[t];
    if pc.PubAt? {
      HolderAtPublish(s, t, choice);
      HolderFrame(s, s', s'.threads[t]);
    } else if pc.RouteDirect? || pc.RouteAt? {
      HolderAtRoute(s, t, choice);
      HolderFrame(s, s', s'.threads[t]);
    } else {
      HolderAtScan(s, pc, t, choice);
      HolderFrame(s, s', s'.threads[t]);
    }
  }

  lemma HolderGoesOn(s: Bus, s': Bus, t: nat, choice: Choice)
    requires Enabled(s, t, choice) && !InTable(s.threads[t]) && !s.threads[t].Pushing? && !Looks(s.threads[t])
    requires s' == Next(s, t, choice) && HoldsBus(s.threads[t]) && TableOk(s') && HolderOk(s', s.threads[t])
    ensures HolderOk(s', s'.threads[t])
  {
    hide HolderOk, TableOk;
    var pc := s.threads[t];
    if Passes(pc) {
      HolderPasses(s', pc, s.heap[pc.c], t, choice);
    } else if pc.PubScanned? {
      HolderAtScanned(s', pc);
    } else if pc.RouteScanned? {
      HolderAtLook(s', pc);
    } else {
      HolderAtPushUnlock(s', pc);
    }
  }

  lemma OwnerStepTable(s: Bus, t: nat, choice: Choice)
    requires OwnerOk(s) && LocksOk(s) && HistoryOk(s) && Enabled(s, t, choice) && InTable(s.threads[t])
    ensures OwnerOk(Next(s, t, choice))
  {
    var s', pc := Next(s, t, choice), s.threads[t];
    if pc.WantBus? {
      HolderStarts(s, t, choice);
    } else if pc.Idle? || pc.Clearing? || pc.Broadcasting? {
      if s.lock.Some? {
        assert s.lock.value != t;
        hide HolderOk;
        HolderFrame(s, s', s.threads[s.lock.value]);
      }
    }
  }

  lemma HolderStarts(s: Bus, t: nat, choice: Choice)
    requires HistoryOk(s) && Enabled(s, t, choice) && s.threads[t].WantBus?
    ensures OwnerOk(Next(s, t, choice))
  {
    forall c | 0 <= c < |s.heap| ensures Fresh(s.heap[c], |s.calls|) { AllAreFresh(s, c); }
  }

  lemma OwnerStep(s: Bus, t: nat, choice: Choice)
    requires Inv(s) && Enabled(s, t, choice) && TableOk(Next(s, t, choice))
    ensures OwnerOk(Next(s, t, choice))
  {
    var s', pc := Next(s, t, choice), s.threads[t];
    if InTable(pc) {
      OwnerStepTable(s, t, choice);
    } else {
      OtherCodeKeepsTable(s, t, choice);
      if pc.Pushing? {
        assert s.lock == Some(t);
        HolderAtPush(s, t, choice);
      } else if s.lock.Some? {
        StepIsCalm(s, t, choice);
        var u := s.lock.value;
        HolderFrame(s, s', s.threads[u]);
        if u == t { HolderMoves(s, s', t, choice); }
      }
    }
  }

  // ---- counters ----

  lemma {:induction false} TotalsOfSame(h: seq<Conn>, h': seq<Conn>)
    requires |h| == |h'| && forall c :: 0 <= c < |h| ==> h'[c].attempts == h[c].attempts
    ensures TotalAccepted(h') == TotalAccepted(h) && TotalDropped(h') == TotalDropped(h)
  {
    if h != [] { TotalsOfSame(h[..|h| - 1], h'[..|h| - 1]); }
  }

  /** One more attempt on one connection moves exactly one of the two totals, by one. */
  lemma {:induction false} TotalsAfterAttempt(h: seq<Conn>, h': seq<Conn>, c: nat, x: Attempt)
    requires c < |h| == |h'| && h'[c].attempts == h[c].attempts + [x]
    requires forall d :: 0 <= d < |h| && d != c ==> h'[d].attempts == h[d].attempts
    ensures TotalAccepted(h') == TotalAccepted(h) + (if x.accepted then 1 else 0)
    ensures TotalDropped(h') == TotalDropped(h) + (if x.accepted then 0 else 1)
  {
    var last := |h| - 1;
    if c == last {
      TotalsOfSame(h[..last], h'[..last]);
      AcceptedOfSnoc(h[c].attempts, x);
    } else {
      TotalsAfterAttempt(h[..last], h'[..last], c, x);
    }
  }

  lemma TotalsWithNew(h: seq<Conn>, conn: Conn)
    requires conn.attempts == []
    ensures TotalAccepted(h + [conn]) == TotalAccepted(h) && TotalDropped(h + [conn]) == TotalDropped(h)
  {
    assert (h + [conn])[..|h|] == h;
  }

  lemma CountersStepConnect(s: Bus, t: nat, choice: Choice)
    requires CountersOk(s) && LocksOk(s) && Enabled(s, t, choice) && s.threads[t].Connecting?
    ensures CountersOk(Next(s, t, choice))
  {
    assert s.lock == Some(t);
    CountersAfterConnect(s, Next(s, t, choice));
  }

  /** The heap is as before, or has a connection more that nothing was offered to. */
  ghost predicate Grown(s: Bus, s': Bus) {
    && s'.routed == s.routed && s'.dropped == s.dropped
    && !Uncounted(s, true) && !Uncounted(s, false) && !Uncounted(s', true) && !Uncounted(s', false)
    && (s'.heap != s.heap ==>
          |s'.heap| == |s.heap| + 1 && s'.heap == s.heap + [s'.heap[|s.heap|]] &&
          s'.heap[|s.heap|].attempts == [] && s'.heap[|s.heap|].drops == 0)
  }

  lemma CountersAfterConnect(s: Bus, s': Bus)
    requires CountersOk(s) && Grown(s, s')
    ensures CountersOk(s')
  {
    if s'.heap != s.heap { TotalsWithNew(s.heap, s'.heap[|s.heap|]); }
    forall c | 0 <= c < |s'.heap| ensures DropsOk(s', c) {
      if c < |s.heap| { assert DropsOk(s, c); }
    }
  }

  lemma CountersStepTable(s: Bus, t: nat, choice: Choice)
    requires CountersOk(s) && LocksOk(s) && Enabled(s, t, choice) && InTable(s.threads[t]) && !s.threads[t].Connecting?
    ensures CountersOk(Next(s, t, choice))
  {
    var s' := Next(s, t, choice);
    assert HoldsBus(s.threads[t]) <==> s.lock == Some(t);
    TableStepCountsNothing(s, t, choice);
    TotalsOfSame(s.heap, s'.heap);
    hide Next;
    forall c | 0 <= c < |s'.heap| ensures DropsOk(s', c) {
      assert DropsOk(s, c);
    }
  }

  lemma TableStepCountsNothing(s: Bus, t: nat, choice: Choice)
    requires Enabled(s, t, choice) && InTable(s.threads[t]) && !s.threads[t].Connecting?
    ensures var s' := Next(s, t, choice);
            && s'.routed == s.routed && s'.dropped == s.dropped && |s'.heap| == |s.heap| && |s'.threads| == |s.threads|
            && !s.threads[t].Counting? && !s'.threads[t].Counting?
            && (forall u :: 0 <= u < |s.threads| && u != t ==> s'.threads[u] == s.threads[u])
            && forall c :: 0 <= c < |s.heap| ==>
                 s'.heap[c].drops == s.heap[c].drops && s'.heap[c].attempts == s.heap[c].attempts
  {
  }

  lemma EffectKeepsDrops(pc: PC, conn: Conn, me: nat, choice: Choice)
    requires ConnOf(pc).Some? && !InTable(pc) && (pc.RecvWait? ==> choice.Wake?) && !pc.Pushing? && !pc.Counting?
    ensures var e := ConnEffect(pc, conn, me, choice);
            && (e.conn.Some? ==> e.conn.value.drops == conn.drops && e.conn.value.attempts == conn.attempts)
            && !e.pc.Counting? && !e.routed && !e.dropped
  {
  }

  /** A step that neither pushes nor counts leaves attempts, drops and both totals alone. */
  lemma QuietStep(s: Bus, t: nat, choice: Choice)
    requires Enabled(s, t, choice) && !InTable(s.threads[t]) && !s.threads[t].Pushing? && !s.threads[t].Counting?
    ensures var s' := Next(s, t, choice);
            && s'.routed == s.routed && s'.dropped == s.dropped && s'.lock == s.lock && |s'.heap| == |s.heap|
            && !s'.threads[t].Counting?
            && forall c :: 0 <= c < |s.heap| ==>
                 s'.heap[c].drops == s.heap[c].drops && s'.heap[c].attempts == s.heap[c].attempts
  {
    var pc := s.threads[t];
    if ConnOf(pc).Some? { EffectKeepsDrops(pc, s.heap[ConnOf(pc).value], t, choice); }
  }

  lemma CountersStepQuiet(s: Bus, t: nat, choice: Choice)
    requires CountersOk(s) && LocksOk(s) && Enabled(s, t, choice)
    requires !InTable(s.threads[t]) && !s.threads[t].Pushing? && !s.threads[t].Counting?
    ensures CountersOk(Next(s, t, choice))
  {
    var s' := Next(s, t, choice);
    QuietStep(s, t, choice);
    OtherCodeKeepsTable(s, t, choice);
    TotalsOfSame(s.heap, s'.heap);
    forall c | 0 <= c < |s'.heap| ensures DropsOk(s', c) {
      assert DropsOk(s, c);
    }
  }

  /** One attempt is on record and not yet counted. */
  ghost predicate Recorded(s: Bus, s': Bus, t: nat, c: nat, x: Attempt) {
    && c < |s.heap| == |s'.heap| && s'.routed == s.routed && s'.dropped == s.dropped && s'.lock == Some(t)
    && (forall d :: 0 <= d < |s.heap| ==>
          && s'.heap[d].drops == s.heap[d].drops
          && s'.heap[d].attempts == if d == c then s.heap[d].attempts + [x] else s.heap[d].attempts)
    && t < |s'.threads| && s'.threads[t].Counting? && s'.threads[t].c == c && s'.threads[t].ok == x.accepted
    && !Uncounted(s, true) && !Uncounted(s, false)
  }

  lemma PushIsRecorded(s: Bus, t: nat, choice: Choice) returns (x: Attempt)
    requires LocksOk(s) && Enabled(s, t, choice) && s.threads[t].Pushing?
    ensures Recorded(s, Next(s, t, choice), t, s.threads[t].c, x)
  {
    var s', pc := Next(s, t, choice), s.threads[t];
    x := Attempt(pc.call.stamp, pc.call.msg, s'.threads[t].ok);
    assert s.lock == Some(t);
  }

  lemma DropsAfterPush(s: Bus, s': Bus, t: nat, c: nat, x: Attempt, d: nat)
    requires Recorded(s, s', t, c, x) && d < |s.heap| && DropsOk(s, d)
    ensures DropsOk(s', d)
  {
    AcceptedOfSnoc(s.heap[d].attempts, x);
  }

  lemma CountersAfterPush(s: Bus, s': Bus, t: nat, c: nat, x: Attempt)
    requires CountersOk(s) && Recorded(s, s', t, c, x)
    ensures CountersOk(s')
  {
    assert TotalAccepted(s'.heap) == TotalAccepted(s.heap) + (if x.accepted then 1 else 0) &&
           TotalDropped(s'.heap) == TotalDropped(s.heap) + (if x.accepted then 0 else 1) by {
      TotalsAfterAttempt(s.heap, s'.heap, c, x);
    }
    forall d | 0 <= d < |s'.heap| ensures DropsOk(s', d) {
      DropsAfterPush(s, s', t, c, x, d);
    }
  }

  lemma CountersStepPush(s: Bus, t: nat, choice: Choice)
    requires CountersOk(s) && LocksOk(s) && Enabled(s, t, choice) && s.threads[t].Pushing?
    ensures CountersOk(Next(s, t, choice))
  {
    var x := PushIsRecorded(s, t, choice);
    CountersAfterPush(s, Next(s, t, choice), t, s.threads[t].c, x);
  }

  lemma CountersStepCount(s: Bus, t: nat, choice: Choice)
    requires CountersOk(s) && LocksOk(s) && Enabled(s, t, choice) && s.threads[t].Counting?
    ensures CountersOk(Next(s, t, choice))
  {
    var s', pc := Next(s, t, choice), s.threads[t];
    assert s.lock == Some(t);
    TotalsOfSame(s.heap, s'.heap);
    forall c | 0 <= c < |s'.heap| ensures DropsOk(s', c) {
      assert DropsOk(s, c);
    }
  }

  lemma CountersStep(s: Bus, t: nat, choice: Choice)
    requires CountersOk(s) && LocksOk(s) && Enabled(s, t, choice)
    ensures CountersOk(Next(s, t, choice))
  {
    var pc := s.threads[t];
    if pc.Connecting? { CountersStepConnect(s, t, choice); }
    else if InTable(pc) { CountersStepTable(s, t, choice); }
    else if pc.Pushing? { CountersStepPush(s, t, choice); }
    else if pc.Counting? { CountersStepCount(s, t, choice); }
    else { CountersStepQuiet(s, t, choice); }
  }

  // ---- the whole invariant ----

  lemma StepKeepsInvariant(s: Bus, t: nat, choice: Choice)
    requires Inv(s) && Enabled(s, t, choice)
    ensures Inv(Next(s, t, choice))
  {
    assert HolderOk(s, s.threads[t]) by { if HoldsBus(s.threads[t]) { assert s.lock == Some(t); } }
    var s' := Next(s, t, choice);
    assert LocksOk(s') by { LocksStep(s, t, choice); }
    assert TableOk(s') by { TableStep(s, t, choice); }
    assert AllLightOk(s') by { LightStep(s, t, choice); }
    assert HistoryOk(s') by { HistoryStep(s, t, choice); }
    assert OwnerOk(s') by { OwnerStep(s, t, choice); }
    assert CountersOk(s') by { CountersStep(s, t, choice); }
  }

  lemma {:induction false} RunKeepsInvariant(n: nat, schedule: seq<Event>)
    ensures Exec(n, schedule).Some? ==> Inv(Exec(n, schedule).value)
  {
    if schedule != [] && Exec(n, schedule).Some? {
      var last := |schedule| - 1;
      RunKeepsInvariant(n, schedule[..last]);
      StepKeepsInvariant(Exec(n, schedule[..last]).value, schedule[last].t, schedule[last].choice);
    }
  }

  lemma StepReaches(s: Bus, t: nat, choice: Choice)
    requires Reachable(s) && Enabled(s, t, choice)
    ensures Reachable(Next(s, t, choice))
  {
    hide Enabled, Next;
    var n, schedule :| Exec(n, schedule) == Some(s);
    var e := Event(t, choice);
    assert (schedule + [e])[..|schedule|] == schedule;
    assert Exec(n, schedule + [e]) == Some(Next(s, t, choice));
  }

  /** Every state of every run of any number of threads satisfies the invariant. */
  lemma ReachableInvariant(s: Bus)
    requires Reachable(s)
    ensures Inv(s)
  {
    var n, schedule :| Exec(n, schedule) == Some(s);
    RunKeepsInvariant(n, schedule);
  }
}
