/** What the bus guarantees in every reachable state: any number of threads, any interleaving. */
module BusTheorems {
  import opened Basics
  import opened Wrappers
  import opened BusTypes
  import opened Words
  import opened BusProtocol
  import opened BusInvariant
  import opened BusOwner

  // ---- delivery order ----

  /** The accepted attempts of a connection, in order. */
  function Receipts(a: seq<Attempt>): seq<Attempt> {
    if a == [] then [] else Receipts(a[..|a| - 1]) + if a[|a| - 1].accepted then [a[|a| - 1]] else []
  }

  function MsgsOf(a: seq<Attempt>): (r: seq<Message>)
    ensures |r| == |a| && forall k :: 0 <= k < |a| ==> r[k] == a[k].msg
  {
    seq(|a|, k requires 0 <= k < |a| => a[k].msg)
  }

  ghost predicate StampsIncrease(a: seq<Attempt>) {
    forall j, k :: 0 <= j < k < |a| ==> a[j].stamp < a[k].stamp
  }

  lemma {:induction false} ReceiptsKeepOrder(a: seq<Attempt>)
    requires StampsIncrease(a)
    ensures StampsIncrease(Receipts(a))
    ensures forall k :: 0 <= k < |Receipts(a)| ==> Receipts(a)[k].accepted && Receipts(a)[k] in a
    ensures MsgsOf(Receipts(a)) == AcceptedOf(a)
  {
    if a != [] {
      var init := a[..|a| - 1];
      ReceiptsKeepOrder(init);
      forall k | 0 <= k < |Receipts(init)| ensures Receipts(init)[k] in a && Receipts(init)[k].stamp < a[|a| - 1].stamp {
        assert Receipts(init)[k] in init;
      }
    }
  }

  /** What a connection accepted is a subsequence of the calls in bus-lock order, one copy per call at most;
      what it has received so far, followed by what still waits in its queue, is exactly that. */
  lemma DeliveryFollowsLockOrder(s: Bus, c: nat)
    requires Reachable(s) && c < |s.heap|
    ensures var r := Receipts(s.heap[c].attempts);
            && StampsIncrease(r)
            && (forall k :: 0 <= k < |r| ==> r[k].stamp < |s.calls| && s.calls[r[k].stamp] == r[k].msg)
            && s.heap[c].popped + s.heap[c].queue == MsgsOf(r)
  {
    ReachableInvariant(s);
    assert ConnOk(s.calls, s.heap[c]);
    ReceiptsKeepOrder(s.heap[c].attempts);
    var r := Receipts(s.heap[c].attempts);
    forall k | 0 <= k < |r| ensures r[k].stamp < |s.calls| && s.calls[r[k].stamp] == r[k].msg {
      assert r[k] in s.heap[c].attempts;
    }
  }

  lemma OrdersAgree(ra: seq<Attempt>, rb: seq<Attempt>, i: nat, j: nat, k: nat, l: nat)
    requires StampsIncrease(ra) && StampsIncrease(rb) && i < |ra| && j < |ra| && k < |rb| && l < |rb|
    requires ra[i].stamp == rb[k].stamp && ra[j].stamp == rb[l].stamp
    ensures i < j <==> k < l
  {
    assert i < j <==> ra[i].stamp < ra[j].stamp;
    assert k < l <==> rb[k].stamp < rb[l].stamp;
  }

  /** Any two receivers get the calls they share in the same order. */
  lemma ReceiversAgreeOnOrder(s: Bus, a: nat, b: nat, i: nat, j: nat, k: nat, l: nat)
    requires Reachable(s) && a < |s.heap| && b < |s.heap|
    requires var ra, rb := Receipts(s.heap[a].attempts), Receipts(s.heap[b].attempts);
             && i < |ra| && j < |ra| && k < |rb| && l < |rb|
             && ra[i].stamp == rb[k].stamp && ra[j].stamp == rb[l].stamp
    ensures i < j <==> k < l
  {
    DeliveryFollowsLockOrder(s, a);
    DeliveryFollowsLockOrder(s, b);
    OrdersAgree(Receipts(s.heap[a].attempts), Receipts(s.heap[b].attempts), i, j, k, l);
  }

  // ---- one target per route ----

  /** Connections `c` and `d` were both offered call `stamp`. */
  ghost predicate Shared(s: Bus, c: nat, d: nat, stamp: nat) {
    && c < |s.heap| && d < |s.heap| && c != d
    && Offered(s.heap[c], stamp) && Offered(s.heap[d], stamp)
  }

  ghost predicate Offered(conn: Conn, stamp: nat) {
    exists k :: 0 <= k < |conn.attempts| && conn.attempts[k].stamp == stamp
  }

  ghost predicate OnlyPublishShares(s: Bus) {
    forall c: nat, d: nat, stamp: nat :: Shared(s, c, d, stamp) ==> stamp in s.fanned
  }

  lemma OfferedAfterPush(conn: Conn, call: Call, c: nat, from: Origin, stamp: nat)
    ensures var e := PushEffect(conn, call, c, from);
            && e.conn.Some?
            && (Offered(e.conn.value, stamp) ==> Offered(conn, stamp) || stamp == call.stamp)
  {
    var conn' := PushEffect(conn, call, c, from).conn.value;
    if k :| 0 <= k < |conn'.attempts| && conn'.attempts[k].stamp == stamp && k < |conn.attempts| {
      assert conn.attempts[k].stamp == stamp;
    }
  }

  lemma FreshNotOffered(calls: seq<Message>, conn: Conn, stamp: nat)
    requires ConnOk(calls, conn) && Fresh(conn, stamp)
    ensures !Offered(conn, stamp)
  {
  }

  lemma PushSharesOnlyByPublish(s: Bus, t: nat, choice: Choice, c: nat, d: nat, stamp: nat)
    requires Inv(s) && OnlyPublishShares(s) && Enabled(s, t, choice) && s.threads[t].Pushing?
    requires Shared(Next(s, t, choice), c, d, stamp)
    ensures stamp in s.fanned
  {
    var s', pc := Next(s, t, choice), s.threads[t];
    assert s.lock == Some(t) && HolderOk(s, pc);
    OfferedAfterPush(s.heap[pc.c], pc.call, pc.c, pc.from, stamp);
    assert stamp != pc.call.stamp ==> Shared(s, c, d, stamp);
    if stamp == pc.call.stamp && !pc.from.ByPublish? {
      var other := if c == pc.c then d else c;
      assert s'.heap[other] == s.heap[other];
      assert ConnOk(s.calls, s.heap[other]);
      FreshNotOffered(s.calls, s.heap[other], stamp);
      assert false;
    }
  }

  /** Attempts are as before; new connections have none. */
  ghost predicate NoNewOffers(s: Bus, s': Bus) {
    && |s.heap| <= |s'.heap| && s.fanned <= s'.fanned
    && forall c :: 0 <= c < |s'.heap| ==>
         s'.heap[c].attempts == if c < |s.heap| then s.heap[c].attempts else []
  }

  lemma NoOffersNoShares(s: Bus, s': Bus)
    requires OnlyPublishShares(s) && NoNewOffers(s, s')
    ensures OnlyPublishShares(s')
  {
    forall c: nat, d: nat, stamp: nat | Shared(s', c, d, stamp) ensures stamp in s'.fanned {
      assert Shared(s, c, d, stamp);
    }
  }

  lemma QuietStepOffersNothing(s: Bus, t: nat, choice: Choice)
    requires Enabled(s, t, choice) && !s.threads[t].Pushing?
    ensures NoNewOffers(s, Next(s, t, choice))
  {
    if !InTable(s.threads[t]) { StepIsCalm(s, t, choice); }
  }

  lemma PushShares(s: Bus, t: nat, choice: Choice)
    requires Inv(s) && OnlyPublishShares(s) && Enabled(s, t, choice) && s.threads[t].Pushing?
    ensures OnlyPublishShares(Next(s, t, choice))
  {
    var s' := Next(s, t, choice);
    forall c: nat, d: nat, stamp: nat | Shared(s', c, d, stamp) ensures stamp in s'.fanned {
      PushSharesOnlyByPublish(s, t, choice, c, d, stamp);
    }
  }

  lemma SharesStep(s: Bus, t: nat, choice: Choice)
    requires Inv(s) && OnlyPublishShares(s) && Enabled(s, t, choice)
    ensures OnlyPublishShares(Next(s, t, choice))
  {
    if s.threads[t].Pushing? {
      PushShares(s, t, choice);
    } else {
      QuietStepOffersNothing(s, t, choice);
      NoOffersNoShares(s, Next(s, t, choice));
    }
  }

  lemma {:induction false} RunSharesOnlyPublishes(n: nat, schedule: seq<Event>)
    ensures Exec(n, schedule).Some? ==> OnlyPublishShares(Exec(n, schedule).value)
  {
    if schedule != [] && Exec(n, schedule).Some? {
      var last := |schedule| - 1;
      RunSharesOnlyPublishes(n, schedule[..last]);
      RunKeepsInvariant(n, schedule[..last]);
      SharesStep(Exec(n, schedule[..last]).value, schedule[last].t, schedule[last].choice);
    }
  }

  /** If two connections were offered the same call, it was a publish: a route has at most one target. */
  lemma RouteHasOneTarget(s: Bus, c: nat, d: nat, stamp: nat)
    requires Reachable(s) && Shared(s, c, d, stamp)
    ensures stamp in s.fanned
  {
    var n, schedule :| Exec(n, schedule) == Some(s);
    RunSharesOnlyPublishes(n, schedule);
  }

  // ---- publish and route reach whom they should ----

  lemma HolderIsKnown(s: Bus, t: nat)
    requires Reachable(s) && t < |s.threads| && HoldsBus(s.threads[t])
    ensures s.lock == Some(t) && HolderOk(s, s.threads[t]) && TableOk(s)
  {
    hide HolderOk, TableOk;
    ReachableInvariant(s);
  }

  /** When the fan-out loop ends, a push was tried exactly on the connections of the table that are addressed
      by id or, for a broadcast, whose subscriptions matched when they were looked at; the history records
      what became of each, and `delivered` counts those that accepted. No other connection was touched. */
  lemma PublishVisitsEveryone(s: Bus, t: nat)
    requires Reachable(s) && t < |s.threads| && s.threads[t].PubAt? && s.threads[t].fan.i >= |s.conns|
    ensures var call, f := s.threads[t].call, s.threads[t].fan;
            && |f.outcomes| == |f.hits| == |s.conns| && f.delivered == CountAccepted(f.outcomes)
            && (forall j :: 0 <= j < |s.conns| ==>
                  && s.conns[j] < |s.heap|
                  && OutcomeOf(s.heap[s.conns[j]], call.stamp) == f.outcomes[j]
                  && (f.outcomes[j] != Skipped <==>
                        || (call.msg.to != "" && call.msg.to == s.heap[s.conns[j]].id)
                        || ((call.msg.to == "" || call.msg.to == "*") && f.hits[j])))
            && (forall c :: 0 <= c < |s.heap| && c !in s.conns ==> OutcomeOf(s.heap[c], call.stamp) == Skipped)
  {
    HolderIsKnown(s, t);
  }

  /** A push with room appends the message to the queue and reports success; a push onto a full queue leaves it and
      reports a drop. Either way the attempt is on record, and no other connection is touched. */
  lemma PushQueuesOrDrops(s: Bus, t: nat, choice: Choice)
    requires Enabled(s, t, choice) && s.threads[t].Pushing?
    ensures var pc, s' := s.threads[t], Next(s, t, choice);
            && s'.threads[t].Counting? && s'.threads[t].call == pc.call && s'.threads[t].c == pc.c < |s.heap| == |s'.heap|
            && s'.threads[t].from == pc.from
            && (|s.heap[pc.c].queue| < 256 ==>
                  s'.heap[pc.c].queue == s.heap[pc.c].queue + [pc.call.msg] && s'.threads[t].ok)
            && (|s.heap[pc.c].queue| >= 256 ==> s'.heap[pc.c].queue == s.heap[pc.c].queue && !s'.threads[t].ok)
            && s'.heap[pc.c].attempts == s.heap[pc.c].attempts + [Attempt(pc.call.stamp, pc.call.msg, s'.threads[t].ok)]
            && forall d :: 0 <= d < |s.heap| && d != pc.c ==> s'.heap[d] == s.heap[d]
  {
  }

  /** What `route` knows when it pushes through its topic fallback: it has looked at the whole table, and pushes to
      the first of the matching connections with the shortest queue seen, which has not grown since. */
  lemma RouteChoseShortest(s: Bus, t: nat)
    requires Reachable(s) && t < |s.threads| && s.threads[t].Pushing? && s.threads[t].from.ByTopic?
    ensures var pc := s.threads[t];
            var se := pc.from.search;
            && pc.c < |s.heap| && |se.seen| == |s.conns| && |s.heap[pc.c].queue| <= se.minQ <= 256
            && (forall j :: 0 <= j < |s.conns| ==> se.seen[j].c == s.conns[j] && se.seen[j].count <= 256)
            && exists p :: 0 <= p < |s.conns| && s.conns[p] == pc.c && se.seen[p].matched && se.seen[p].count == se.minQ
                 && (forall j :: 0 <= j < p && se.seen[j].matched ==> se.minQ < se.seen[j].count)
                 && (forall j :: p < j < |s.conns| && se.seen[j].matched ==> se.minQ <= se.seen[j].count)
  {
    SearchIsKnown(s, t);
    var se := s.threads[t].from.search;
    var p :| 0 <= p < |se.seen| && se.seen[p] == Look(se.best.value, true, se.minQ) &&
      forall j :: 0 <= j < p && se.seen[j].matched ==> se.minQ < se.seen[j].count;
    assert s.conns[p] == s.threads[t].c;
  }

  lemma SearchIsKnown(s: Bus, t: nat)
    requires Reachable(s) && t < |s.threads| && s.threads[t].Pushing? && s.threads[t].from.ByTopic?
    ensures var se := s.threads[t].from.search;
            SearchOk(s, se) && se.i == |s.conns| && se.best == Some(s.threads[t].c)
  {
    hide TableOk, SearchOk, FanOk;
    HolderIsKnown(s, t);
  }

  /** If the chosen queue had room when it was looked at, the push succeeds; so a failed push means that every
      matching connection was full. */
  lemma RouteDropsOnlyWhenAllFull(s: Bus, t: nat, choice: Choice)
    requires Reachable(s) && Enabled(s, t, choice) && s.threads[t].Pushing? && s.threads[t].from.ByTopic?
    ensures var pc, s' := s.threads[t], Next(s, t, choice);
            var se := pc.from.search;
            && s'.threads[t].Counting? && |se.seen| == |s.conns|
            && (se.minQ < 256 ==> s'.threads[t].ok)
            && (!s'.threads[t].ok ==>
                  forall j :: 0 <= j < |s.conns| && se.seen[j].matched ==> se.seen[j].count == 256)
  {
    SearchIsKnown(s, t);
    hide Next, Enabled, Reachable;
    PushQueuesOrDrops(s, t, choice);
  }

  ghost predicate SameBuffers(a: Conn, b: Conn) { a.subs == b.subs && a.queue == b.queue }

  lemma EffectNeedsLock(pc: PC, conn: Conn, me: nat, choice: Choice)
    requires ConnOf(pc).Some? && !InTable(pc) && (pc.RecvWait? ==> choice.Wake?) && HoldsQ(pc).None?
    ensures var e := ConnEffect(pc, conn, me, choice); e.conn.Some? ==> SameBuffers(conn, e.conn.value)
  {
  }

  /** Only the holder of a queue lock changes that connection's queue or subscriptions. */
  lemma OnlyLockHoldersWrite(s: Bus, t: nat, choice: Choice, c: nat)
    requires Reachable(s) && Enabled(s, t, choice) && c < |s.heap| && s.heap[c].lock != Some(t)
    ensures c < |Next(s, t, choice).heap| && SameBuffers(s.heap[c], Next(s, t, choice).heap[c])
  {
    var pc := s.threads[t];
    assert HoldsQ(pc) != Some(c) by { ReachableInvariant(s); }
    if InTable(pc) {
      TableKeepsBuffers(s, t, choice, c);
    } else {
      OthersKeepBuffers(s, t, choice, c);
    }
  }

  lemma TableKeepsBuffers(s: Bus, t: nat, choice: Choice, c: nat)
    requires Enabled(s, t, choice) && c < |s.heap| && InTable(s.threads[t])
    ensures c < |TableNext(s, t, choice).heap| && SameBuffers(s.heap[c], TableNext(s, t, choice).heap[c])
  {
  }

  lemma OthersKeepBuffers(s: Bus, t: nat, choice: Choice, c: nat)
    requires Enabled(s, t, choice) && c < |s.heap| && !InTable(s.threads[t]) && HoldsQ(s.threads[t]) != Some(c)
    ensures c < |Next(s, t, choice).heap| && SameBuffers(s.heap[c], Next(s, t, choice).heap[c])
  {
    hide ConnEffect;
    var pc := s.threads[t];
    if ConnOf(pc) == Some(c) { EffectNeedsLock(pc, s.heap[c], t, choice); }
  }

  /** Route pushes to the first connection of the table that the message is addressed to, if there is one; the
      topic search is the fallback for messages addressed to nobody there. */
  lemma RoutePrefersTheAddressee(s: Bus, t: nat)
    requires Reachable(s) && t < |s.threads|
    ensures var pc := s.threads[t];
            && (pc.Pushing? && pc.from.ByAddress? ==>
                  && pc.from.i < |s.conns| && s.conns[pc.from.i] == pc.c < |s.heap|
                  && DirectTo(pc.call.msg, s.heap[pc.c].id)
                  && forall j :: 0 <= j < pc.from.i ==>
                       s.conns[j] < |s.heap| && !DirectTo(pc.call.msg, s.heap[s.conns[j]].id))
            && (pc.RouteAt? ==> forall j :: 0 <= j < |s.conns| ==>
                  s.conns[j] < |s.heap| && !DirectTo(pc.call.msg, s.heap[s.conns[j]].id))
  {
    if HoldsBus(s.threads[t]) { HolderIsKnown(s, t); }
    if s.threads[t].RouteAt? { assert RouteOk(s, s.threads[t].call, s.threads[t].search); }
  }

  /** Route gives up without a push only when no connection of the table matched. */
  lemma RouteGivesUpOnlyUnmatched(s: Bus, t: nat)
    requires Reachable(s) && t < |s.threads| && s.threads[t].RouteAt? && s.threads[t].search.i >= |s.conns|
    ensures var se := s.threads[t].search;
            && |se.seen| == |s.conns| && (forall j :: 0 <= j < |s.conns| ==> se.seen[j].c == s.conns[j])
            && (se.best.None? <==> forall j :: 0 <= j < |s.conns| ==> !se.seen[j].matched)
  {
    HolderIsKnown(s, t);
    var se := s.threads[t].search;
    assert SearchOk(s, se);
    if se.best.Some? {
      var k :| 0 <= k < |se.seen| && se.seen[k] == Look(se.best.value, true, se.minQ);
      assert se.seen[k].matched;
    }
  }

  /** A registered connection is active and listed once: as long as the bus is not destroyed, the `active` test in
      the delivery loops never fails. */
  lemma RegisteredIsActive(s: Bus)
    requires Reachable(s)
    ensures |s.conns| <= CONNS_MAX && Distinct(s.conns)
    ensures forall i :: 0 <= i < |s.conns| ==> s.conns[i] < |s.heap| && s.heap[s.conns[i]].active
  {
    ReachableInvariant(s);
  }

  // ---- conservation ----

  /** `total_published` counts the calls that were publishes. */
  ghost predicate PublishedOk(s: Bus) {
    (forall k :: k in s.fanned ==> k < |s.calls|) && s.published == Low64(|s.fanned|)
  }

  lemma PublishedStep(s: Bus, t: nat, choice: Choice)
    requires Enabled(s, t, choice) && PublishedOk(s)
    ensures PublishedOk(Next(s, t, choice))
  {
    var s', pc := Next(s, t, choice), s.threads[t];
    if !InTable(pc) {
      OtherCodeKeepsTable(s, t, choice);
    } else if pc.WantBus? && pc.req.Publish? {
      assert |s'.calls| !in s.fanned && s'.fanned == s.fanned + {|s.calls|};
    }
  }

  lemma {:induction false} RunCountsPublishes(n: nat, schedule: seq<Event>)
    ensures Exec(n, schedule).Some? ==> PublishedOk(Exec(n, schedule).value)
  {
    if schedule != [] && Exec(n, schedule).Some? {
      var last := |schedule| - 1;
      RunCountsPublishes(n, schedule[..last]);
      PublishedStep(Exec(n, schedule[..last]).value, schedule[last].t, schedule[last].choice);
    }
  }

  /** At any time the published counter shows how many calls were publishes, up to its 64 bits. */
  lemma PublishesAreCounted(s: Bus)
    requires Reachable(s)
    ensures s.published == |s.fanned| % TWO_64 && forall k :: k in s.fanned ==> k < |s.calls|
  {
    var n, schedule :| Exec(n, schedule) == Some(s);
    RunCountsPublishes(n, schedule);
    Low64IsModulo(|s.fanned|);
  }

  /** Outside the push sections the bus counters and every drop counter agree with what happened, up to the
      64 bits they have; nothing accepted is lost and no queue or subscription list outgrows its buffer. */
  lemma CountersConserve(s: Bus)
    requires Reachable(s) && forall u :: 0 <= u < |s.threads| ==> !s.threads[u].Counting?
    ensures s.published == |s.fanned| % TWO_64
    ensures s.routed == TotalAccepted(s.heap) % TWO_64 && s.dropped == TotalDropped(s.heap) % TWO_64
    ensures forall c :: 0 <= c < |s.heap| ==>
              && s.heap[c].drops == DroppedOf(s.heap[c].attempts) % TWO_64
              && s.heap[c].popped + s.heap[c].queue == AcceptedOf(s.heap[c].attempts)
              && |s.heap[c].queue| <= QUEUE_MAX && |s.heap[c].subs| <= SUBS_MAX
  {
    ReachableInvariant(s);
    PublishesAreCounted(s);
    Low64IsModulo(TotalAccepted(s.heap));
    Low64IsModulo(TotalDropped(s.heap));
    forall c | 0 <= c < |s.heap|
      ensures s.heap[c].drops == DroppedOf(s.heap[c].attempts) % TWO_64 && ConnOk(s.calls, s.heap[c])
    {
      assert DropsOk(s, c);
      Low64IsModulo(DroppedOf(s.heap[c].attempts));
    }
  }

  // ---- deadlock freedom ----

  ghost predicate CanStep(s: Bus, t: nat) { exists choice :: Enabled(s, t, choice) }

  /** Thread `t` is blocked on a lock that thread `u` holds. */
  ghost predicate WaitsFor(s: Bus, t: nat, u: nat) {
    && t < |s.threads| && u < |s.threads|
    && var pc := s.threads[t];
       || (pc.WantBus? && s.lock == Some(u))
       || (WantsQ(pc).Some? && WantsQ(pc).value < |s.heap| && s.heap[WantsQ(pc).value].lock == Some(u))
  }

  /** 2 outside all locks, 1 inside the bus lock only, 0 inside a queue lock. */
  function Rank(pc: PC): nat {
    if HoldsQ(pc).Some? then 0 else if HoldsBus(pc) then 1 else 2
  }

  ghost predicate IsWaitChain(s: Bus, p: seq<nat>) {
    forall i :: 0 <= i < |p| - 1 ==> WaitsFor(s, p[i], p[i + 1])
  }

  lemma WaitingGoesDown(s: Bus, t: nat, u: nat)
    requires LocksOk(s) && WaitsFor(s, t, u)
    ensures Rank(s.threads[u]) < Rank(s.threads[t])
  {
  }

  lemma {:induction false} ChainGoesDown(s: Bus, p: seq<nat>)
    requires LocksOk(s) && |p| >= 2 && IsWaitChain(s, p)
    ensures p[0] < |s.threads| && p[|p| - 1] < |s.threads|
    ensures Rank(s.threads[p[|p| - 1]]) + |p| - 1 <= Rank(s.threads[p[0]])
  {
    WaitingGoesDown(s, p[0], p[1]);
    if |p| > 2 {
      forall i | 0 <= i < |p[1..]| - 1 ensures WaitsFor(s, p[1..][i], p[1..][i + 1]) {
        assert WaitsFor(s, p[i + 1], p[i + 1 + 1]);
      }
      ChainGoesDown(s, p[1..]);
    }
  }

  /** The wait-for graph has no cycle, in fact no chain of more than two waits. */
  lemma WaitGraphAcyclic(s: Bus, p: seq<nat>)
    requires Reachable(s) && |p| >= 2 && IsWaitChain(s, p)
    ensures p[0] != p[|p| - 1] && |p| <= 3
  {
    ReachableInvariant(s);
    ChainGoesDown(s, p);
  }

  /** Nobody inside a queue lock waits for the bus lock or holds a second queue lock. */
  lemma LockOrder(s: Bus, t: nat, c: nat, d: nat)
    requires Reachable(s) && t < |s.threads| && c < |s.heap| && d < |s.heap|
    requires s.heap[c].lock == Some(t)
    ensures !s.threads[t].WantBus? && WantsQ(s.threads[t]).None?
    ensures s.heap[d].lock == Some(t) ==> c == d
  {
    ReachableInvariant(s);
  }

  predicate Blocked(s: Bus, t: nat) {
    && t < |s.threads|
    && var pc := s.threads[t];
       || (pc.WantBus? && s.lock.Some?)
       || (WantsQ(pc).Some? && WantsQ(pc).value < |s.heap| && s.heap[WantsQ(pc).value].lock.Some?)
  }

  lemma BlockedHasHolder(s: Bus, t: nat) returns (u: nat)
    requires LocksOk(s) && Blocked(s, t)
    ensures WaitsFor(s, t, u) && Rank(s.threads[u]) < Rank(s.threads[t])
  {
    var pc := s.threads[t];
    u := if pc.WantBus? then s.lock.value else s.heap[WantsQ(pc).value].lock.value;
    WaitingGoesDown(s, t, u);
  }

  lemma FreeThreadSteps(s: Bus, t: nat)
    requires TableOk(s) && AllLightOk(s) && t < |s.threads| && !Blocked(s, t)
    ensures CanStep(s, t)
  {
    var pc := s.threads[t];
    assert LightOk(s, pc);
    var choice := if pc.Idle? then Start(WantBus(Connect(""))) else if pc.RecvWait? then Wake(false) else Go;
    assert Enabled(s, t, choice);
  }

  /** In every reachable state each thread can step, or waits for one that can, or for one that waits for one
      that can. */
  lemma NoDeadlock(s: Bus, t: nat)
    requires Reachable(s) && t < |s.threads|
    ensures || CanStep(s, t)
            || (exists u :: WaitsFor(s, t, u) && CanStep(s, u))
            || (exists u, v :: WaitsFor(s, t, u) && WaitsFor(s, u, v) && CanStep(s, v))
  {
    ReachableInvariant(s);
    if !Blocked(s, t) {
      FreeThreadSteps(s, t);
    } else {
      var u := BlockedHasHolder(s, t);
      if !Blocked(s, u) {
        FreeThreadSteps(s, u);
      } else {
        var v := BlockedHasHolder(s, u);
        FreeThreadSteps(s, v);
      }
    }
  }
}
