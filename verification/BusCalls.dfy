/** What each call of the bus does from its first step to its last when no other thread steps in between. */
module BusCalls {
  import opened Basics
  import opened Wrappers
  import opened BusTypes
  import opened Words
  import opened BusProtocol
  import opened BusOwner
  import opened BusTheorems

  // ---- one thread alone ----

  /** The state after `k` steps of thread `t`, if it can make them without sleeping or starting another call. */
  function Alone(s: Bus, t: nat, k: nat): Option<Bus> {
    if k == 0 then Some(s) else
      var b := Alone(s, t, k - 1);
      if b.Some? && Enabled(b.value, t, Go) then Some(Next(b.value, t, Go)) else None
  }

  ghost predicate Leads(s: Bus, t: nat, s': Bus) { exists k: nat :: Alone(s, t, k) == Some(s') }

  lemma {:induction false} AloneAdds(s: Bus, t: nat, k: nat, m: Bus, l: nat)
    requires Alone(s, t, k) == Some(m)
    ensures Alone(s, t, k + l) == Alone(m, t, l)
  {
    hide Next, Enabled;
    if l > 0 {
      AloneAdds(s, t, k, m, l - 1);
      assert k + l - 1 == k + (l - 1);
    }
  }

  lemma LeadsOn(s: Bus, t: nat, m: Bus, s': Bus)
    requires Leads(s, t, m) && Leads(m, t, s')
    ensures Leads(s, t, s')
  {
    var k: nat :| Alone(s, t, k) == Some(m);
    var l: nat :| Alone(m, t, l) == Some(s');
    AloneAdds(s, t, k, m, l);
  }

  lemma LeadsOneStep(s: Bus, t: nat)
    requires Enabled(s, t, Go)
    ensures Leads(s, t, Next(s, t, Go)) && Leads(s, t, s)
  {
    hide Next, Enabled;
    assert Alone(s, t, 0) == Some(s);
    assert Alone(s, t, 1) == Some(Next(s, t, Go));
  }

  /** One more step. */
  lemma Steps(s: Bus, t: nat, m: Bus)
    requires Leads(s, t, m) && Enabled(m, t, Go)
    ensures Leads(s, t, Next(m, t, Go))
  {
    hide Next, Enabled;
    LeadsOneStep(m, t);
    LeadsOn(s, t, m, Next(m, t, Go));
  }

  lemma {:induction false} AloneReaches(s: Bus, t: nat, k: nat)
    requires Reachable(s)
    ensures Alone(s, t, k).Some? ==> Reachable(Alone(s, t, k).value)
  {
    hide Next, Enabled, Reachable;
    if k > 0 && Alone(s, t, k).Some? {
      AloneReaches(s, t, k - 1);
      StepReaches(Alone(s, t, k - 1).value, t, Go);
    }
  }

  lemma {:induction false} IdleStays(s: Bus, t: nat, k: nat)
    requires t < |s.threads| && s.threads[t].Idle?
    ensures k > 0 ==> Alone(s, t, k).None?
  {
    if k > 1 { IdleStays(s, t, k - 1); }
  }

  /** A call that runs alone to its end has one outcome. */
  lemma OneOutcome(s: Bus, t: nat, a: Bus, b: Bus)
    requires Leads(s, t, a) && t < |a.threads| && a.threads[t].Idle?
    requires Leads(s, t, b) && t < |b.threads| && b.threads[t].Idle?
    ensures a == b
  {
    hide Next, Enabled;
    var k: nat :| Alone(s, t, k) == Some(a);
    var l: nat :| Alone(s, t, l) == Some(b);
    if k <= l {
      AloneAdds(s, t, k, a, l - k);
      IdleStays(a, t, l - k);
    } else {
      AloneAdds(s, t, l, b, k - l);
      IdleStays(b, t, k - l);
    }
  }

  // ---- delivering to one connection ----

  /** A subscription covers a topic: it is the topic, or a prefix of it with a star behind. */
  ghost predicate Covers(sub: string, topic: string) {
    sub == topic || exists prefix: string :: sub == prefix + "*" && prefix <= topic
  }

  ghost predicate Interested(conn: Conn, topic: string) {
    exists i :: 0 <= i < |conn.subs| && Covers(conn.subs[i], topic)
  }

  /** The addressee, or for a broadcast whoever is interested in the topic. */
  ghost predicate Wants(conn: Conn, msg: Message) {
    (msg.to != "" && msg.to == conn.id) || ((msg.to == "" || msg.to == "*") && Interested(conn, msg.topic))
  }

  lemma InterestedMatches(conn: Conn, topic: string)
    ensures AnyMatch(conn.subs, topic) <==> Interested(conn, topic)
  {
    forall i | 0 <= i < |conn.subs| ensures TopicMatches(conn.subs[i], topic) <==> Covers(conn.subs[i], topic) {
      TopicMatchesMeaning(conn.subs[i], topic);
    }
  }

  /** The connection after the delivery: the message is the last in the queue, or dropped if 256 wait already. */
  function Delivered(conn: Conn, msg: Message, stamp: nat): Conn {
    if |conn.queue| < 256
    then conn.(queue := conn.queue + [msg], attempts := conn.attempts + [Attempt(stamp, msg, true)])
    else conn.(drops := Inc64(conn.drops), attempts := conn.attempts + [Attempt(stamp, msg, false)])
  }

  /** Table, bus lock and records of calls are as before. */
  ghost predicate SameFrame(s: Bus, s': Bus) {
    && s'.conns == s.conns && s'.lock == s.lock && s'.calls == s.calls && s'.fanned == s.fanned
    && s'.published == s.published
  }

  lemma PushRuns(s: Bus, t: nat, c: nat) returns (s': Bus)
    requires t < |s.threads| && Named(s) && s.threads[t].WantPush? && s.threads[t].c == c < |s.heap| && s.heap[c].lock.None?
    ensures Leads(s, t, s') && SameFrame(s, s')
    ensures var pc := s.threads[t];
            && s'.heap == s.heap[c := Delivered(s.heap[c], pc.call.msg, pc.call.stamp)]
            && s'.threads == s.threads[t := AfterPush(pc.call, pc.from, |s.heap[c].queue| < 256)]
  {
    hide Leads;
    LeadsOneStep(s, t);
    s' := Next(s, t, Go);
    Steps(s, t, s');
    s' := Next(s', t, Go);
    var m := CountRuns(s', t, c);
    LeadsOn(s, t, s', m);
    s' := m;
  }

  lemma CountRuns(s: Bus, t: nat, c: nat) returns (s': Bus)
    requires t < |s.threads| && Named(s) && s.threads[t].Counting? && s.threads[t].c == c < |s.heap|
    ensures Leads(s, t, s') && SameFrame(s, s')
    ensures var pc, conn := s.threads[t], s.heap[c].(lock := None);
            && s'.heap == s.heap[c := if pc.ok then conn else conn.(drops := Inc64(conn.drops))]
            && s'.threads == s.threads[t := AfterPush(pc.call, pc.from, pc.ok)]
  {
    hide Leads;
    LeadsOneStep(s, t);
    s' := Next(s, t, Go);
    Steps(s, t, s');
    s' := Next(s', t, Go);
  }

  // ---- publish ----

  lemma ScanRuns(s: Bus, t: nat, c: nat) returns (s': Bus)
    requires t < |s.threads| && Named(s) && s.threads[t].PubWantScan? && s.threads[t].c == c < |s.heap| && s.heap[c].lock.None?
    ensures Leads(s, t, s') && SameFrame(s, s') && s'.heap == s.heap
    ensures var pc := s.threads[t];
            var hit := AnyMatch(s.heap[c].subs, pc.call.msg.topic);
            s'.threads == s.threads[t := if hit then WantPush(pc.call, c, ByPublish(Noted(pc.fan, hit)))
                                         else PubAt(pc.call, Visited(Noted(pc.fan, hit), Skipped))]
  {
    hide Leads, AnyMatch;
    LeadsOneStep(s, t);
    s' := Next(s, t, Go);
    Steps(s, t, s');
    s' := Next(s', t, Go);
    Steps(s, t, s');
    s' := Next(s', t, Go);
    assert s'.heap == s.heap;
  }

  /** Where the thread stands in the loop of `publish`. */
  ghost predicate AtTurn(s: Bus, t: nat, call: Call, i: nat) {
    t < |s.threads| && s.threads[t].PubAt? && s.threads[t].call == call && s.threads[t].fan.i == i
  }

  ghost predicate OnlyThread(s: Bus, s': Bus, t: nat) {
    t < |s.threads| && t < |s'.threads| && s'.threads == s.threads[t := s'.threads[t]]
  }

  lemma PublishTurn(s: Bus, t: nat, call: Call, i: nat) returns (s': Bus)
    requires AtTurn(s, t, call, i) && Named(s) && i < |s.conns|
    requires s.heap[s.conns[i]].active && s.heap[s.conns[i]].lock.None?
    ensures Leads(s, t, s') && SameFrame(s, s') && AtTurn(s', t, call, i + 1) && OnlyThread(s, s', t)
    ensures var c := s.conns[i];
            s'.heap == s.heap[c := if Wants(s.heap[c], call.msg) then Delivered(s.heap[c], call.msg, call.stamp) else s.heap[c]]
  {
    var c := s.conns[i];
    InterestedMatches(s.heap[c], call.msg.topic);
    s' := TurnStarts(s, t, call, i);
    hide Leads, Interested, AnyMatch, Next;
    if s'.threads[t].PubWantScan? {
      var m := ScanRuns(s', t, c);
      LeadsOn(s, t, s', m);
      s' := m;
    }
    if s'.threads[t].WantPush? {
      var m := PushRuns(s', t, c);
      LeadsOn(s, t, s', m);
      s' := m;
    }
  }

  lemma TurnStarts(s: Bus, t: nat, call: Call, i: nat) returns (s': Bus)
    requires AtTurn(s, t, call, i) && Named(s) && i < |s.conns| && s.heap[s.conns[i]].active
    ensures Leads(s, t, s') && SameFrame(s, s') && s'.heap == s.heap && OnlyThread(s, s', t)
    ensures var c, f := s.conns[i], s.threads[t].fan;
            s'.threads[t] == if call.msg.to != "" && call.msg.to == s.heap[c].id then WantPush(call, c, ByPublish(Noted(f, false)))
                             else if call.msg.to == "" || call.msg.to == "*" then PubWantScan(call, f, c)
                             else PubAt(call, Visited(Noted(f, false), Skipped))
  {
    hide Leads;
    LeadsOneStep(s, t);
    s' := Next(s, t, Go);
  }

  /** The connections of the table are active and free. */
  ghost predicate AllFree(s: Bus) {
    forall i :: 0 <= i < |s.conns| ==> s.conns[i] < |s.heap| && s.heap[s.conns[i]].active && s.heap[s.conns[i]].lock.None?
  }

  /** The message has been delivered to those of the first `n` connections of the table that want it. */
  ghost predicate DeliveredTo(s: Bus, s': Bus, msg: Message, stamp: nat, n: nat) {
    && n <= |s.conns| && |s'.heap| == |s.heap|
    && forall c :: 0 <= c < |s.heap| ==>
         s'.heap[c] == if c in s.conns[..n] && Wants(s.heap[c], msg) then Delivered(s.heap[c], msg, stamp) else s.heap[c]
  }

  lemma DeliveredMore(s: Bus, m: Bus, s': Bus, msg: Message, stamp: nat, i: nat)
    requires Distinct(s.conns) && Named(s) && i < |s.conns| && DeliveredTo(s, m, msg, stamp, i)
    requires var c := s.conns[i];
             s'.heap == m.heap[c := if Wants(m.heap[c], msg) then Delivered(m.heap[c], msg, stamp) else m.heap[c]]
    ensures DeliveredTo(s, s', msg, stamp, i + 1)
  {
    hide Wants, Delivered;
    var c := s.conns[i];
    assert c !in s.conns[..i];
    forall d | 0 <= d < |s.heap| ensures d in s.conns[..i + 1] <==> d in s.conns[..i] || d == c {
      assert s.conns[..i + 1] == s.conns[..i] + [c];
    }
  }

  lemma FreeStill(s: Bus, m: Bus, msg: Message, stamp: nat, i: nat)
    requires AllFree(s) && m.conns == s.conns && DeliveredTo(s, m, msg, stamp, i)
    ensures AllFree(m) && Named(m)
  {
    hide Wants;
  }

  lemma {:induction false} PublishLoop(s: Bus, m: Bus, t: nat, call: Call, i: nat) returns (s': Bus)
    requires Distinct(s.conns) && AllFree(s) && Leads(s, t, m) && SameFrame(s, m) && OnlyThread(s, m, t)
    requires AtTurn(m, t, call, i) && DeliveredTo(s, m, call.msg, call.stamp, i)
    ensures Leads(s, t, s') && SameFrame(s, s') && OnlyThread(s, s', t)
    ensures AtTurn(s', t, call, |s.conns|) && DeliveredTo(s, s', call.msg, call.stamp, |s.conns|)
    decreases |s.conns| - i
  {
    hide Leads, AtTurn, AllFree, DeliveredTo, Wants, Delivered;
    LoopBounds(s, m, call.msg, call.stamp, i);
    if i == |s.conns| {
      s' := m;
    } else {
      FreeStill(s, m, call.msg, call.stamp, i);
      FreeAt(m, i);
      s' := PublishTurn(m, t, call, i);
      LeadsOn(s, t, m, s');
      NamedByFree(s);
      DeliveredMore(s, m, s', call.msg, call.stamp, i);
      s' := PublishLoop(s, s', t, call, i + 1);
    }
  }

  lemma LoopBounds(s: Bus, m: Bus, msg: Message, stamp: nat, i: nat)
    requires DeliveredTo(s, m, msg, stamp, i)
    ensures i <= |s.conns|
  {
  }

  lemma FreeAt(m: Bus, i: nat)
    requires AllFree(m) && i < |m.conns|
    ensures m.conns[i] < |m.heap| && m.heap[m.conns[i]].active && m.heap[m.conns[i]].lock.None?
  {
  }

  lemma NamedByFree(s: Bus)
    requires AllFree(s)
    ensures Named(s)
  {
  }

  /** The bus and its connections are free and nobody else is inside. */
  ghost predicate Quiet(s: Bus) {
    s.lock.None? && forall c :: 0 <= c < |s.heap| ==> s.heap[c].lock.None?
  }

  lemma QuietIsFree(s: Bus)
    requires Reachable(s) && Quiet(s)
    ensures AllFree(s) && Named(s) && Distinct(s.conns)
  {
    RegisteredIsActive(s);
  }

  /** A publish that runs alone delivers the message to exactly the connections of the table that want it: to each
      of them it is appended, or dropped and counted if 256 wait there. Nothing else changes, and the call ends. */
  lemma PublishAlone(s: Bus, t: nat, msg: Message) returns (s': Bus)
    requires Reachable(s) && Quiet(s) && t < |s.threads| && s.threads[t] == WantBus(Publish(msg))
    ensures Leads(s, t, s') && s'.threads == s.threads[t := Idle] && s'.lock.None?
    ensures s'.conns == s.conns && s'.calls == s.calls + [msg] && s'.published == Inc64(s.published)
    ensures |s'.heap| == |s.heap| && forall c :: 0 <= c < |s.heap| ==>
              s'.heap[c] == if c in s.conns && Wants(s.heap[c], msg) then Delivered(s.heap[c], msg, |s.calls|) else s.heap[c]
  {
    QuietIsFree(s);
    hide Leads, Reachable, Wants, Delivered;
    var call := Call(msg, |s.calls|);
    var m := PublishStarts(s, t, msg);
    LeadsOneStep(m, t);
    assert m.conns[..0] == [];
    s' := PublishLoop(m, m, t, call, 0);
    s' := PublishEnds(m, s', t, call);
    LeadsOn(s, t, m, s');
    assert m.conns[..|m.conns|] == s.conns;
  }

  lemma PublishStarts(s: Bus, t: nat, msg: Message) returns (m: Bus)
    requires Quiet(s) && AllFree(s) && Named(s) && t < |s.threads| && s.threads[t] == WantBus(Publish(msg))
    ensures Leads(s, t, m) && OnlyThread(s, m, t) && AtTurn(m, t, Call(msg, |s.calls|), 0) && m.heap == s.heap
    ensures m.conns == s.conns && m.calls == s.calls + [msg] && m.published == Inc64(s.published)
    ensures AllFree(m) && Named(m) && Enabled(m, t, Go)
  {
    hide Leads;
    LeadsOneStep(s, t);
    m := Next(s, t, Go);
  }

  lemma PublishEnds(m: Bus, e: Bus, t: nat, call: Call) returns (s': Bus)
    requires Leads(m, t, e) && AtTurn(e, t, call, |e.conns|) && Named(e) && OnlyThread(m, e, t)
    ensures Leads(m, t, s') && s'.threads == m.threads[t := Idle] && s'.lock.None?
    ensures s'.heap == e.heap && s'.conns == e.conns && s'.calls == e.calls && s'.published == e.published
  {
    hide Leads;
    Steps(m, t, e);
    s' := Next(e, t, Go);
    Steps(m, t, s');
    s' := Next(s', t, Go);
  }

  // ---- route ----

  ghost predicate Addressed(s: Bus, msg: Message, j: nat)
    requires Named(s) && j < |s.conns|
  {
    msg.to != "" && msg.to == s.heap[s.conns[j]].id
  }

  ghost predicate Listens(s: Bus, msg: Message, j: nat)
    requires Named(s) && j < |s.conns|
  {
    Interested(s.heap[s.conns[j]], msg.topic)
  }

  function Waiting(s: Bus, j: nat): nat
    requires Named(s) && j < |s.conns|
  {
    |s.heap[s.conns[j]].queue|
  }

  ghost predicate NobodyAddressed(s: Bus, msg: Message, n: nat)
    requires Named(s) && n <= |s.conns|
  {
    forall j :: 0 <= j < n ==> !Addressed(s, msg, j)
  }

  /** The place of the table a message goes to: the first addressee; if there is none, the first of the connections
      interested in its topic with the shortest queue. */
  ghost predicate GoesTo(s: Bus, msg: Message, p: nat)
    requires Named(s) && p < |s.conns|
  {
    || (Addressed(s, msg, p) && NobodyAddressed(s, msg, p))
    || (NobodyAddressed(s, msg, |s.conns|) && Shortest(s, msg, p))
  }

  ghost predicate Shortest(s: Bus, msg: Message, p: nat)
    requires Named(s) && p < |s.conns|
  {
    && Listens(s, msg, p)
    && forall j :: 0 <= j < |s.conns| && Listens(s, msg, j) ==>
         Waiting(s, p) <= Waiting(s, j) && (j < p ==> Waiting(s, p) < Waiting(s, j))
  }

  lemma OneStepOn(s: Bus, t: nat) returns (s': Bus)
    requires Enabled(s, t, Go)
    ensures Leads(s, t, s') && s' == Next(s, t, Go)
  {
    hide Next, Enabled;
    LeadsOneStep(s, t);
    s' := Next(s, t, Go);
  }

  /** The first loop of `route`: up to the first addressee, or through the table. */
  lemma {:induction false} DirectLoop(s: Bus, m: Bus, t: nat, call: Call, i: nat) returns (s': Bus)
    requires AllFree(s) && Named(s) && Leads(s, t, m) && SameFrame(s, m) && m.heap == s.heap && OnlyThread(s, m, t)
    requires m.threads[t] == RouteDirect(call, i) && i <= |s.conns| && NobodyAddressed(s, call.msg, i)
    ensures Leads(s, t, s') && SameFrame(s, s') && s'.heap == s.heap && OnlyThread(s, s', t)
    ensures || (s'.threads[t] == RouteAt(call, Search(0, None, UINT32_MAX, [])) && NobodyAddressed(s, call.msg, |s.conns|))
            || (exists p :: 0 <= p < |s.conns| && s'.threads[t] == WantPush(call, s.conns[p], ByAddress(p))
                  && Addressed(s, call.msg, p) && NobodyAddressed(s, call.msg, p))
    decreases |s.conns| - i
  {
    hide Leads;
    s' := OneStepOn(m, t);
    LeadsOn(s, t, m, s');
    if i < |s.conns| && !Addressed(s, call.msg, i) {
      s' := DirectLoop(s, s', t, call, i + 1);
    }
  }

  /** What one look of the search records when nothing interferes. */
  ghost predicate LookedRight(s: Bus, msg: Message, seen: seq<Look>, n: nat)
    requires Named(s) && n <= |s.conns|
  {
    && |seen| == n
    && forall j :: 0 <= j < n ==>
         seen[j].c == s.conns[j] && seen[j].count == Waiting(s, j) && (seen[j].matched <==> Listens(s, msg, j))
  }

  lemma LookRuns(s: Bus, t: nat, call: Call, se: Search) returns (s': Bus)
    requires AllFree(s) && Named(s) && t < |s.threads| && s.threads[t] == RouteAt(call, se) && se.i < |s.conns|
    ensures Leads(s, t, s') && SameFrame(s, s') && s'.heap == s.heap && OnlyThread(s, s', t)
    ensures var look := Look(s.conns[se.i], AnyMatch(s.heap[s.conns[se.i]].subs, call.msg.topic), Waiting(s, se.i));
            s'.threads[t] == RouteAt(call, Looked(se, look))
  {
    hide Leads, AnyMatch;
    LeadsOneStep(s, t);
    s' := Next(s, t, Go);
    Steps(s, t, s');
    s' := Next(s', t, Go);
    Steps(s, t, s');
    s' := Next(s', t, Go);
    Steps(s, t, s');
    s' := Next(s', t, Go);
    assert s'.heap == s.heap;
  }

  lemma {:induction false} SearchLoop(s: Bus, m: Bus, t: nat, call: Call, se: Search) returns (s': Bus, found: Search)
    requires AllFree(s) && Named(s) && Leads(s, t, m) && SameFrame(s, m) && m.heap == s.heap && OnlyThread(s, m, t)
    requires m.threads[t] == RouteAt(call, se) && se.i <= |s.conns| && LookedRight(s, call.msg, se.seen, se.i)
    ensures Leads(s, t, s') && SameFrame(s, s') && s'.heap == s.heap && OnlyThread(s, s', t)
    ensures s'.threads[t] == RouteAt(call, found) && found.i == |s.conns|
    ensures LookedRight(s, call.msg, found.seen, |s.conns|)
    decreases |s.conns| - se.i
  {
    hide Leads, Interested, AnyMatch;
    if se.i == |s.conns| {
      s', found := m, se;
    } else {
      InterestedMatches(s.heap[s.conns[se.i]], call.msg.topic);
      s' := LookRuns(m, t, call, se);
      LeadsOn(s, t, m, s');
      var look := Look(s.conns[se.i], AnyMatch(s.heap[s.conns[se.i]].subs, call.msg.topic), Waiting(s, se.i));
      assert Looked(se, look).seen == se.seen + [look];
      s', found := SearchLoop(s, s', t, call, Looked(se, look));
    }
  }

  lemma FoundIsShortest(s: Bus, m: Bus, call: Call, se: Search)
    requires Named(s) && LookedRight(s, call.msg, se.seen, |s.conns|) && m.conns == s.conns && m.heap == s.heap
    requires SearchOk(m, se) && se.i == |s.conns|
    ensures se.best.Some? ==> exists p :: 0 <= p < |s.conns| && s.conns[p] == se.best.value && Shortest(s, call.msg, p)
    ensures se.best.None? ==> forall j :: 0 <= j < |s.conns| ==> !Listens(s, call.msg, j)
  {
    hide Interested;
    if se.best.Some? {
      var p :| 0 <= p < |se.seen| && se.seen[p] == Look(se.best.value, true, se.minQ) &&
        forall j :: 0 <= j < p && se.seen[j].matched ==> se.minQ < se.seen[j].count;
      assert s.conns[p] == se.best.value;
    }
  }

  /** The search as it stands is justified, since the state is a reachable one. */
  lemma SearchAlone(s: Bus, m: Bus, t: nat)
    requires Reachable(s) && Leads(s, t, m) && t < |m.threads| && m.threads[t].RouteAt?
    ensures SearchOk(m, m.threads[t].search)
  {
    var k: nat :| Alone(s, t, k) == Some(m);
    AloneReaches(s, t, k);
    hide Reachable, TableOk, SearchOk;
    HolderIsKnown(m, t);
    assert RouteOk(m, m.threads[t].call, m.threads[t].search);
  }

  /** A route that runs alone delivers the message to the place it goes to, and to nobody if there is none. */
  lemma RouteAlone(s: Bus, t: nat, msg: Message) returns (s': Bus)
    requires Reachable(s) && Quiet(s) && t < |s.threads| && s.threads[t] == WantBus(Route(msg)) && Named(s)
    ensures Leads(s, t, s') && s'.threads == s.threads[t := Idle] && s'.lock.None?
    ensures s'.conns == s.conns && s'.calls == s.calls + [msg] && s'.published == s.published
    ensures forall p :: 0 <= p < |s.conns| && GoesTo(s, msg, p) ==>
              s'.heap == s.heap[s.conns[p] := Delivered(s.heap[s.conns[p]], msg, |s.calls|)]
    ensures (forall p :: 0 <= p < |s.conns| ==> !GoesTo(s, msg, p)) ==> s'.heap == s.heap
  {
    QuietIsFree(s);
    hide Leads, Reachable, Quiet, AllFree, Named, Addressed, NobodyAddressed, GoesTo, Delivered, Enabled, Distinct;
    var call := Call(msg, |s.calls|);
    var m := RouteStarts(s, t, msg);
    LeadsOneStep(m, t);
    NobodyYet(m, msg);
    var d := DirectLoop(m, m, t, call, 0);
    LeadsOn(s, t, m, d);
    FreeAlike(m, d);
    if d.threads[t].WantPush? {
      var p :| 0 <= p < |m.conns| && d.threads[t] == WantPush(call, m.conns[p], ByAddress(p))
               && Addressed(m, msg, p) && NobodyAddressed(m, msg, p);
      AddresseesAlike(m, s, msg, p);
      OnlyAddressee(s, msg, p);
      assert GoesTo(s, msg, p);
      FreeAt(d, p);
      s' := RoutePushes(s, d, t, call, s.conns[p]);
    } else {
      AddresseesAlike(m, s, msg, |s.conns|);
      s' := RouteSearches(s, d, t, call);
    }
  }

  lemma NobodyYet(s: Bus, msg: Message)
    requires Named(s)
    ensures NobodyAddressed(s, msg, 0)
  {
  }

  lemma FreeAlike(m: Bus, d: Bus)
    requires AllFree(m) && d.conns == m.conns && d.heap == m.heap
    ensures AllFree(d) && Named(d)
  {
  }

  lemma AddresseesAlike(m: Bus, s: Bus, msg: Message, n: nat)
    requires Named(m) && Named(s) && m.conns == s.conns && m.heap == s.heap && n <= |s.conns| && NobodyAddressed(m, msg, n)
    ensures NobodyAddressed(s, msg, n) && (n < |s.conns| && Addressed(m, msg, n) ==> Addressed(s, msg, n))
  {
    forall j | 0 <= j < |s.conns| ensures Addressed(m, msg, j) <==> Addressed(s, msg, j) {
    }
  }

  lemma OnlyAddressee(s: Bus, msg: Message, p: nat)
    requires Named(s) && p < |s.conns| && Addressed(s, msg, p) && NobodyAddressed(s, msg, p)
    ensures forall q :: 0 <= q < |s.conns| ==> (GoesTo(s, msg, q) <==> q == p)
  {
  }

  lemma OnlyShortest(s: Bus, msg: Message, p: nat)
    requires Named(s) && p < |s.conns| && NobodyAddressed(s, msg, |s.conns|) && Shortest(s, msg, p)
    ensures forall q :: 0 <= q < |s.conns| ==> (GoesTo(s, msg, q) <==> q == p)
  {
  }

  lemma NowhereToGo(s: Bus, msg: Message)
    requires Named(s) && NobodyAddressed(s, msg, |s.conns|)
    requires forall j :: 0 <= j < |s.conns| ==> !Listens(s, msg, j)
    ensures forall q :: 0 <= q < |s.conns| ==> !GoesTo(s, msg, q)
  {
  }

  lemma RouteStarts(s: Bus, t: nat, msg: Message) returns (m: Bus)
    requires Quiet(s) && AllFree(s) && Named(s) && t < |s.threads| && s.threads[t] == WantBus(Route(msg))
    ensures Leads(s, t, m) && OnlyThread(s, m, t) && m.threads[t] == RouteDirect(Call(msg, |s.calls|), 0) && m.heap == s.heap
    ensures m.conns == s.conns && m.calls == s.calls + [msg] && m.published == s.published
    ensures AllFree(m) && Named(m) && Enabled(m, t, Go)
  {
    hide Leads;
    LeadsOneStep(s, t);
    m := Next(s, t, Go);
  }

  /** From the push to the end of `route`. */
  lemma RoutePushes(s: Bus, d: Bus, t: nat, call: Call, c: nat) returns (s': Bus)
    requires Leads(s, t, d) && OnlyThread(s, d, t) && Named(d) && d.heap == s.heap && c < |d.heap| && d.heap[c].lock.None?
    requires d.threads[t].WantPush? && d.threads[t].call == call && d.threads[t].c == c && !d.threads[t].from.ByPublish?
    ensures Leads(s, t, s') && s'.threads == s.threads[t := Idle] && s'.lock.None?
    ensures s'.conns == d.conns && s'.calls == d.calls && s'.published == d.published
    ensures s'.heap == s.heap[c := Delivered(s.heap[c], call.msg, call.stamp)]
  {
    hide Leads, Delivered;
    s' := PushRuns(d, t, c);
    LeadsOn(s, t, d, s');
    Steps(s, t, s');
    s' := Next(s', t, Go);
  }

  lemma RouteSearches(s: Bus, d: Bus, t: nat, call: Call) returns (s': Bus)
    requires Reachable(s) && Leads(s, t, d) && OnlyThread(s, d, t) && Named(s) && AllFree(d) && Named(d)
    requires d.heap == s.heap && d.conns == s.conns && d.threads[t] == RouteAt(call, Search(0, None, UINT32_MAX, []))
    requires NobodyAddressed(s, call.msg, |s.conns|)
    ensures Leads(s, t, s') && s'.threads == s.threads[t := Idle] && s'.lock.None?
    ensures s'.conns == d.conns && s'.calls == d.calls && s'.published == d.published
    ensures forall p :: 0 <= p < |s.conns| && GoesTo(s, call.msg, p) ==>
              s'.heap == s.heap[s.conns[p] := Delivered(s.heap[s.conns[p]], call.msg, call.stamp)]
    ensures (forall p :: 0 <= p < |s.conns| ==> !GoesTo(s, call.msg, p)) ==> s'.heap == s.heap
  {
    hide Leads, Reachable, Interested, Delivered, GoesTo, SearchOk, Shortest;
    LeadsOneStep(d, t);
    var e, found := SearchLoop(d, d, t, call, Search(0, None, UINT32_MAX, []));
    LeadsOn(s, t, d, e);
    SearchAlone(s, e, t);
    FoundIsShortest(d, e, call, found);
    if found.best.Some? {
      var p :| 0 <= p < |s.conns| && s.conns[p] == found.best.value && Shortest(d, call.msg, p);
      s' := SearchPushes(s, e, t, call, s.conns[p]);
      SameShortest(s, d, call.msg, p);
      OnlyShortest(s, call.msg, p);
      assert GoesTo(s, call.msg, p);
    } else {
      s' := SearchGivesUp(s, e, t);
      NowhereToGo(s, call.msg);
    }
  }

  lemma SameShortest(s: Bus, d: Bus, msg: Message, p: nat)
    requires Named(s) && Named(d) && d.conns == s.conns && d.heap == s.heap && p < |s.conns| && Shortest(d, msg, p)
    ensures Shortest(s, msg, p)
  {
    hide Interested;
    forall j | 0 <= j < |s.conns|
      ensures (Listens(s, msg, j) <==> Listens(d, msg, j)) && Waiting(s, j) == Waiting(d, j)
    {
    }
  }

  lemma SearchPushes(s: Bus, e: Bus, t: nat, call: Call, c: nat) returns (s': Bus)
    requires Leads(s, t, e) && OnlyThread(s, e, t) && Named(e) && e.heap == s.heap && c < |e.heap| && e.heap[c].lock.None?
    requires e.threads[t].RouteAt? && e.threads[t].call == call && e.threads[t].search.i == |e.conns|
    requires e.threads[t].search.best == Some(c)
    ensures Leads(s, t, s') && s'.threads == s.threads[t := Idle] && s'.lock.None?
    ensures s'.conns == e.conns && s'.calls == e.calls && s'.published == e.published
    ensures s'.heap == s.heap[c := Delivered(s.heap[c], call.msg, call.stamp)]
  {
    hide Leads, Delivered;
    Steps(s, t, e);
    s' := Next(e, t, Go);
    s' := RoutePushes(s, s', t, call, c);
  }

  lemma SearchGivesUp(s: Bus, e: Bus, t: nat) returns (s': Bus)
    requires Leads(s, t, e) && OnlyThread(s, e, t) && Named(e) && e.heap == s.heap
    requires e.threads[t].RouteAt? && e.threads[t].search.i == |e.conns| && e.threads[t].search.best.None?
    ensures Leads(s, t, s') && s'.threads == s.threads[t := Idle] && s'.lock.None?
    ensures s'.conns == e.conns && s'.calls == e.calls && s'.published == e.published && s'.heap == s.heap
  {
    hide Leads;
    Steps(s, t, e);
    s' := Next(e, t, Go);
    Steps(s, t, s');
    s' := Next(s', t, Go);
  }

  // ---- receive ----

  /** The connection after a receive: the oldest message is taken out, if there is one. */
  function Received(conn: Conn): Conn {
    if conn.queue == [] then conn else conn.(queue := conn.queue[1..], popped := conn.popped + [conn.queue[0]])
  }

  lemma PopRuns(s: Bus, t: nat, c: nat) returns (s': Bus)
    requires t < |s.threads| && Named(s) && s.threads[t] == RecvPop(c) && c < |s.heap|
    ensures Leads(s, t, s') && SameFrame(s, s') && s'.threads == s.threads[t := Idle]
    ensures s'.heap == s.heap[c := Received(s.heap[c].(lock := None))]
  {
    hide Leads;
    LeadsOneStep(s, t);
    s' := Next(s, t, Go);
    Steps(s, t, s');
    s' := Next(s', t, Go);
  }

  /** From its test on, a receive takes the oldest message; with none to take it goes to sleep on an active
      connection, and ends on another. */
  lemma CheckRuns(s: Bus, t: nat, c: nat) returns (s': Bus)
    requires t < |s.threads| && Named(s) && s.threads[t] == RecvCheck(c) && c < |s.heap|
    ensures Leads(s, t, s') && SameFrame(s, s') && s'.heap == s.heap[c := Received(s.heap[c].(lock := None))]
    ensures s'.threads == s.threads[t := if s.heap[c].queue == [] && s.heap[c].active then RecvWait(c) else Idle]
  {
    hide Leads;
    LeadsOneStep(s, t);
    s' := Next(s, t, Go);
    if s.heap[c].queue == [] && s.heap[c].active {
      Steps(s, t, s');
      s' := Next(s', t, Go);
    } else {
      var m := PopRuns(s', t, c);
      LeadsOn(s, t, s', m);
      s' := m;
    }
  }

  /** A receive takes the oldest message if there is one. Without one it ends, but with a timeout and on an active
      connection it goes to sleep. */
  lemma ReceiveAlone(s: Bus, t: nat, c: nat, timed: bool) returns (s': Bus)
    requires t < |s.threads| && Named(s) && s.threads[t] == RecvWant(c, timed) && c < |s.heap| && s.heap[c].lock.None?
    ensures Leads(s, t, s') && SameFrame(s, s') && s'.heap == s.heap[c := Received(s.heap[c])]
    ensures s'.threads ==
              s.threads[t := if timed && s.heap[c].queue == [] && s.heap[c].active then RecvWait(c) else Idle]
  {
    hide Leads, Received;
    LeadsOneStep(s, t);
    s' := Next(s, t, Go);
    assert s'.heap[c].(lock := None) == s.heap[c];
    var m;
    if timed { m := CheckRuns(s', t, c); } else { m := PopRuns(s', t, c); }
    LeadsOn(s, t, s', m);
    s' := m;
  }

  /** A receive that wakes takes the oldest message if there is one. Without one it ends after its timeout or on an
      inactive connection, and otherwise goes to sleep again. */
  lemma WokenAlone(s: Bus, t: nat, c: nat, timedOut: bool) returns (s': Bus)
    requires Enabled(s, t, Wake(timedOut)) && s.threads[t] == RecvWait(c)
    ensures Leads(Next(s, t, Wake(timedOut)), t, s') && SameFrame(s, s') && s'.heap == s.heap[c := Received(s.heap[c])]
    ensures s'.threads ==
              s.threads[t := if !timedOut && s.heap[c].queue == [] && s.heap[c].active then RecvWait(c) else Idle]
  {
    hide Leads, Received;
    var m := Next(s, t, Wake(timedOut));
    assert m.heap[c].(lock := None) == s.heap[c];
    if timedOut { s' := PopRuns(m, t, c); } else { s' := CheckRuns(m, t, c); }
  }

  // ---- subscriptions and the table ----

  lemma SubscriptionRuns(s: Bus, t: nat, c: nat, topic: string, on: bool) returns (s': Bus)
    requires t < |s.threads| && Named(s) && s.threads[t] == SubWant(c, topic, on) && c < |s.heap| && s.heap[c].lock.None?
    ensures Leads(s, t, s') && SameFrame(s, s') && s'.threads == s.threads[t := Idle]
    ensures var subs := s.heap[c].subs;
            s'.heap == s.heap[c := s.heap[c].(subs := if on then Subscribed(subs, topic).0 else SwapRemove(subs, topic))]
  {
    hide Leads, SwapRemove, Subscribed;
    LeadsOneStep(s, t);
    s' := Next(s, t, Go);
    Steps(s, t, s');
    s' := Next(s', t, Go);
    s' := QueueUnlocks(s, s', t, c);
  }

  lemma QueueUnlocks(s: Bus, m: Bus, t: nat, c: nat) returns (s': Bus)
    requires Leads(s, t, m) && SameFrame(s, m) && OnlyThread(s, m, t) && m.threads[t] == QUnlock(c) && Named(m) && c < |m.heap|
    ensures Leads(s, t, s') && SameFrame(s, s') && s'.threads == s.threads[t := Idle]
    ensures s'.heap == m.heap[c := m.heap[c].(lock := None)]
  {
    hide Leads;
    Steps(s, t, m);
    s' := Next(m, t, Go);
  }

  /** Subscribing appends the topic, cut to 127 characters, unless 64 are there or it is there already. */
  lemma SubscribeAlone(s: Bus, t: nat, c: nat, topic: string) returns (s': Bus)
    requires t < |s.threads| && Named(s) && s.threads[t] == SubWant(c, topic, true) && c < |s.heap| && s.heap[c].lock.None?
    ensures Leads(s, t, s') && SameFrame(s, s') && s'.threads == s.threads[t := Idle]
    ensures var subs := s.heap[c].subs;
            s'.heap == s.heap[c := s.heap[c].(subs :=
              if |subs| >= 64 || topic in subs then subs
              else subs + [if |topic| <= 127 then topic else topic[..127]])]
  {
    hide Leads;
    s' := SubscriptionRuns(s, t, c, topic, true);
    assert s.heap[c].(subs := s.heap[c].subs) == s.heap[c];
  }

  /** Unsubscribing takes out the first entry with the topic and puts the last entry in its place. */
  lemma UnsubscribeAlone(s: Bus, t: nat, c: nat, topic: string) returns (s': Bus, subs': seq<string>)
    requires t < |s.threads| && Named(s) && s.threads[t] == SubWant(c, topic, false) && c < |s.heap| && s.heap[c].lock.None?
    ensures Leads(s, t, s') && SameFrame(s, s') && s'.threads == s.threads[t := Idle]
    ensures s'.heap == s.heap[c := s.heap[c].(subs := subs')]
    ensures topic !in s.heap[c].subs ==> subs' == s.heap[c].subs
    ensures forall i :: 0 <= i < |s.heap[c].subs| && s.heap[c].subs[i] == topic && topic !in s.heap[c].subs[..i] ==>
              Compacted(s.heap[c].subs, i, subs')
  {
    hide Leads;
    var subs := s.heap[c].subs;
    s' := SubscriptionRuns(s, t, c, topic, false);
    subs' := SwapRemove(subs, topic);
    hide SwapRemove;
    SwapRemoveCompacts(subs, topic);
  }

  /** Connecting adds a fresh active connection to the table, its identifier cut to 63 characters, unless 256 are
      listed. */
  lemma ConnectAlone(s: Bus, t: nat, id: string) returns (s': Bus)
    requires t < |s.threads| && Named(s) && s.threads[t] == WantBus(Connect(id)) && s.lock.None?
    ensures Leads(s, t, s') && s'.threads == s.threads[t := Idle] && s'.lock.None? && s'.calls == s.calls
    ensures |s.conns| >= 256 ==> s'.conns == s.conns && s'.heap == s.heap
    ensures |s.conns| < 256 ==>
              && s'.conns == s.conns + [|s.heap|]
              && s'.heap == s.heap + [Conn(if |id| <= 63 then id else id[..63], true, None, [], [], 0, [], [])]
  {
    hide Leads;
    LeadsOneStep(s, t);
    s' := Next(s, t, Go);
    Steps(s, t, s');
    s' := Next(s', t, Go);
    Steps(s, t, s');
    s' := Next(s', t, Go);
  }

  /** Disconnecting takes the connection off the table, the last entry moving into its place, and makes it inactive. */
  lemma DisconnectAlone(s: Bus, t: nat, c: nat) returns (s': Bus)
    requires t < |s.threads| && Named(s) && s.threads[t] == WantBus(Disconnect(c)) && s.lock.None? && c < |s.heap|
    ensures Leads(s, t, s') && s'.threads == s.threads[t := Idle] && s'.lock.None? && s'.calls == s.calls
    ensures s'.heap == s.heap[c := s.heap[c].(active := false)]
    ensures c !in s.conns ==> s'.conns == s.conns
    ensures forall i :: 0 <= i < |s.conns| && s.conns[i] == c && c !in s.conns[..i] ==> Compacted(s.conns, i, s'.conns)
  {
    hide Leads, SwapRemove, Named;
    SwapRemoveCompacts(s.conns, c);
    s' := DisconnectStarts(s, t, c);
    s' := DisconnectEnds(s, s', t, c);
  }

  lemma DisconnectStarts(s: Bus, t: nat, c: nat) returns (m: Bus)
    requires t < |s.threads| && Named(s) && s.threads[t] == WantBus(Disconnect(c)) && s.lock.None? && c < |s.heap|
    ensures Leads(s, t, m) && OnlyThread(s, m, t) && m.threads[t] == Clearing(c) && Named(m)
    ensures m.conns == SwapRemove(s.conns, c) && m.heap == s.heap && m.lock.None? && m.calls == s.calls
  {
    hide Leads, SwapRemove;
    LeadsOneStep(s, t);
    m := Next(s, t, Go);
    Steps(s, t, m);
    m := Next(m, t, Go);
    assert m.conns == SwapRemove(s.conns, c) && m.heap == s.heap;
    NamedAlike(s, m, c);
    Steps(s, t, m);
    m := Next(m, t, Go);
  }

  lemma NamedAlike(s: Bus, m: Bus, c: nat)
    requires Named(s) && m.heap == s.heap && m.conns == SwapRemove(s.conns, c)
    ensures Named(m)
  {
    SwapRemoveNamed(s, c);
  }

  lemma DisconnectEnds(s: Bus, m: Bus, t: nat, c: nat) returns (s': Bus)
    requires Leads(s, t, m) && OnlyThread(s, m, t) && m.threads[t] == Clearing(c) && Named(m) && c < |m.heap|
    ensures Leads(s, t, s') && s'.threads == s.threads[t := Idle] && s'.lock == m.lock && s'.calls == m.calls
    ensures s'.conns == m.conns && s'.heap == m.heap[c := m.heap[c].(active := false)]
  {
    hide Leads;
    Steps(s, t, m);
    s' := Next(m, t, Go);
    Steps(s, t, s');
    s' := Next(s', t, Go);
  }

  lemma SwapRemoveNamed(s: Bus, c: nat)
    requires Named(s)
    ensures forall i :: 0 <= i < |SwapRemove(s.conns, c)| ==> SwapRemove(s.conns, c)[i] < |s.heap|
  {
    forall i | 0 <= i < |SwapRemove(s.conns, c)| ensures SwapRemove(s.conns, c)[i] in s.conns {
    }
  }
}
