/** What the loops of `publish` and `route` recorded is true of earlier moments of the same call, in every run. */
module BusRuns {
  import opened Wrappers
  import opened BusTypes
  import opened BusProtocol
  import opened BusInvariant
  import opened BusOwner
  import opened BusTheorems

  // ---- moments of a call ----

  /** The moment after `k` steps of the run lies inside the call that thread `t` is making. */
  ghost predicate InCall(n: nat, schedule: seq<Event>, k: nat, t: nat, calls: seq<Message>, c: nat) {
    && k <= |schedule| && Exec(n, schedule[..k]).Some?
    && var s := Exec(n, schedule[..k]).value;
       s.lock == Some(t) && s.calls == calls && c < |s.heap|
  }

  /** The connection at that moment. */
  ghost function At(n: nat, schedule: seq<Event>, k: nat, t: nat, calls: seq<Message>, c: nat): Conn
    requires InCall(n, schedule, k, t, calls, c)
  {
    Exec(n, schedule[..k]).value.heap[c]
  }

  predicate Matches(conn: Conn, topic: string) { conn.active && AnyMatch(conn.subs, topic) }

  /** At that moment the connection was as the look says. */
  ghost predicate LookAt(n: nat, schedule: seq<Event>, k: nat, t: nat, calls: seq<Message>, topic: string, look: Look) {
    && InCall(n, schedule, k, t, calls, look.c)
    && look.matched == Matches(At(n, schedule, k, t, calls, look.c), topic)
    && (look.matched ==> look.count == |At(n, schedule, k, t, calls, look.c).queue|)
  }

  ghost predicate SeenInCall(n: nat, schedule: seq<Event>, t: nat, calls: seq<Message>, topic: string, look: Look) {
    exists k :: 0 <= k <= |schedule| && LookAt(n, schedule, k, t, calls, topic, look)
  }

  /** At that moment the subscriptions of the connection answered `hit`. */
  ghost predicate HitAt(n: nat, schedule: seq<Event>, k: nat, t: nat, calls: seq<Message>, topic: string, c: nat, hit: bool) {
    InCall(n, schedule, k, t, calls, c) && hit == Matches(At(n, schedule, k, t, calls, c), topic)
  }

  ghost predicate Hit(n: nat, schedule: seq<Event>, t: nat, calls: seq<Message>, topic: string, c: nat, hit: bool) {
    exists k :: 0 <= k <= |schedule| && HitAt(n, schedule, k, t, calls, topic, c, hit)
  }

  lemma StillSeen(n: nat, schedule: seq<Event>, e: Event, t: nat, calls: seq<Message>, topic: string, look: Look)
    requires SeenInCall(n, schedule, t, calls, topic, look)
    ensures SeenInCall(n, schedule + [e], t, calls, topic, look)
  {
    var k :| 0 <= k <= |schedule| && LookAt(n, schedule, k, t, calls, topic, look);
    assert (schedule + [e])[..k] == schedule[..k];
    assert LookAt(n, schedule + [e], k, t, calls, topic, look);
  }

  lemma StillHit(n: nat, schedule: seq<Event>, e: Event, t: nat, calls: seq<Message>, topic: string, c: nat, hit: bool)
    requires Hit(n, schedule, t, calls, topic, c, hit)
    ensures Hit(n, schedule + [e], t, calls, topic, c, hit)
  {
    var k :| 0 <= k <= |schedule| && HitAt(n, schedule, k, t, calls, topic, c, hit);
    assert (schedule + [e])[..k] == schedule[..k];
    assert HitAt(n, schedule + [e], k, t, calls, topic, c, hit);
  }

  // ---- the records of the thread inside the bus lock ----

  /** What stays fixed while a thread holds the bus lock. */
  datatype View = View(conns: seq<nat>, ids: seq<string>, calls: seq<Message>)

  function ViewOf(s: Bus): (v: View)
    ensures v.conns == s.conns && v.calls == s.calls && |v.ids| == |s.heap|
    ensures forall c :: 0 <= c < |s.heap| ==> v.ids[c] == s.heap[c].id
  {
    View(s.conns, seq(|s.heap|, c requires 0 <= c < |s.heap| => s.heap[c].id), s.calls)
  }

  /** Whether `publish` looks at the subscriptions of a connection. */
  predicate Scanned(v: View, call: Call, c: nat) {
    c < |v.ids| && !DirectTo(call.msg, v.ids[c]) && IsBroadcast(call.msg)
  }

  ghost predicate AnswerTrue(n: nat, schedule: seq<Event>, v: View, t: nat, call: Call, c: nat, hit: bool) {
    Scanned(v, call, c) ==> Hit(n, schedule, t, v.calls, call.msg.topic, c, hit)
  }

  ghost predicate FanTrue(n: nat, schedule: seq<Event>, v: View, t: nat, call: Call, f: Fan) {
    && |f.hits| <= |v.conns|
    && forall j :: 0 <= j < |f.hits| ==> AnswerTrue(n, schedule, v, t, call, v.conns[j], f.hits[j])
  }

  ghost predicate SearchTrue(n: nat, schedule: seq<Event>, v: View, t: nat, call: Call, se: Search) {
    forall j :: 0 <= j < |se.seen| ==> SeenInCall(n, schedule, t, v.calls, call.msg.topic, se.seen[j])
  }

  ghost predicate FromTrue(n: nat, schedule: seq<Event>, v: View, t: nat, call: Call, from: Origin) {
    match from
    case ByPublish(f) => FanTrue(n, schedule, v, t, call, f)
    case ByAddress(_) => true
    case ByTopic(se) => SearchTrue(n, schedule, v, t, call, se)
  }

  ghost predicate RecordsTrue(n: nat, schedule: seq<Event>, v: View, t: nat, pc: PC) {
    match pc
    case PubAt(call, f) => FanTrue(n, schedule, v, t, call, f)
    case PubWantScan(call, f, _) => FanTrue(n, schedule, v, t, call, f)
    case PubScan(call, f, _) => FanTrue(n, schedule, v, t, call, f)
    case PubScanned(call, f, c, hit) =>
      FanTrue(n, schedule, v, t, call, f) && Hit(n, schedule, t, v.calls, call.msg.topic, c, hit)
    case RouteAt(call, se) => SearchTrue(n, schedule, v, t, call, se)
    case RouteWantScan(call, se, _) => SearchTrue(n, schedule, v, t, call, se)
    case RouteScan(call, se, _) => SearchTrue(n, schedule, v, t, call, se)
    case RouteScanned(call, se, _, look) =>
      SearchTrue(n, schedule, v, t, call, se) && SeenInCall(n, schedule, t, v.calls, call.msg.topic, look)
    case WantPush(call, _, from) => FromTrue(n, schedule, v, t, call, from)
    case Pushing(call, _, from) => FromTrue(n, schedule, v, t, call, from)
    case Counting(call, _, from, _) => FromTrue(n, schedule, v, t, call, from)
    case PushUnlock(call, _, from, _) => FromTrue(n, schedule, v, t, call, from)
    case _ => true
  }

  ghost predicate HolderTrue(n: nat, schedule: seq<Event>, s: Bus) {
    s.lock.Some? && s.lock.value < |s.threads| ==>
      RecordsTrue(n, schedule, ViewOf(s), s.lock.value, s.threads[s.lock.value])
  }

  // ---- a longer run keeps the records true ----

  lemma FanLasts(n: nat, schedule: seq<Event>, e: Event, v: View, t: nat, call: Call, f: Fan)
    requires FanTrue(n, schedule, v, t, call, f)
    ensures FanTrue(n, schedule + [e], v, t, call, f)
  {
    forall j | 0 <= j < |f.hits| ensures AnswerTrue(n, schedule + [e], v, t, call, v.conns[j], f.hits[j]) {
      assert AnswerTrue(n, schedule, v, t, call, v.conns[j], f.hits[j]);
      if Scanned(v, call, v.conns[j]) {
        StillHit(n, schedule, e, t, v.calls, call.msg.topic, v.conns[j], f.hits[j]);
      }
    }
  }

  lemma SearchLasts(n: nat, schedule: seq<Event>, e: Event, v: View, t: nat, call: Call, se: Search)
    requires SearchTrue(n, schedule, v, t, call, se)
    ensures SearchTrue(n, schedule + [e], v, t, call, se)
  {
    forall j | 0 <= j < |se.seen| ensures SeenInCall(n, schedule + [e], t, v.calls, call.msg.topic, se.seen[j]) {
      StillSeen(n, schedule, e, t, v.calls, call.msg.topic, se.seen[j]);
    }
  }

  lemma FromLasts(n: nat, schedule: seq<Event>, e: Event, v: View, t: nat, call: Call, from: Origin)
    requires FromTrue(n, schedule, v, t, call, from)
    ensures FromTrue(n, schedule + [e], v, t, call, from)
  {
    match from
    case ByPublish(f) => FanLasts(n, schedule, e, v, t, call, f);
    case ByAddress(_) =>
    case ByTopic(se) => SearchLasts(n, schedule, e, v, t, call, se);
  }

  lemma RecordsLast(n: nat, schedule: seq<Event>, e: Event, v: View, t: nat, pc: PC)
    requires RecordsTrue(n, schedule, v, t, pc)
    ensures RecordsTrue(n, schedule + [e], v, t, pc)
  {
    hide FanTrue, SearchTrue, FromTrue, Hit, SeenInCall;
    match pc
    case PubAt(call, f) => FanLasts(n, schedule, e, v, t, call, f);
    case PubWantScan(call, f, _) => FanLasts(n, schedule, e, v, t, call, f);
    case PubScan(call, f, _) => FanLasts(n, schedule, e, v, t, call, f);
    case PubScanned(call, f, c, hit) =>
      FanLasts(n, schedule, e, v, t, call, f);
      StillHit(n, schedule, e, t, v.calls, call.msg.topic, c, hit);
    case RouteAt(call, se) => SearchLasts(n, schedule, e, v, t, call, se);
    case RouteWantScan(call, se, _) => SearchLasts(n, schedule, e, v, t, call, se);
    case RouteScan(call, se, _) => SearchLasts(n, schedule, e, v, t, call, se);
    case RouteScanned(call, se, _, look) =>
      SearchLasts(n, schedule, e, v, t, call, se);
      StillSeen(n, schedule, e, t, v.calls, call.msg.topic, look);
    case WantPush(call, _, from) => FromLasts(n, schedule, e, v, t, call, from);
    case Pushing(call, _, from) => FromLasts(n, schedule, e, v, t, call, from);
    case Counting(call, _, from, _) => FromLasts(n, schedule, e, v, t, call, from);
    case PushUnlock(call, _, from, _) => FromLasts(n, schedule, e, v, t, call, from);
    case _ =>
  }

  // ---- so does every step ----

  /** The moment before the step. */
  lemma Before(n: nat, schedule: seq<Event>, e: Event, s: Bus, t: nat, c: nat)
    requires Exec(n, schedule) == Some(s) && s.lock == Some(t) && c < |s.heap|
    ensures InCall(n, schedule + [e], |schedule|, t, s.calls, c)
    ensures At(n, schedule + [e], |schedule|, t, s.calls, c) == s.heap[c]
  {
    assert (schedule + [e])[..|schedule|] == schedule;
  }

  lemma PublishMoves(n: nat, schedule: seq<Event>, s: Bus, t: nat, choice: Choice)
    requires Enabled(s, t, choice) && s.threads[t].PubAt? && TableOk(s) && HolderOk(s, s.threads[t])
    requires RecordsTrue(n, schedule, ViewOf(s), t, s.threads[t])
    ensures RecordsTrue(n, schedule, ViewOf(s), t, Next(s, t, choice).threads[t])
  {
  }

  lemma ScannedMoves(n: nat, schedule: seq<Event>, s: Bus, t: nat, pc: PC)
    requires pc.PubScanned? && HolderOk(s, pc) && RecordsTrue(n, schedule, ViewOf(s), t, pc)
    ensures RecordsTrue(n, schedule, ViewOf(s), t, if pc.hit then WantPush(pc.call, pc.c, ByPublish(Noted(pc.fan, pc.hit)))
                                           else PubAt(pc.call, Visited(Noted(pc.fan, pc.hit), Skipped)))
  {
  }

  lemma RouteMoves(n: nat, schedule: seq<Event>, s: Bus, t: nat, choice: Choice)
    requires Enabled(s, t, choice) && (s.threads[t].RouteAt? || s.threads[t].RouteDirect?) && TableOk(s)
    requires RecordsTrue(n, schedule, ViewOf(s), t, s.threads[t])
    ensures RecordsTrue(n, schedule, ViewOf(s), t, Next(s, t, choice).threads[t])
  {
  }

  lemma LookMoves(n: nat, schedule: seq<Event>, s: Bus, t: nat, pc: PC)
    requires pc.RouteScanned? && RecordsTrue(n, schedule, ViewOf(s), t, pc)
    ensures RecordsTrue(n, schedule, ViewOf(s), t, RouteAt(pc.call, Looked(pc.search, pc.look)))
  {
    hide SeenInCall;
    assert Looked(pc.search, pc.look).seen == pc.search.seen + [pc.look];
  }

  lemma PushMoves(n: nat, schedule: seq<Event>, s: Bus, t: nat, pc: PC)
    requires pc.PushUnlock? && RecordsTrue(n, schedule, ViewOf(s), t, pc)
    ensures RecordsTrue(n, schedule, ViewOf(s), t, AfterPush(pc.call, pc.from, pc.ok))
  {
  }

  /** What a scan finds is true of the moment it is made. */
  lemma ScanMoves(n: nat, schedule: seq<Event>, e: Event, s: Bus, t: nat, pc: PC)
    requires Exec(n, schedule) == Some(s) && s.lock == Some(t) && TableOk(s) && HolderOk(s, pc)
    requires (pc.PubScan? || pc.RouteScan?) && pc.c < |s.heap| && RecordsTrue(n, schedule + [e], ViewOf(s), t, pc)
    ensures RecordsTrue(n, schedule + [e], ViewOf(s), t, ConnEffect(pc, s.heap[pc.c], t, e.choice).pc)
  {
    var k := |schedule|;
    Before(n, schedule, e, s, t, pc.c);
    assert s.heap[pc.c].active;
    if pc.PubScan? {
      assert HitAt(n, schedule + [e], k, t, s.calls, pc.call.msg.topic, pc.c, AnyMatch(s.heap[pc.c].subs, pc.call.msg.topic));
    } else {
      var look := Look(pc.c, AnyMatch(s.heap[pc.c].subs, pc.call.msg.topic), |s.heap[pc.c].queue|);
      assert LookAt(n, schedule + [e], k, t, s.calls, pc.call.msg.topic, look);
    }
  }

  lemma OtherMoves(n: nat, schedule: seq<Event>, s: Bus, t: nat, pc: PC, conn: Conn, choice: Choice)
    requires pc.PubWantScan? || pc.RouteWantScan? || pc.WantPush? || pc.Pushing? || pc.Counting?
    requires RecordsTrue(n, schedule, ViewOf(s), t, pc)
    ensures RecordsTrue(n, schedule, ViewOf(s), t, ConnEffect(pc, conn, t, choice).pc)
  {
    hide FanTrue, SearchTrue, FromTrue;
  }

  /** The thread inside the bus lock makes a step. */
  lemma OwnStep(n: nat, schedule: seq<Event>, e: Event, s: Bus)
    requires Exec(n, schedule) == Some(s) && Inv(s) && Enabled(s, e.t, e.choice) && s.lock == Some(e.t)
    requires !InTable(s.threads[e.t]) && RecordsTrue(n, schedule + [e], ViewOf(s), e.t, s.threads[e.t])
    ensures RecordsTrue(n, schedule + [e], ViewOf(s), e.t, Next(s, e.t, e.choice).threads[e.t])
  {
    hide RecordsTrue, HolderOk, TableOk;
    var t, pc := e.t, s.threads[e.t];
    assert HolderOk(s, pc) && HoldsBus(pc);
    if pc.PubAt? {
      PublishMoves(n, schedule + [e], s, t, e.choice);
    } else if pc.RouteAt? || pc.RouteDirect? {
      RouteMoves(n, schedule + [e], s, t, e.choice);
    } else if pc.PubScan? || pc.RouteScan? {
      ScanMoves(n, schedule, e, s, t, pc);
    } else if pc.PubScanned? {
      ScannedMoves(n, schedule + [e], s, t, pc);
    } else if pc.RouteScanned? {
      LookMoves(n, schedule + [e], s, t, pc);
    } else if pc.PushUnlock? {
      PushMoves(n, schedule + [e], s, t, pc);
    } else {
      OtherMoves(n, schedule + [e], s, t, pc, s.heap[pc.c], e.choice);
    }
  }

  lemma TableStepRecords(n: nat, schedule: seq<Event>, e: Event, s: Bus)
    requires Inv(s) && Enabled(s, e.t, e.choice) && InTable(s.threads[e.t]) && HolderTrue(n, schedule, s)
    ensures HolderTrue(n, schedule + [e], Next(s, e.t, e.choice))
  {
    var pc := s.threads[e.t];
    if pc.Idle? || pc.Clearing? || pc.Broadcasting? {
      if s.lock.Some? {
        hide RecordsTrue;
        ViewKept(s, e.t, e.choice);
        RecordsLast(n, schedule, e, ViewOf(s), s.lock.value, s.threads[s.lock.value]);
      }
    } else {
      NoRecordsYet(n, schedule + [e], s, e.t, e.choice);
    }
  }

  /** Steps outside the bus lock leave its holder and what it sees alone. */
  lemma ViewKept(s: Bus, t: nat, choice: Choice)
    requires Inv(s) && Enabled(s, t, choice) && s.lock.Some?
    requires s.threads[t].Idle? || s.threads[t].Clearing? || s.threads[t].Broadcasting?
    ensures var s' := Next(s, t, choice);
            && ViewOf(s') == ViewOf(s) && s'.lock == s.lock && s.lock.value != t && |s'.threads| == |s.threads|
            && s.lock.value < |s.threads| && s'.threads[s.lock.value] == s.threads[s.lock.value]
  {
  }

  lemma NoRecordsYet(n: nat, schedule: seq<Event>, s: Bus, t: nat, choice: Choice)
    requires LocksOk(s) && Enabled(s, t, choice) && InTable(s.threads[t])
    requires !s.threads[t].Idle? && !s.threads[t].Clearing? && !s.threads[t].Broadcasting?
    ensures HolderTrue(n, schedule, Next(s, t, choice))
  {
  }

  lemma StepKeepsRecords(n: nat, schedule: seq<Event>, e: Event, s: Bus)
    requires Exec(n, schedule) == Some(s) && Inv(s) && Enabled(s, e.t, e.choice) && HolderTrue(n, schedule, s)
    ensures HolderTrue(n, schedule + [e], Next(s, e.t, e.choice))
  {
    hide RecordsTrue;
    if InTable(s.threads[e.t]) {
      TableStepRecords(n, schedule, e, s);
    } else {
      OtherCodeKeepsTable(s, e.t, e.choice);
      assert ViewOf(Next(s, e.t, e.choice)) == ViewOf(s);
      if s.lock.Some? {
        RecordsLast(n, schedule, e, ViewOf(s), s.lock.value, s.threads[s.lock.value]);
        if s.lock.value == e.t { OwnStep(n, schedule, e, s); }
      }
    }
  }

  lemma NoRecordsAtFirst(n: nat)
    ensures HolderTrue(n, [], Init(n))
  {
  }

  lemma {:induction false} RunRecordsTruth(n: nat, schedule: seq<Event>)
    ensures Exec(n, schedule).Some? ==> HolderTrue(n, schedule, Exec(n, schedule).value)
  {
    hide HolderTrue, Inv, Next, Enabled;
    if schedule == [] {
      NoRecordsAtFirst(n);
    } else if Exec(n, schedule).Some? {
      var before, e := schedule[..|schedule| - 1], schedule[|schedule| - 1];
      assert before + [e] == schedule;
      RunRecordsTruth(n, before);
      RunKeepsInvariant(n, before);
      StepKeepsRecords(n, before, e, Exec(n, before).value);
    }
  }

  // ---- what this means for callers ----

  /** A drop in the topic fallback was forced: during the call every connection of the table was seen either
      not matching or full, at a moment of its own. */
  lemma RouteDropWasForced(n: nat, schedule: seq<Event>, s: Bus, t: nat, choice: Choice, j: nat) returns (k: nat)
    requires Exec(n, schedule) == Some(s) && Enabled(s, t, choice) && s.threads[t].Pushing? && s.threads[t].from.ByTopic?
    requires var pc' := Next(s, t, choice).threads[t]; pc'.Counting? && !pc'.ok
    requires j < |s.conns|
    ensures InCall(n, schedule, k, t, s.calls, s.conns[j])
    ensures var conn := At(n, schedule, k, t, s.calls, s.conns[j]);
            Matches(conn, s.threads[t].call.msg.topic) ==> |conn.queue| == 256
  {
    hide Next;
    var pc := s.threads[t];
    k := RecordedLook(n, schedule, s, t, j);
    assert Reachable(s);
    RouteDropsOnlyWhenAllFull(s, t, choice);
  }

  /** The connection chosen in the topic fallback had at most as many messages waiting as every other connection
      that matched, when that one was looked at during the call. */
  lemma RouteChoiceWasShortest(n: nat, schedule: seq<Event>, s: Bus, t: nat, j: nat) returns (k: nat)
    requires Exec(n, schedule) == Some(s) && t < |s.threads| && s.threads[t].Pushing? && s.threads[t].from.ByTopic?
    requires j < |s.conns|
    ensures InCall(n, schedule, k, t, s.calls, s.conns[j]) && s.threads[t].c < |s.heap|
    ensures var conn := At(n, schedule, k, t, s.calls, s.conns[j]);
            Matches(conn, s.threads[t].call.msg.topic) ==> |s.heap[s.threads[t].c].queue| <= |conn.queue|
  {
    k := RecordedLook(n, schedule, s, t, j);
    assert Reachable(s);
    SearchIsKnown(s, t);
    hide SearchOk;
    if s.threads[t].from.search.seen[j].matched { BestIsShortest(s, s.threads[t].from.search, j); }
    KnownBest(s, s.threads[t].from.search);
  }

  lemma KnownBest(s: Bus, se: Search)
    requires SearchOk(s, se)
    ensures se.best.Some? ==> se.best.value < |s.heap|
  {
  }

  lemma BestIsShortest(s: Bus, se: Search, j: nat)
    requires SearchOk(s, se) && j < |se.seen| && se.seen[j].matched
    ensures se.best.Some? && se.best.value < |s.heap| && |s.heap[se.best.value].queue| <= se.seen[j].count
  {
  }

  lemma SearchRecords(n: nat, schedule: seq<Event>, s: Bus, t: nat)
    requires Exec(n, schedule) == Some(s) && t < |s.threads| && s.threads[t].Pushing? && s.threads[t].from.ByTopic?
    ensures SearchTrue(n, schedule, ViewOf(s), t, s.threads[t].call, s.threads[t].from.search)
  {
    hide HolderOk, TableOk, SearchTrue, Exec;
    RunRecordsTruth(n, schedule);
    assert Reachable(s);
    HolderIsKnown(s, t);
  }

  /** The moment of the `j`-th look of a finished search. */
  lemma RecordedLook(n: nat, schedule: seq<Event>, s: Bus, t: nat, j: nat) returns (k: nat)
    requires Exec(n, schedule) == Some(s) && t < |s.threads| && s.threads[t].Pushing? && s.threads[t].from.ByTopic?
    requires j < |s.conns|
    ensures var se := s.threads[t].from.search;
            j < |se.seen| && se.seen[j].c == s.conns[j] && LookAt(n, schedule, k, t, s.calls, s.threads[t].call.msg.topic, se.seen[j])
  {
    assert Reachable(s);
    SearchIsKnown(s, t);
    SearchRecords(n, schedule, s, t);
    var se := s.threads[t].from.search;
    assert SeenInCall(n, schedule, t, s.calls, s.threads[t].call.msg.topic, se.seen[j]);
    k :| 0 <= k <= |schedule| && LookAt(n, schedule, k, t, s.calls, s.threads[t].call.msg.topic, se.seen[j]);
  }

  /** Route gives up only if every connection of the table was seen not matching during the call. */
  lemma RouteGaveUpRightly(n: nat, schedule: seq<Event>, s: Bus, t: nat, j: nat) returns (k: nat)
    requires Exec(n, schedule) == Some(s) && t < |s.threads| && s.threads[t].RouteAt?
    requires s.threads[t].search.i >= |s.conns| && s.threads[t].search.best.None? && j < |s.conns|
    ensures InCall(n, schedule, k, t, s.calls, s.conns[j])
    ensures !Matches(At(n, schedule, k, t, s.calls, s.conns[j]), s.threads[t].call.msg.topic)
  {
    assert Reachable(s);
    RouteGivesUpOnlyUnmatched(s, t);
    RouteRecords(n, schedule, s, t);
    var topic, se := s.threads[t].call.msg.topic, s.threads[t].search;
    k :| 0 <= k <= |schedule| && LookAt(n, schedule, k, t, s.calls, topic, se.seen[j]);
  }

  lemma RouteRecords(n: nat, schedule: seq<Event>, s: Bus, t: nat)
    requires Exec(n, schedule) == Some(s) && t < |s.threads| && s.threads[t].RouteAt?
    ensures var pc := s.threads[t];
            forall j :: 0 <= j < |pc.search.seen| ==> SeenInCall(n, schedule, t, s.calls, pc.call.msg.topic, pc.search.seen[j])
  {
    RunRecordsTruth(n, schedule);
    assert Reachable(s);
    hide HolderOk, TableOk;
    HolderIsKnown(s, t);
  }

  /** When the fan-out ends, a push was tried on a connection of the table exactly if it is addressed by id or,
      for a broadcast, its subscriptions matched at a moment of the call. */
  lemma PublishReachedItsMatches(n: nat, schedule: seq<Event>, s: Bus, t: nat, j: nat) returns (k: nat)
    requires Exec(n, schedule) == Some(s) && t < |s.threads| && s.threads[t].PubAt? && s.threads[t].fan.i >= |s.conns|
    requires j < |s.conns|
    ensures InCall(n, schedule, k, t, s.calls, s.conns[j])
    ensures var conn, msg := At(n, schedule, k, t, s.calls, s.conns[j]), s.threads[t].call.msg;
            && s.conns[j] < |s.heap|
            && (OutcomeOf(s.heap[s.conns[j]], s.threads[t].call.stamp) != Skipped <==>
                  || (msg.to != "" && msg.to == s.heap[s.conns[j]].id)
                  || ((msg.to == "" || msg.to == "*") && Matches(conn, msg.topic)))
  {
    assert Reachable(s);
    hide HolderOk, TableOk;
    HolderIsKnown(s, t);
    PublishVisitsEveryone(s, t);
    RunRecordsTruth(n, schedule);
    var call, f, c := s.threads[t].call, s.threads[t].fan, s.conns[j];
    if Scanned(ViewOf(s), call, c) {
      assert AnswerTrue(n, schedule, ViewOf(s), t, call, c, f.hits[j]);
      k :| 0 <= k <= |schedule| && HitAt(n, schedule, k, t, s.calls, call.msg.topic, c, f.hits[j]);
    } else {
      k := |schedule|;
      assert schedule[..k] == schedule;
    }
  }

  // ---- every attempt was a push ----

  /** At moment `m` a thread was about to push the message of the attempt, and it was accepted exactly if there was
      room. */
  ghost predicate TriedAt(n: nat, schedule: seq<Event>, m: nat, c: nat, a: Attempt) {
    && m < |schedule| && Exec(n, schedule[..m]).Some?
    && var b, u := Exec(n, schedule[..m]).value, schedule[m].t;
       && u < |b.threads| && b.threads[u].Pushing? && b.threads[u].c == c < |b.heap|
       && b.threads[u].call == Call(a.msg, a.stamp) && (a.accepted <==> |b.heap[c].queue| < 256)
  }

  lemma AttemptsGrow(b: Bus, t: nat, choice: Choice, c: nat, k: nat)
    requires Enabled(b, t, choice) && c < |Next(b, t, choice).heap| && k < |Next(b, t, choice).heap[c].attempts|
    ensures var a := Next(b, t, choice).heap[c].attempts[k];
            || (c < |b.heap| && k < |b.heap[c].attempts| && b.heap[c].attempts[k] == a)
            || (&& b.threads[t].Pushing? && b.threads[t].c == c < |b.heap|
                && b.threads[t].call == Call(a.msg, a.stamp) && (a.accepted <==> |b.heap[c].queue| < 256))
  {
    if b.threads[t].Pushing? {
      PushQueuesOrDrops(b, t, choice);
    } else {
      QuietStepOffersNothing(b, t, choice);
    }
  }

  /** In every run each attempt on record, of any call on any connection, was made at a moment of the run, and was
      accepted exactly if the queue had room at that moment. */
  lemma {:induction false} EveryAttemptWasTried(n: nat, schedule: seq<Event>, c: nat, k: nat) returns (m: nat)
    requires Exec(n, schedule).Some? && c < |Exec(n, schedule).value.heap|
    requires k < |Exec(n, schedule).value.heap[c].attempts|
    ensures TriedAt(n, schedule, m, c, Exec(n, schedule).value.heap[c].attempts[k])
  {
    assert schedule != [];
    var last := |schedule| - 1;
    var before, e := schedule[..last], schedule[last];
    var b, a := Exec(n, before).value, Exec(n, schedule).value.heap[c].attempts[k];
    hide Next, Enabled;
    AttemptsGrow(b, e.t, e.choice, c, k);
    if c < |b.heap| && k < |b.heap[c].attempts| && b.heap[c].attempts[k] == a {
      m := EveryAttemptWasTried(n, before, c, k);
      assert before[..m] == schedule[..m];
    } else {
      m := last;
    }
  }
}
