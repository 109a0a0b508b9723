/** The bus as a transition system: any number of threads, one program counter each, one step at a time.
    Locks are taken and released in steps of their own; what a thread does under a queue lock to state
    that only that lock's holder touches is one step. `attempts`, `popped`, `calls`, `fanned`, `outcomes` and
    `seen` and `hits` are history: they record what happened and decide nothing. */
module BusProtocol {
  import opened Basics
  import opened Wrappers
  import opened BusTypes
  import opened Words

  // ---- state ----

  /** One delivery attempt: the call that made it (its place in bus-lock order) and whether it was accepted. */
  datatype Attempt = Attempt(stamp: nat, msg: Message, accepted: bool)

  datatype Conn = Conn(
    id: string, active: bool, lock: Option<nat>, subs: seq<string>, queue: seq<Message>, drops: nat,
    attempts: seq<Attempt>, popped: seq<Message>)

  datatype Call = Call(msg: Message, stamp: nat)

  datatype Outcome = Skipped | Accepted | Dropped

  /** The loop variables of `publish`: index, delivered count, and for each connection so far whether its
      subscriptions were found to match and what became of it. */
  datatype Fan = Fan(i: nat, delivered: nat, outcomes: seq<Outcome>, hits: seq<bool>)

  /** What `route` saw of one connection: did it match, and how long was its queue. */
  datatype Look = Look(c: nat, matched: bool, count: nat)

  datatype Search = Search(i: nat, best: Option<nat>, minQ: nat, seen: seq<Look>)

  /** Which code is about to push: the fan-out loop, the direct branch of route at a place of the table, or its
      topic fallback. */
  datatype Origin = ByPublish(fan: Fan) | ByAddress(i: nat) | ByTopic(search: Search)

  datatype Request = Publish(msg: Message) | Route(msg: Message) | Connect(id: string) | Disconnect(c: nat)

  datatype PC =
    | Idle
    | WantBus(req: Request)
    | Connecting(id: string)
    | Disconnecting(c: nat)
    | BusUnlock
    | BusUnlockThenClear(c: nat)
    | Clearing(c: nat)
    | Broadcasting(c: nat)
    | PubAt(call: Call, fan: Fan)
    | PubWantScan(call: Call, fan: Fan, c: nat)
    | PubScan(call: Call, fan: Fan, c: nat)
    | PubScanned(call: Call, fan: Fan, c: nat, hit: bool)
    | RouteDirect(call: Call, i: nat)
    | RouteAt(call: Call, search: Search)
    | RouteWantScan(call: Call, search: Search, c: nat)
    | RouteScan(call: Call, search: Search, c: nat)
    | RouteScanned(call: Call, search: Search, c: nat, look: Look)
    | WantPush(call: Call, c: nat, from: Origin)
    | Pushing(call: Call, c: nat, from: Origin)
    | Counting(call: Call, c: nat, from: Origin, ok: bool)
    | PushUnlock(call: Call, c: nat, from: Origin, ok: bool)
    | RecvWant(c: nat, timed: bool)
    | RecvCheck(c: nat)
    | RecvSleep(c: nat)
    | RecvWait(c: nat)
    | RecvPop(c: nat)
    | SubWant(c: nat, topic: string, on: bool)
    | SubBody(c: nat, topic: string, on: bool)
    | QUnlock(c: nat)

  datatype Bus = Bus(
    lock: Option<nat>, conns: seq<nat>, heap: seq<Conn>, published: nat, routed: nat, dropped: nat,
    threads: seq<PC>, calls: seq<Message>, fanned: set<nat>)

  /** What the environment decides: which call an idle thread makes, and whether a wait timed out. */
  datatype Choice = Go | Start(pc: PC) | Wake(timedOut: bool)

  datatype Event = Event(t: nat, choice: Choice)

  function Init(n: nat): Bus {
    Bus(None, [], [], 0, 0, 0, seq(n, _ => Idle), [], {})
  }

  // ---- who holds and who wants which lock ----

  predicate HoldsBus(pc: PC) {
    match pc
    case Idle | WantBus(_) | Clearing(_) | Broadcasting(_) => false
    case RecvWant(_, _) | RecvCheck(_) | RecvSleep(_) | RecvWait(_) | RecvPop(_) => false
    case SubWant(_, _, _) | SubBody(_, _, _) | QUnlock(_) => false
    case _ => true
  }

  function HoldsQ(pc: PC): Option<nat> {
    match pc
    case PubScan(_, _, c) => Some(c)
    case PubScanned(_, _, c, _) => Some(c)
    case RouteScan(_, _, c) => Some(c)
    case RouteScanned(_, _, c, _) => Some(c)
    case Pushing(_, c, _) => Some(c)
    case Counting(_, c, _, _) => Some(c)
    case PushUnlock(_, c, _, _) => Some(c)
    case RecvCheck(c) => Some(c)
    case RecvSleep(c) => Some(c)
    case RecvPop(c) => Some(c)
    case SubBody(c, _, _) => Some(c)
    case QUnlock(c) => Some(c)
    case _ => None
  }

  function WantsQ(pc: PC): Option<nat> {
    match pc
    case PubWantScan(_, _, c) => Some(c)
    case RouteWantScan(_, _, c) => Some(c)
    case WantPush(_, c, _) => Some(c)
    case RecvWant(c, _) => Some(c)
    case RecvWait(c) => Some(c)
    case SubWant(c, _, _) => Some(c)
    case _ => None
  }

  /** The connection a program counter names. */
  function ConnOf(pc: PC): Option<nat> {
    match pc
    case WantBus(Disconnect(c)) => Some(c)
    case Disconnecting(c) => Some(c)
    case BusUnlockThenClear(c) => Some(c)
    case Clearing(c) => Some(c)
    case Broadcasting(c) => Some(c)
    case _ => if HoldsQ(pc).Some? then HoldsQ(pc) else WantsQ(pc)
  }

  // ---- steps ----

  predicate CanStart(s: Bus, pc: PC) {
    && (pc.WantBus? || pc.RecvWant? || pc.SubWant?)
    && (ConnOf(pc).Some? ==> ConnOf(pc).value < |s.heap|)
  }

  /** The table names existing connections. */
  predicate Named(s: Bus) {
    forall i :: 0 <= i < |s.conns| ==> s.conns[i] < |s.heap|
  }

  predicate Enabled(s: Bus, t: nat, choice: Choice) {
    && t < |s.threads| && Named(s)
    && var pc := s.threads[t];
       && (pc.Idle? ==> choice.Start? && CanStart(s, choice.pc))
       && (pc.RecvWait? ==> choice.Wake?)
       && (pc.WantBus? ==> s.lock.None?)
       && (ConnOf(pc).Some? ==> ConnOf(pc).value < |s.heap|)
       && (WantsQ(pc).Some? ==> s.heap[WantsQ(pc).value].lock.None?)
  }

  function Goto(s: Bus, t: nat, pc: PC): Bus
    requires t < |s.threads|
  {
    s.(threads := s.threads[t := pc])
  }

  function Visited(f: Fan, outcome: Outcome): Fan {
    Fan(f.i + 1, if outcome.Accepted? then f.delivered + 1 else f.delivered, f.outcomes + [outcome], f.hits)
  }

  function Noted(f: Fan, hit: bool): Fan { f.(hits := f.hits + [hit]) }

  /** One turn of route's search loop: a shorter matching queue becomes the best so far. */
  function Looked(se: Search, look: Look): Search {
    if look.matched && look.count < se.minQ then Search(se.i + 1, Some(look.c), look.count, se.seen + [look])
    else Search(se.i + 1, se.best, se.minQ, se.seen + [look])
  }

  // Steps of the code that manages the table and the bus lock.

  predicate InTable(pc: PC) {
    || pc.Idle? || pc.WantBus? || pc.Connecting? || pc.Disconnecting? || pc.BusUnlock? || pc.BusUnlockThenClear?
    || pc.Clearing? || pc.Broadcasting?
  }

  function Granted(s: Bus, t: nat, req: Request): Bus
    requires t < |s.threads|
  {
    var s := s.(lock := Some(t));
    match req
    case Publish(msg) =>
      Goto(s.(calls := s.calls + [msg], fanned := s.fanned + {|s.calls|}, published := Inc64(s.published)), t,
           PubAt(Call(msg, |s.calls|), Fan(0, 0, [], [])))
    case Route(msg) => Goto(s.(calls := s.calls + [msg]), t, RouteDirect(Call(msg, |s.calls|), 0))
    case Connect(id) => Goto(s, t, Connecting(id))
    case Disconnect(c) => Goto(s, t, Disconnecting(c))
  }

  function ConnectStep(s: Bus, t: nat, id: string): Bus
    requires t < |s.threads|
  {
    if |s.conns| >= CONNS_MAX then Goto(s, t, BusUnlock)
    else
      var conn := Conn(StoredId(id), true, None, [], [], 0, [], []);
      Goto(s.(heap := s.heap + [conn], conns := s.conns + [|s.heap|]), t, BusUnlock)
  }

  function TableNext(s: Bus, t: nat, choice: Choice): Bus
    requires Enabled(s, t, choice) && InTable(s.threads[t])
  {
    match s.threads[t]
    case Idle => Goto(s, t, choice.pc)
    case WantBus(req) => Granted(s, t, req)
    case Connecting(id) => ConnectStep(s, t, id)
    case Disconnecting(c) => Goto(s.(conns := SwapRemove(s.conns, c)), t, BusUnlockThenClear(c))
    case BusUnlock => Goto(s.(lock := None), t, Idle)
    case BusUnlockThenClear(c) => Goto(s.(lock := None), t, Clearing(c))
    case Clearing(c) => Goto(s.(heap := s.heap[c := s.heap[c].(active := false)]), t, Broadcasting(c))
    case Broadcasting(_) => Goto(s, t, Idle)
  }

  /** What a step of the delivery code does: where the thread goes, the new value of the connection its
      program counter names (if it changes), and which counter goes up. */
  datatype Effect = Effect(pc: PC, conn: Option<Conn>, routed: bool, dropped: bool)

  function Jump(pc: PC): Effect { Effect(pc, None, false, false) }

  function Write(pc: PC, conn: Conn): Effect { Effect(pc, Some(conn), false, false) }

  function PubAtEffect(s: Bus, call: Call, f: Fan): Effect
    requires Named(s)
  {
    if f.i >= |s.conns| then Jump(BusUnlock)
    else
      var c := s.conns[f.i];
      if !s.heap[c].active then Jump(PubAt(call, Visited(Noted(f, false), Skipped)))
      else if DirectTo(call.msg, s.heap[c].id) then Jump(WantPush(call, c, ByPublish(Noted(f, false))))
      else if IsBroadcast(call.msg) then Jump(PubWantScan(call, f, c))
      else Jump(PubAt(call, Visited(Noted(f, false), Skipped)))
  }

  function RouteDirectEffect(s: Bus, call: Call, i: nat): Effect
    requires Named(s)
  {
    if i >= |s.conns| then Jump(RouteAt(call, Search(0, None, UINT32_MAX, [])))
    else
      var c := s.conns[i];
      if s.heap[c].active && DirectTo(call.msg, s.heap[c].id) then Jump(WantPush(call, c, ByAddress(i)))
      else Jump(RouteDirect(call, i + 1))
  }

  function RouteAtEffect(s: Bus, call: Call, se: Search): Effect
    requires Named(s)
  {
    if se.i >= |s.conns| then
      if se.best.Some? then Jump(WantPush(call, se.best.value, ByTopic(se))) else Jump(BusUnlock)
    else
      var c := s.conns[se.i];
      if !s.heap[c].active then Jump(RouteAt(call, Looked(se, Look(c, false, 0))))
      else Jump(RouteWantScan(call, se, c))
  }

  function PushEffect(conn: Conn, call: Call, c: nat, from: Origin): Effect {
    var (queue, ok) := Pushed(conn.queue, call.msg);
    Write(Counting(call, c, from, ok),
          conn.(queue := queue, attempts := conn.attempts + [Attempt(call.stamp, call.msg, ok)]))
  }

  function CountEffect(conn: Conn, call: Call, c: nat, from: Origin, ok: bool): Effect {
    if ok then Effect(PushUnlock(call, c, from, ok), None, true, false)
    else Effect(PushUnlock(call, c, from, ok), Some(conn.(drops := Inc64(conn.drops))), false, true)
  }

  function AfterPush(call: Call, from: Origin, ok: bool): PC {
    match from
    case ByPublish(f) => PubAt(call, Visited(f, if ok then Accepted else Dropped))
    case _ => BusUnlock
  }

  function PopEffect(conn: Conn, c: nat): Effect {
    if conn.queue == [] then Jump(QUnlock(c))
    else Write(QUnlock(c), conn.(queue := conn.queue[1..], popped := conn.popped + [conn.queue[0]]))
  }

  function SubEffect(conn: Conn, c: nat, topic: string, on: bool): Effect {
    Write(QUnlock(c), conn.(subs := if on then Subscribed(conn.subs, topic).0 else SwapRemove(conn.subs, topic)))
  }

  /** The steps that know their connection: `conn` is its present value, `me` the thread. */
  function ConnEffect(pc: PC, conn: Conn, me: nat, choice: Choice): Effect
    requires ConnOf(pc).Some? && !InTable(pc) && (pc.RecvWait? ==> choice.Wake?)
  {
    var locked, unlocked := conn.(lock := Some(me)), conn.(lock := None);
    match pc
    case PubWantScan(call, f, c) => Write(PubScan(call, f, c), locked)
    case PubScan(call, f, c) => Jump(PubScanned(call, f, c, AnyMatch(conn.subs, call.msg.topic)))
    case PubScanned(call, f, c, hit) =>
      var noted := Noted(f, hit);
      Write(if hit then WantPush(call, c, ByPublish(noted)) else PubAt(call, Visited(noted, Skipped)), unlocked)
    case RouteWantScan(call, se, c) => Write(RouteScan(call, se, c), locked)
    case RouteScan(call, se, c) =>
      Jump(RouteScanned(call, se, c, Look(c, AnyMatch(conn.subs, call.msg.topic), |conn.queue|)))
    case RouteScanned(call, se, c, look) => Write(RouteAt(call, Looked(se, look)), unlocked)
    case WantPush(call, c, from) => Write(Pushing(call, c, from), locked)
    case Pushing(call, c, from) => PushEffect(conn, call, c, from)
    case Counting(call, c, from, ok) => CountEffect(conn, call, c, from, ok)
    case PushUnlock(call, c, from, ok) => Write(AfterPush(call, from, ok), unlocked)
    case RecvWant(c, timed) => Write(if timed then RecvCheck(c) else RecvPop(c), locked)
    case RecvCheck(c) => Jump(if conn.queue == [] && conn.active then RecvSleep(c) else RecvPop(c))
    case RecvSleep(c) => Write(RecvWait(c), unlocked)
    case RecvWait(c) => Write(if choice.timedOut then RecvPop(c) else RecvCheck(c), locked)
    case RecvPop(c) => PopEffect(conn, c)
    case SubWant(c, topic, on) => Write(SubBody(c, topic, on), locked)
    case SubBody(c, topic, on) => SubEffect(conn, c, topic, on)
    case QUnlock(c) => Write(Idle, unlocked)
  }

  function EffectOf(s: Bus, t: nat, choice: Choice): Effect
    requires Enabled(s, t, choice) && !InTable(s.threads[t])
  {
    var pc := s.threads[t];
    if pc.PubAt? then PubAtEffect(s, pc.call, pc.fan)
    else if pc.RouteDirect? then RouteDirectEffect(s, pc.call, pc.i)
    else if pc.RouteAt? then RouteAtEffect(s, pc.call, pc.search)
    else ConnEffect(pc, s.heap[ConnOf(pc).value], t, choice)
  }

  function Apply(s: Bus, t: nat, e: Effect): Bus
    requires t < |s.threads|
    requires e.conn.Some? ==> ConnOf(s.threads[t]).Some? && ConnOf(s.threads[t]).value < |s.heap|
  {
    s.(heap := if e.conn.Some? then s.heap[ConnOf(s.threads[t]).value := e.conn.value] else s.heap,
       routed := if e.routed then Inc64(s.routed) else s.routed,
       dropped := if e.dropped then Inc64(s.dropped) else s.dropped,
       threads := s.threads[t := e.pc])
  }

  function Next(s: Bus, t: nat, choice: Choice): Bus
    requires Enabled(s, t, choice)
  {
    if InTable(s.threads[t]) then TableNext(s, t, choice) else Apply(s, t, EffectOf(s, t, choice))
  }

  /** The state a schedule leads to from `n` idle threads, or None when it takes a step that is not enabled. */
  function Exec(n: nat, schedule: seq<Event>): Option<Bus> {
    if schedule == [] then Some(Init(n)) else
      var last := |schedule| - 1;
      var before := Exec(n, schedule[..last]);
      if before.Some? && Enabled(before.value, schedule[last].t, schedule[last].choice)
      then Some(Next(before.value, schedule[last].t, schedule[last].choice)) else None
  }

  /** Some schedule of some number of threads leads here. */
  ghost predicate Reachable(s: Bus) { exists n, schedule :: Exec(n, schedule) == Some(s) }

  // ---- the invariant ----

  ghost predicate LocksOk(s: Bus) {
    && (s.lock.Some? ==> s.lock.value < |s.threads|)
    && (forall u :: 0 <= u < |s.threads| ==> (HoldsBus(s.threads[u]) <==> s.lock == Some(u)))
    && (forall c :: 0 <= c < |s.heap| && s.heap[c].lock.Some? ==>
          s.heap[c].lock.value < |s.threads| && HoldsQ(s.threads[s.heap[c].lock.value]) == Some(c))
    && (forall u :: 0 <= u < |s.threads| && HoldsQ(s.threads[u]).Some? ==>
          HoldsQ(s.threads[u]).value < |s.heap| && s.heap[HoldsQ(s.threads[u]).value].lock == Some(u))
  }

  /** The table lists distinct connections, and every listed one is active: `disconnect` clears `active`
      only after it has taken the connection off the table. */
  ghost predicate TableOk(s: Bus) {
    && |s.conns| <= CONNS_MAX && Distinct(s.conns)
    && forall i :: 0 <= i < |s.conns| ==> s.conns[i] < |s.heap| && s.heap[s.conns[i]].active
  }

  /** The messages accepted, in order. */
  function AcceptedOf(a: seq<Attempt>): seq<Message> {
    if a == [] then [] else
      AcceptedOf(a[..|a| - 1]) + if a[|a| - 1].accepted then [a[|a| - 1].msg] else []
  }

  ghost predicate ConnOk(calls: seq<Message>, conn: Conn) {
    && (forall j, k :: 0 <= j < k < |conn.attempts| ==> conn.attempts[j].stamp < conn.attempts[k].stamp)
    && (forall k :: 0 <= k < |conn.attempts| ==>
          conn.attempts[k].stamp < |calls| && calls[conn.attempts[k].stamp] == conn.attempts[k].msg)
    && conn.popped + conn.queue == AcceptedOf(conn.attempts)
    && |conn.queue| <= QUEUE_MAX && |conn.subs| <= SUBS_MAX
  }

  ghost predicate HistoryOk(s: Bus) {
    forall c :: 0 <= c < |s.heap| ==> ConnOk(s.calls, s.heap[c])
  }

  ghost predicate LightOk(s: Bus, pc: PC) {
    && (ConnOf(pc).Some? ==> ConnOf(pc).value < |s.heap|)
    && (pc.Clearing? || pc.BusUnlockThenClear? ==> pc.c !in s.conns)
  }

  ghost predicate AllLightOk(s: Bus) {
    forall u :: 0 <= u < |s.threads| ==> LightOk(s, s.threads[u])
  }

  predicate Fresh(conn: Conn, stamp: nat) {
    conn.attempts == [] || conn.attempts[|conn.attempts| - 1].stamp < stamp
  }

  ghost predicate AllFresh(s: Bus, stamp: nat) {
    forall c :: 0 <= c < |s.heap| ==> Fresh(s.heap[c], stamp)
  }

  /** What call `stamp`, the latest one, did to a connection. */
  function OutcomeOf(conn: Conn, stamp: nat): Outcome {
    if conn.attempts == [] then Skipped else
      var last := conn.attempts[|conn.attempts| - 1];
      if last.stamp != stamp then Skipped else if last.accepted then Accepted else Dropped
  }

  function CountAccepted(os: seq<Outcome>): nat {
    if os == [] then 0 else
      CountAccepted(os[..|os| - 1]) + if os[|os| - 1].Accepted? then 1 else 0
  }

  ghost predicate CallOk(s: Bus, call: Call) {
    call.stamp + 1 == |s.calls| && s.calls[call.stamp] == call.msg
  }

  /** The fan-out so far: each connection already passed was treated as recorded, no other was touched. */
  ghost predicate FanOk(s: Bus, call: Call, f: Fan, done: bool) {
    && call.stamp in s.fanned && f.i <= |s.conns| && |f.outcomes| == f.i <= |f.hits| && f.delivered == CountAccepted(f.outcomes)
    && (forall j :: 0 <= j < f.i ==>
          && s.conns[j] < |s.heap|
          && OutcomeOf(s.heap[s.conns[j]], call.stamp) == f.outcomes[j]
          && (f.outcomes[j] != Skipped <==>
                DirectTo(call.msg, s.heap[s.conns[j]].id) || (IsBroadcast(call.msg) && f.hits[j])))
    && (forall j :: f.i <= j < |s.conns| && !(done && j == f.i) ==>
          s.conns[j] < |s.heap| && Fresh(s.heap[s.conns[j]], call.stamp))
    && (forall c :: 0 <= c < |s.heap| && c !in s.conns ==> Fresh(s.heap[c], call.stamp))
  }

  /** Of the shortest queues seen among the matching connections, the best is the first. */
  ghost predicate FirstShortest(se: Search)
    requires se.best.Some?
  {
    exists p :: 0 <= p < |se.seen| && se.seen[p] == Look(se.best.value, true, se.minQ) &&
      forall j :: 0 <= j < p && se.seen[j].matched ==> se.minQ < se.seen[j].count
  }

  /** The search so far: `minQ` is the shortest queue seen among the matching connections and `best` had it;
      since only holders of the bus lock push, the queue of `best` has not grown since. */
  ghost predicate SearchOk(s: Bus, se: Search) {
    && se.i <= |s.conns| && |se.seen| == se.i
    && (forall j :: 0 <= j < se.i ==> se.seen[j].c == s.conns[j] && se.seen[j].count <= QUEUE_MAX)
    && (forall j :: 0 <= j < se.i && se.seen[j].matched ==> se.best.Some? && se.minQ <= se.seen[j].count)
    && (se.best.None? ==> se.minQ == UINT32_MAX)
    && (se.best.Some? ==>
          && se.best.value < |s.heap| && |s.heap[se.best.value].queue| <= se.minQ <= QUEUE_MAX
          && FirstShortest(se))
  }

  /** None of the first `n` connections of the table is the addressee. */
  ghost predicate NoneAddressed(s: Bus, msg: Message, n: nat)
    requires n <= |s.conns|
  {
    forall j :: 0 <= j < n ==> s.conns[j] < |s.heap| && !DirectTo(msg, s.heap[s.conns[j]].id)
  }

  ghost predicate FromOk(s: Bus, call: Call, c: nat, from: Origin, done: bool) {
    && c < |s.heap|
    && match from
       case ByPublish(f) =>
         && FanOk(s, call, f, done) && f.i < |s.conns| && c == s.conns[f.i] && |f.hits| == f.i + 1
         && (DirectTo(call.msg, s.heap[c].id) || (IsBroadcast(call.msg) && f.hits[f.i]))
       case ByAddress(i) =>
         && (done || AllFresh(s, call.stamp))
         && i < |s.conns| && c == s.conns[i] && DirectTo(call.msg, s.heap[c].id) && NoneAddressed(s, call.msg, i)
       case ByTopic(se) =>
         done || (AllFresh(s, call.stamp) && SearchOk(s, se) && se.i == |s.conns| && se.best == Some(c))
  }

  /** What is known about the thread inside the bus lock. */
  ghost predicate HolderOk(s: Bus, pc: PC) {
    match pc
    case PubAt(call, f) => CallOk(s, call) && FanOk(s, call, f, false) && |f.hits| == f.i
    case PubWantScan(call, f, c) => ScanOk(s, call, f, c)
    case PubScan(call, f, c) => ScanOk(s, call, f, c)
    case PubScanned(call, f, c, _) => ScanOk(s, call, f, c)
    case RouteDirect(call, i) =>
      && CallOk(s, call) && AllFresh(s, call.stamp) && i <= |s.conns|
      && NoneAddressed(s, call.msg, i)
    case RouteAt(call, se) => RouteOk(s, call, se)
    case RouteWantScan(call, se, c) => RouteOk(s, call, se) && se.i < |s.conns| && c == s.conns[se.i]
    case RouteScan(call, se, c) => RouteOk(s, call, se) && se.i < |s.conns| && c == s.conns[se.i]
    case RouteScanned(call, se, c, look) =>
      && RouteOk(s, call, se) && se.i < |s.conns| && c == s.conns[se.i] == look.c
      && c < |s.heap| && |s.heap[c].queue| <= look.count <= QUEUE_MAX
    case WantPush(call, c, from) => CallOk(s, call) && FromOk(s, call, c, from, false)
    case Pushing(call, c, from) => CallOk(s, call) && FromOk(s, call, c, from, false)
    case Counting(call, c, from, ok) => PushedOk(s, call, c, from, ok)
    case PushUnlock(call, c, from, ok) => PushedOk(s, call, c, from, ok)
    case _ => true
  }

  ghost predicate ScanOk(s: Bus, call: Call, f: Fan, c: nat) {
    && CallOk(s, call) && FanOk(s, call, f, false) && f.i < |s.conns| && c == s.conns[f.i] && c < |s.heap|
    && |f.hits| == f.i
    && IsBroadcast(call.msg) && !DirectTo(call.msg, s.heap[c].id)
  }

  /** Route searches by topic only when the message is addressed to no connection of the table. */
  ghost predicate RouteOk(s: Bus, call: Call, se: Search) {
    && CallOk(s, call) && AllFresh(s, call.stamp) && SearchOk(s, se)
    && NoneAddressed(s, call.msg, |s.conns|)
  }

  ghost predicate PushedOk(s: Bus, call: Call, c: nat, from: Origin, ok: bool) {
    && CallOk(s, call) && FromOk(s, call, c, from, true)
    && OutcomeOf(s.heap[c], call.stamp) == (if ok then Accepted else Dropped)
  }

  ghost predicate OwnerOk(s: Bus) {
    s.lock.Some? && s.lock.value < |s.threads| ==> HolderOk(s, s.threads[s.lock.value])
  }

  // ---- counters ----

  function TotalAccepted(heap: seq<Conn>): nat {
    if heap == [] then 0 else
      TotalAccepted(heap[..|heap| - 1]) + |AcceptedOf(heap[|heap| - 1].attempts)|
  }

  function DroppedOf(a: seq<Attempt>): nat {
    if a == [] then 0 else DroppedOf(a[..|a| - 1]) + if a[|a| - 1].accepted then 0 else 1
  }

  function TotalDropped(heap: seq<Conn>): nat {
    if heap == [] then 0 else
      TotalDropped(heap[..|heap| - 1]) + DroppedOf(heap[|heap| - 1].attempts)
  }

  /** The push whose outcome is not yet in the counters, if some thread is just there. */
  predicate Uncounted(s: Bus, ok: bool) {
    && s.lock.Some? && s.lock.value < |s.threads|
    && s.threads[s.lock.value].Counting? && s.threads[s.lock.value].ok == ok
  }

  /** A counter, with the push that is still to be counted. */
  function Settled(counter: nat, pending: bool): nat { if pending then Inc64(counter) else counter }

  ghost predicate DropsOk(s: Bus, c: nat)
    requires c < |s.heap|
  {
    Settled(s.heap[c].drops, Uncounted(s, false) && s.threads[s.lock.value].c == c)
    == Low64(DroppedOf(s.heap[c].attempts))
  }

  ghost predicate CountersOk(s: Bus) {
    && Settled(s.routed, Uncounted(s, true)) == Low64(TotalAccepted(s.heap))
    && Settled(s.dropped, Uncounted(s, false)) == Low64(TotalDropped(s.heap))
    && forall c :: 0 <= c < |s.heap| ==> DropsOk(s, c)
  }

  ghost predicate Inv(s: Bus) {
    LocksOk(s) && TableOk(s) && HistoryOk(s) && AllLightOk(s) && OwnerOk(s) && CountersOk(s)
  }
}
