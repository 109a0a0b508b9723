/** Every step keeps the invariant. */
module BusInvariant {
  import opened Wrappers
  import opened BusTypes
  import opened BusProtocol

  /** Thread `t` moved on; no other thread did, and no connection went away. */
  ghost predicate OnlyMoved(s: Bus, s': Bus, t: nat) {
    && t < |s.threads| == |s'.threads| && |s.heap| <= |s'.heap|
    && forall u :: 0 <= u < |s.threads| && u != t ==> s'.threads[u] == s.threads[u]
  }

  // ---- what a step of the delivery code may change ----

  lemma EffectKeepsIdentity(pc: PC, conn: Conn, me: nat, choice: Choice)
    requires ConnOf(pc).Some? && !InTable(pc) && (pc.RecvWait? ==> choice.Wake?)
    ensures var e := ConnEffect(pc, conn, me, choice);
            e.conn.Some? ==> e.conn.value.id == conn.id && e.conn.value.active == conn.active
  {
  }

  /** Lock and lock-holder change together. */
  lemma EffectLocks(pc: PC, conn: Conn, me: nat, choice: Choice)
    requires ConnOf(pc).Some? && !InTable(pc) && (pc.RecvWait? ==> choice.Wake?)
    requires HoldsQ(pc).Some? ==> conn.lock == Some(me)
    requires WantsQ(pc).Some? ==> conn.lock.None?
    ensures var e := ConnEffect(pc, conn, me, choice);
            var lock := if e.conn.Some? then e.conn.value.lock else conn.lock;
            && HoldsBus(e.pc) == HoldsBus(pc)
            && HoldsQ(e.pc) == (if lock == Some(me) then ConnOf(pc) else None)
            && (lock.None? || lock == Some(me))
  {
  }

  /** Outside the table code a step changes neither the table, nor the calls, nor who a connection is. */
  ghost predicate SameTable(s: Bus, s': Bus) {
    && s'.conns == s.conns && s'.calls == s.calls && s'.fanned == s.fanned && s'.lock == s.lock && |s'.heap| == |s.heap|
    && s'.published == s.published
    && forall c :: 0 <= c < |s.heap| ==> s'.heap[c].id == s.heap[c].id && s'.heap[c].active == s.heap[c].active
  }

  lemma OtherCodeKeepsTable(s: Bus, t: nat, choice: Choice)
    requires Enabled(s, t, choice) && !InTable(s.threads[t])
    ensures SameTable(s, Next(s, t, choice))
    ensures OnlyMoved(s, Next(s, t, choice), t)
  {
    var pc := s.threads[t];
    if ConnOf(pc).Some? {
      EffectKeepsIdentity(pc, s.heap[ConnOf(pc).value], t, choice);
    }
  }

  // ---- locks ----

  /** The step leaves the queue locks alone and takes, frees or keeps the bus lock. */
  lemma BusLockKept(s: Bus, s': Bus, t: nat)
    requires LocksOk(s) && OnlyMoved(s, s', t)
    requires forall c :: 0 <= c < |s'.heap| ==> s'.heap[c].lock == if c < |s.heap| then s.heap[c].lock else None
    requires HoldsQ(s.threads[t]).None? && HoldsQ(s'.threads[t]).None?
    requires s'.lock == if HoldsBus(s.threads[t]) == HoldsBus(s'.threads[t]) then s.lock
                        else if HoldsBus(s'.threads[t]) then Some(t) else None
    requires HoldsBus(s'.threads[t]) && !HoldsBus(s.threads[t]) ==> s.lock.None?
    ensures LocksOk(s')
  {
  }

  lemma LocksStepTable(s: Bus, t: nat, choice: Choice)
    requires LocksOk(s) && Enabled(s, t, choice) && InTable(s.threads[t])
    ensures LocksOk(Next(s, t, choice))
  {
    hide LocksOk;
    var pc := s.threads[t];
    if pc.WantBus? {
      assert s.lock.None?;
      BusLockKept(s, Next(s, t, choice), t);
    } else if pc.BusUnlock? || pc.BusUnlockThenClear? {
      BusLockKept(s, Next(s, t, choice), t);
    } else if pc.Connecting? {
      LocksStepConnect(s, t, choice);
    } else {
      LocksStepTableIdle(s, t, choice);
    }
  }

  lemma LocksStepConnect(s: Bus, t: nat, choice: Choice)
    requires LocksOk(s) && Enabled(s, t, choice) && s.threads[t].Connecting?
    ensures LocksOk(Next(s, t, choice))
  {
    hide LocksOk;
    BusLockKept(s, Next(s, t, choice), t);
  }

  lemma LocksStepTableIdle(s: Bus, t: nat, choice: Choice)
    requires LocksOk(s) && Enabled(s, t, choice)
    requires var pc := s.threads[t]; pc.Idle? || pc.Disconnecting? || pc.Clearing? || pc.Broadcasting?
    ensures LocksOk(Next(s, t, choice))
  {
    hide LocksOk;
    BusLockKept(s, Next(s, t, choice), t);
  }

  /** The step takes the free queue lock of `c`, or frees the one it holds. */
  lemma QLockKept(s: Bus, s': Bus, t: nat, c: nat)
    requires LocksOk(s) && OnlyMoved(s, s', t) && |s.heap| == |s'.heap| && s'.lock == s.lock && c < |s.heap|
    requires HoldsBus(s'.threads[t]) == HoldsBus(s.threads[t])
    requires forall d :: 0 <= d < |s.heap| && d != c ==> s'.heap[d].lock == s.heap[d].lock
    requires || (s.heap[c].lock.None? && s'.heap[c].lock == Some(t)
                 && HoldsQ(s.threads[t]).None? && HoldsQ(s'.threads[t]) == Some(c))
             || (s'.heap[c].lock.None? && HoldsQ(s.threads[t]) == Some(c) && HoldsQ(s'.threads[t]).None?)
    ensures LocksOk(s')
  {
  }

  lemma NoLockMoved(s: Bus, s': Bus, t: nat)
    requires LocksOk(s) && OnlyMoved(s, s', t) && |s.heap| == |s'.heap| && s'.lock == s.lock
    requires HoldsBus(s'.threads[t]) == HoldsBus(s.threads[t]) && HoldsQ(s'.threads[t]) == HoldsQ(s.threads[t])
    requires forall d :: 0 <= d < |s.heap| ==> s'.heap[d].lock == s.heap[d].lock
    ensures LocksOk(s')
  {
  }

  lemma LocksStepConn(s: Bus, t: nat, choice: Choice, c: nat)
    requires LocksOk(s) && Enabled(s, t, choice) && !InTable(s.threads[t]) && ConnOf(s.threads[t]) == Some(c)
    ensures LocksOk(Next(s, t, choice))
  {
    hide ConnEffect;
    var s' := Next(s, t, choice);
    EffectLocks(s.threads[t], s.heap[c], t, choice);
    if s'.heap[c].lock != s.heap[c].lock { QLockKept(s, s', t, c); } else { NoLockMoved(s, s', t); }
  }

  /** The loops over the table keep the bus lock and touch no queue lock. */
  lemma LoopStepLocksNothing(s: Bus, t: nat, choice: Choice)
    requires Enabled(s, t, choice) && !InTable(s.threads[t]) && ConnOf(s.threads[t]).None?
    ensures var s' := Next(s, t, choice);
            && OnlyMoved(s, s', t) && s'.heap == s.heap && s'.lock == s.lock
            && HoldsBus(s'.threads[t]) == HoldsBus(s.threads[t]) && HoldsQ(s'.threads[t]) == HoldsQ(s.threads[t])
  {
    hide ConnEffect;
  }

  lemma LocksStepOther(s: Bus, t: nat, choice: Choice)
    requires LocksOk(s) && Enabled(s, t, choice) && !InTable(s.threads[t])
    ensures LocksOk(Next(s, t, choice))
  {
    if ConnOf(s.threads[t]).Some? {
      LocksStepConn(s, t, choice, ConnOf(s.threads[t]).value);
    } else {
      hide LocksOk;
      LoopStepLocksNothing(s, t, choice);
      NoLockMoved(s, Next(s, t, choice), t);
    }
  }

  lemma LocksStep(s: Bus, t: nat, choice: Choice)
    requires LocksOk(s) && Enabled(s, t, choice)
    ensures LocksOk(Next(s, t, choice))
  {
    if InTable(s.threads[t]) { LocksStepTable(s, t, choice); } else { LocksStepOther(s, t, choice); }
  }

  // ---- the table and what program counters name ----

  lemma TableStep(s: Bus, t: nat, choice: Choice)
    requires TableOk(s) && AllLightOk(s) && Enabled(s, t, choice)
    ensures TableOk(Next(s, t, choice))
  {
    if InTable(s.threads[t]) {
      assert LightOk(s, s.threads[t]);
      if s.threads[t].Disconnecting? {
        SwapRemoveDistinct(s.conns, s.threads[t].c);
        TableAfterRemove(s, t, choice);
      }
    } else {
      OtherCodeKeepsTable(s, t, choice);
    }
  }

  lemma TableAfterRemove(s: Bus, t: nat, choice: Choice)
    requires TableOk(s) && Enabled(s, t, choice) && s.threads[t].Disconnecting?
    ensures TableOk(Next(s, t, choice))
  {
    var s' := Next(s, t, choice);
    SwapRemoveDistinct(s.conns, s.threads[t].c);
    forall i | 0 <= i < |s'.conns| ensures s'.conns[i] < |s'.heap| && s'.heap[s'.conns[i]].active {
      assert s'.conns[i] in s'.conns;
    }
  }

  lemma LightStepTable(s: Bus, t: nat, choice: Choice)
    requires TableOk(s) && AllLightOk(s) && Enabled(s, t, choice) && InTable(s.threads[t])
    ensures AllLightOk(Next(s, t, choice))
  {
    var s' := Next(s, t, choice);
    assert |s'.threads| == |s.threads|;
    forall u | 0 <= u < |s'.threads| ensures LightOk(s', s'.threads[u]) {
      assert LightOk(s, s.threads[u]);
      if u == t { LightAtTable(s, t, choice); } else { LightBeside(s, t, choice, u); }
    }
  }

  lemma LightAtTable(s: Bus, t: nat, choice: Choice)
    requires TableOk(s) && Enabled(s, t, choice) && InTable(s.threads[t]) && LightOk(s, s.threads[t])
    ensures t < |Next(s, t, choice).threads| && LightOk(Next(s, t, choice), Next(s, t, choice).threads[t])
  {
    if s.threads[t].Disconnecting? { SwapRemoveDistinct(s.conns, s.threads[t].c); }
  }

  lemma LightBeside(s: Bus, t: nat, choice: Choice, u: nat)
    requires TableOk(s) && Enabled(s, t, choice) && InTable(s.threads[t]) && u < |s.threads| && u != t
    requires LightOk(s, s.threads[u])
    ensures u < |Next(s, t, choice).threads| && LightOk(Next(s, t, choice), Next(s, t, choice).threads[u])
  {
    if s.threads[t].Disconnecting? { SwapRemoveDistinct(s.conns, s.threads[t].c); }
  }

  /** A step of the delivery code goes on naming the same connection, one of the table, or the best one found. */
  lemma EffectStaysNamed(s: Bus, t: nat, choice: Choice)
    requires TableOk(s) && Enabled(s, t, choice) && !InTable(s.threads[t]) && HolderOk(s, s.threads[t])
    ensures LightOk(s, EffectOf(s, t, choice).pc)
  {
    var pc := s.threads[t];
    if pc.PubAt? || pc.RouteDirect? || pc.RouteAt? {
    } else {
      EffectNames(pc, s.heap[ConnOf(pc).value], t, choice);
    }
  }

  lemma EffectNames(pc: PC, conn: Conn, me: nat, choice: Choice)
    requires ConnOf(pc).Some? && !InTable(pc) && (pc.RecvWait? ==> choice.Wake?)
    ensures var pc' := ConnEffect(pc, conn, me, choice).pc;
            && (ConnOf(pc').None? || ConnOf(pc') == ConnOf(pc)) && !pc'.Clearing? && !pc'.BusUnlockThenClear?
  {
  }

  lemma LightStep(s: Bus, t: nat, choice: Choice)
    requires TableOk(s) && AllLightOk(s) && Enabled(s, t, choice) && HolderOk(s, s.threads[t])
    ensures AllLightOk(Next(s, t, choice))
  {
    if InTable(s.threads[t]) {
      LightStepTable(s, t, choice);
    } else {
      var s' := Next(s, t, choice);
      OtherCodeKeepsTable(s, t, choice);
      EffectStaysNamed(s, t, choice);
      forall u | 0 <= u < |s'.threads| ensures LightOk(s', s'.threads[u]) {
        assert u != t ==> LightOk(s, s.threads[u]);
      }
    }
  }

  // ---- histories ----

  lemma AcceptedOfSnoc(a: seq<Attempt>, x: Attempt)
    ensures AcceptedOf(a + [x]) == AcceptedOf(a) + if x.accepted then [x.msg] else []
    ensures DroppedOf(a + [x]) == DroppedOf(a) + if x.accepted then 0 else 1
  {
    assert (a + [x])[..|a|] == a;
  }

  /** The connection after the push of `PushEffect`. */
  function AfterAttempt(conn: Conn, call: Call): Conn {
    var (queue, ok) := Pushed(conn.queue, call.msg);
    conn.(queue := queue, attempts := conn.attempts + [Attempt(call.stamp, call.msg, ok)])
  }

  lemma PushKeepsConn(calls: seq<Message>, conn: Conn, call: Call)
    requires ConnOk(calls, conn) && Fresh(conn, call.stamp)
    requires call.stamp < |calls| && calls[call.stamp] == call.msg
    ensures ConnOk(calls, AfterAttempt(conn, call))
  {
    var conn' := AfterAttempt(conn, call);
    AcceptedOfSnoc(conn.attempts, Attempt(call.stamp, call.msg, Pushed(conn.queue, call.msg).1));
    assert conn'.popped + conn'.queue == AcceptedOf(conn'.attempts) by {
      assert conn.popped + (conn.queue + [call.msg]) == conn.popped + conn.queue + [call.msg];
    }
  }

  lemma PopKeepsConn(calls: seq<Message>, conn: Conn)
    requires ConnOk(calls, conn) && conn.queue != []
    ensures ConnOk(calls, conn.(queue := conn.queue[1..], popped := conn.popped + [conn.queue[0]]))
  {
    assert conn.popped + [conn.queue[0]] + conn.queue[1..] == conn.popped + conn.queue;
  }

  lemma MoreCallsKeepConn(calls: seq<Message>, m: Message, conn: Conn)
    requires ConnOk(calls, conn)
    ensures ConnOk(calls + [m], conn)
  {
  }

  lemma HistoryStepTable(s: Bus, t: nat, choice: Choice)
    requires HistoryOk(s) && Enabled(s, t, choice) && InTable(s.threads[t])
    ensures HistoryOk(Next(s, t, choice))
  {
    var s' := Next(s, t, choice);
    forall c | 0 <= c < |s'.heap| ensures ConnOk(s'.calls, s'.heap[c]) {
      if c < |s.heap| {
        assert ConnOk(s.calls, s.heap[c]);
        if s'.calls != s.calls { MoreCallsKeepConn(s.calls, s.threads[t].req.msg, s.heap[c]); }
      }
    }
  }

  lemma TargetIsFresh(s: Bus, call: Call, c: nat, from: Origin)
    requires FromOk(s, call, c, from, false)
    ensures Fresh(s.heap[c], call.stamp)
  {
  }

  ghost predicate SameHistory(a: Conn, b: Conn) {
    a.attempts == b.attempts && a.popped == b.popped && a.queue == b.queue && a.subs == b.subs
  }

  lemma EffectKeepsHistory(pc: PC, conn: Conn, me: nat, choice: Choice)
    requires ConnOf(pc).Some? && !InTable(pc) && (pc.RecvWait? ==> choice.Wake?)
    requires !pc.Pushing? && !pc.RecvPop? && !pc.SubBody?
    ensures var e := ConnEffect(pc, conn, me, choice); e.conn.Some? ==> SameHistory(e.conn.value, conn)
  {
  }

  lemma SwapRemoveLength<T>(s: seq<T>, x: T)
    ensures |SwapRemove(s, x)| <= |s|
  {
  }

  lemma ConnStays(calls: seq<Message>, pc: PC, conn: Conn, me: nat, choice: Choice)
    requires ConnOk(calls, conn)
    requires ConnOf(pc).Some? && !InTable(pc) && (pc.RecvWait? ==> choice.Wake?)
    requires pc.Pushing? ==>
               Fresh(conn, pc.call.stamp) && pc.call.stamp < |calls| && calls[pc.call.stamp] == pc.call.msg
    ensures var e := ConnEffect(pc, conn, me, choice); e.conn.Some? ==> ConnOk(calls, e.conn.value)
  {
    if pc.Pushing? {
      PushKeepsConn(calls, conn, pc.call);
    } else if pc.RecvPop? {
      if conn.queue != [] { PopKeepsConn(calls, conn); }
    } else if pc.SubBody? {
      SwapRemoveLength(conn.subs, pc.topic);
    } else {
      EffectKeepsHistory(pc, conn, me, choice);
    }
  }

  /** A step outside the table code changes the history of at most the connection it names. */
  lemma EffectKeepsConn(s: Bus, t: nat, choice: Choice)
    requires HistoryOk(s) && Enabled(s, t, choice) && !InTable(s.threads[t]) && HolderOk(s, s.threads[t])
    ensures EffectOf(s, t, choice).conn.Some? ==> ConnOk(s.calls, EffectOf(s, t, choice).conn.value)
  {
    var pc := s.threads[t];
    if ConnOf(pc).Some? {
      var conn := s.heap[ConnOf(pc).value];
      assert ConnOk(s.calls, conn);
      PushIsNew(s, pc);
      hide ConnEffect, ConnOk, HolderOk, Fresh;
      ConnStays(s.calls, pc, conn, t, choice);
    }
  }

  lemma PushIsNew(s: Bus, pc: PC)
    requires HolderOk(s, pc)
    ensures pc.Pushing? ==>
              && pc.c < |s.heap| && Fresh(s.heap[pc.c], pc.call.stamp)
              && pc.call.stamp < |s.calls| && s.calls[pc.call.stamp] == pc.call.msg
  {
    if pc.Pushing? { TargetIsFresh(s, pc.call, pc.c, pc.from); }
  }

  lemma HistoryStep(s: Bus, t: nat, choice: Choice)
    requires HistoryOk(s) && Enabled(s, t, choice) && HolderOk(s, s.threads[t])
    ensures HistoryOk(Next(s, t, choice))
  {
    if InTable(s.threads[t]) {
      HistoryStepTable(s, t, choice);
    } else {
      EffectKeepsConn(s, t, choice);
      OtherCodeKeepsTable(s, t, choice);
    }
  }
}
