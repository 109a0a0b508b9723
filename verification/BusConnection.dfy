/** The mutable records of the bus: one connection with its ring buffer and subscription slots,
    and the bus's own table of connections. */
module BusConnection {
  import opened Wrappers
  import opened BusTypes

  datatype QueueEntry = QueueEntry(msg: Message, used: bool)
  datatype Subscription = Subscription(topic: string, active: bool)

  const NO_MESSAGE := Message("", "", "", "", 0, "")

  function Topics(w: seq<Subscription>): (r: seq<string>)
    ensures |r| == |w| && forall k :: 0 <= k < |w| ==> r[k] == w[k].topic
  {
    seq(|w|, k requires 0 <= k < |w| => w[k].topic)
  }

  /** The slot `k` places after `head`. */
  function Slot(head: nat, k: nat): (r: nat)
    requires head < QUEUE_MAX && k <= QUEUE_MAX
    ensures r < QUEUE_MAX
  {
    if head + k >= QUEUE_MAX then head + k - QUEUE_MAX else head + k
  }

  method NextSlot(i: nat) returns (r: nat)
    requires i < QUEUE_MAX
    ensures r == Slot(i, 1)
  {
    r := (i + 1) % QUEUE_MAX;
  }

  /** Slot `k` lies in the window of `count` slots from `head`. */
  predicate Live(k: nat, head: nat, count: nat)
    requires head < QUEUE_MAX && k < QUEUE_MAX && count <= QUEUE_MAX
  {
    head <= k < head + count || k < head + count - QUEUE_MAX
  }

  // ---- the ring as a value: slots, head and count ----

  /** `used` marks exactly the live window. */
  ghost predicate RingOk(q: seq<QueueEntry>, head: nat, count: nat) {
    && |q| == QUEUE_MAX && head < QUEUE_MAX && count <= QUEUE_MAX
    && forall k :: 0 <= k < QUEUE_MAX ==> (q[k].used <==> Live(k, head, count))
  }

  /** The queued messages, oldest first. */
  ghost function Window(q: seq<QueueEntry>, head: nat, count: nat): (s: seq<Message>)
    requires |q| == QUEUE_MAX && head < QUEUE_MAX && count <= QUEUE_MAX
    ensures |s| == count
    ensures forall k :: 0 <= k < count ==> s[k] == q[Slot(head, k)].msg
  {
    seq(count, k requires 0 <= k < count => q[Slot(head, k)].msg)
  }

  lemma RingPushMarks(q: seq<QueueEntry>, head: nat, count: nat, m: Message)
    requires RingOk(q, head, count) && count < QUEUE_MAX
    ensures RingOk(q[Slot(head, count) := QueueEntry(m, true)], head, count + 1)
    ensures Slot(Slot(head, count), 1) == Slot(head, count + 1)
  {
  }

  lemma RingPush(q: seq<QueueEntry>, head: nat, count: nat, m: Message)
    requires RingOk(q, head, count) && count < QUEUE_MAX
    ensures var q' := q[Slot(head, count) := QueueEntry(m, true)];
            && RingOk(q', head, count + 1)
            && Slot(Slot(head, count), 1) == Slot(head, count + 1)
            && Window(q', head, count + 1) == Window(q, head, count) + [m]
  {
    RingPushMarks(q, head, count, m);
    var q' := q[Slot(head, count) := QueueEntry(m, true)];
    var w, w' := Window(q, head, count), Window(q', head, count + 1);
    assert w'[count] == m;
    forall k | 0 <= k < count ensures w'[k] == w[k] {
      assert Slot(head, k) != Slot(head, count);
    }
    assert w' == w + [m];
  }

  lemma RingPopMarks(q: seq<QueueEntry>, head: nat, count: nat)
    requires RingOk(q, head, count) && count > 0
    ensures RingOk(q[head := q[head].(used := false)], Slot(head, 1), count - 1)
    ensures Slot(Slot(head, 1), count - 1) == Slot(head, count)
  {
  }

  lemma RingPop(q: seq<QueueEntry>, head: nat, count: nat)
    requires RingOk(q, head, count) && count > 0
    ensures var q' := q[head := q[head].(used := false)];
            && RingOk(q', Slot(head, 1), count - 1)
            && Slot(Slot(head, 1), count - 1) == Slot(head, count)
            && [q[head].msg] + Window(q', Slot(head, 1), count - 1) == Window(q, head, count)
  {
    RingPopMarks(q, head, count);
    assert Slot(head, 0) == head;
    var q', next := q[head := q[head].(used := false)], Slot(head, 1);
    var w, w' := Window(q, head, count), Window(q', next, count - 1);
    forall k | 0 <= k < count - 1 ensures w'[k] == w[1..][k] {
      assert Slot(next, k) == Slot(head, k + 1) != head;
    }
    assert w' == w[1..];
  }

  class Connection {
    const id: string
    var active: bool
    const queue: array<QueueEntry>
    var qHead: nat
    var qTail: nat
    var qCount: nat
    const subs: array<Subscription>
    var subCount: nat

    ghost predicate Valid()
      reads this, queue, subs
    {
      && RingOk(queue[..], qHead, qCount) && qTail == Slot(qHead, qCount)
      && subs.Length == SUBS_MAX && subCount <= SUBS_MAX
      && forall i :: 0 <= i < subCount ==> subs[i].active
    }

    ghost function Contents(): (s: seq<Message>)
      requires Valid()
      reads this, queue, subs
      ensures |s| == qCount
    {
      Window(queue[..], qHead, qCount)
    }

    ghost function SubTopics(): (s: seq<string>)
      requires Valid()
      reads this, queue, subs
      ensures |s| == subCount
    {
      Topics(subs[..subCount])
    }

    constructor (id: string)
      ensures Valid() && Contents() == [] && SubTopics() == []
      ensures this.id == StoredId(id) == (if |id| <= 63 then id else id[..63]) && active
      ensures fresh(queue) && fresh(subs)
    {
      this.id := StoredId(id);
      active := true;
      queue := new QueueEntry[QUEUE_MAX](_ => QueueEntry(NO_MESSAGE, false));
      subs := new Subscription[SUBS_MAX](_ => Subscription("", false));
      qHead, qTail, qCount, subCount := 0, 0, 0, 0;
    }

    method QPush(m: Message) returns (ok: bool)
      requires Valid()
      modifies this`qTail, this`qCount, queue
      ensures Valid()
      ensures (Contents(), ok) == Pushed(old(Contents()), m)
      ensures ok <==> |old(Contents())| < 256
      ensures Contents() == if ok then old(Contents()) + [m] else old(Contents())
      ensures SubTopics() == old(SubTopics())
    {
      if qCount >= QUEUE_MAX { return false; }
      RingPush(queue[..], qHead, qCount, m);
      ghost var q := queue[..];
      queue[qTail] := QueueEntry(m, true);
      assert queue[..] == q[qTail := QueueEntry(m, true)];
      qTail := NextSlot(qTail);
      qCount := qCount + 1;
      return true;
    }

    method QPop() returns (out: Option<Message>)
      requires Valid()
      modifies this`qHead, this`qCount, queue
      ensures Valid()
      ensures old(Contents()) == [] ==> out.None? && Contents() == []
      ensures old(Contents()) != [] ==> out.Some? && [out.value] + Contents() == old(Contents())
      ensures SubTopics() == old(SubTopics())
    {
      if qCount == 0 { return None; }
      RingPop(queue[..], qHead, qCount);
      ghost var q := queue[..];
      out := Some(queue[qHead].msg);
      queue[qHead] := queue[qHead].(used := false);
      assert queue[..] == q[qHead := q[qHead].(used := false)];
      qHead := NextSlot(qHead);
      qCount := qCount - 1;
    }

    method Subscribe(topic: string) returns (rc: int)
      requires Valid()
      modifies this`subCount, subs
      ensures Valid()
      ensures (SubTopics(), rc) == Subscribed(old(SubTopics()), topic)
      ensures |old(SubTopics())| >= 64 ==> rc == -1 && SubTopics() == old(SubTopics())
      ensures |old(SubTopics())| < 64 && topic in old(SubTopics()) ==> rc == 0 && SubTopics() == old(SubTopics())
      ensures |old(SubTopics())| < 64 && topic !in old(SubTopics()) ==>
                rc == 0 && SubTopics() == old(SubTopics()) + [if |topic| <= 127 then topic else topic[..127]]
      ensures Contents() == old(Contents())
    {
      if subCount >= SUBS_MAX { return -1; }
      for i := 0 to subCount
        invariant Valid() && SubTopics() == old(SubTopics())
        invariant topic !in SubTopics()[..i]
      {
        if subs[i].active && subs[i].topic == topic {
          assert SubTopics()[i] == topic;
          return 0;
        }
      }
      assert SubTopics()[..subCount] == SubTopics();
      subs[subCount] := Subscription(Stored(topic), true);
      subCount := subCount + 1;
      assert SubTopics() == old(SubTopics()) + [Stored(topic)];
      return 0;
    }

    method Unsubscribe(topic: string)
      requires Valid()
      modifies this`subCount, subs
      ensures Valid()
      ensures SubTopics() == SwapRemove(old(SubTopics()), topic)
      ensures topic !in old(SubTopics()) ==> SubTopics() == old(SubTopics())
      ensures forall i :: 0 <= i < |old(SubTopics())| && old(SubTopics())[i] == topic && topic !in old(SubTopics())[..i] ==>
                Compacted(old(SubTopics()), i, SubTopics())
      ensures Contents() == old(Contents())
    {
      ghost var before := SubTopics();
      SwapRemoveCompacts(before, topic);
      for i := 0 to subCount
        invariant Valid() && SubTopics() == before && subCount == old(subCount)
        invariant topic !in before[..i]
      {
        if subs[i].active && subs[i].topic == topic {
          assert before[i] == topic;
          IndexOfFirst(before, topic, i);
          subs[i] := subs[i].(active := false);
          subCount := subCount - 1;
          subs[i] := subs[subCount];
          assert SubTopics() == SwapRemove(before, topic);
          return;
        }
      }
      assert before[..subCount] == before;
      assert IndexOf(before, topic) == |before|;
    }

    /** The subscription scan that `publish` and `route` run under the queue lock. */
    method HasMatch(topic: string) returns (hit: bool)
      requires Valid()
      ensures hit <==> AnyMatch(SubTopics(), topic)
    {
      hit := false;
      var s := 0;
      while s < subCount && !hit
        invariant s <= subCount
        invariant hit <==> exists i :: 0 <= i < s && TopicMatches(SubTopics()[i], topic)
      {
        if subs[s].active && TopicMatches(subs[s].topic, topic) {
          assert TopicMatches(SubTopics()[s], topic);
          hit := true;
        }
        s := s + 1;
      }
    }
  }

  /** `bus->conns[0..conn_count]`; connections are named by the order they were created in. */
  class ConnTable {
    const conns: array<nat>
    var connCount: nat

    ghost predicate Valid()
      reads this, conns
    {
      conns.Length == CONNS_MAX && connCount <= CONNS_MAX
    }

    ghost function Contents(): seq<nat>
      requires Valid()
      reads this, conns
    {
      conns[..connCount]
    }

    constructor ()
      ensures Valid() && Contents() == [] && fresh(conns)
    {
      conns := new nat[CONNS_MAX](_ => 0);
      connCount := 0;
    }

    method Connect(c: nat) returns (rc: int)
      requires Valid()
      modifies this`connCount, conns
      ensures Valid()
      ensures |old(Contents())| < 256 ==> rc == 0 && Contents() == old(Contents()) + [c]
      ensures |old(Contents())| >= 256 ==> rc == -1 && Contents() == old(Contents())
    {
      if connCount >= CONNS_MAX { return -1; }
      conns[connCount] := c;
      connCount := connCount + 1;
      return 0;
    }

    method Disconnect(c: nat)
      requires Valid()
      modifies this`connCount, conns
      ensures Valid()
      ensures Contents() == SwapRemove(old(Contents()), c)
      ensures c !in old(Contents()) ==> Contents() == old(Contents())
      ensures forall i :: 0 <= i < |old(Contents())| && old(Contents())[i] == c && c !in old(Contents())[..i] ==>
                Compacted(old(Contents()), i, Contents())
    {
      ghost var before := Contents();
      SwapRemoveCompacts(before, c);
      for i := 0 to connCount
        invariant Valid() && Contents() == before && connCount == old(connCount)
        invariant c !in before[..i]
      {
        if conns[i] == c {
          IndexOfFirst(before, c, i);
          connCount := connCount - 1;
          conns[i] := conns[connCount];
          return;
        }
      }
      assert before[..connCount] == before;
    }
  }
}
