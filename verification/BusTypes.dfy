/** Messages, limits and the pure decisions of the message bus (`reasoning/hyperkitty_bus.c`). */
module BusTypes {
  import opened Basics

  const QUEUE_MAX: nat := 256
  const SUBS_MAX: nat := 64
  const TOPIC_LEN: nat := 128
  const CONNS_MAX: nat := 256
  const ID_LEN: nat := 64
  const UINT32_MAX: nat := 0xFFFF_FFFF

  /** A wire message. Text fields are C strings without their terminator. */
  datatype Message = Message(kind: string, from: string, to: string, topic: string, corr: nat, body: string)

  // ---- topics ----

  function TopicMatches(pattern: string, topic: string): bool {
    if pattern == "*" then true
    else if |pattern| > 0 && pattern[|pattern| - 1] == '*' then pattern[..|pattern| - 1] <= topic
    else pattern == topic
  }

  /** What the three branches amount to: equality, or a prefix followed by one trailing star. */
  lemma TopicMatchesMeaning(pattern: string, topic: string)
    ensures TopicMatches(pattern, topic) <==>
            pattern == topic || exists prefix: string :: pattern == prefix + "*" && prefix <= topic
  {
    if |pattern| > 0 && pattern[|pattern| - 1] == '*' {
      var prefix := pattern[..|pattern| - 1];
      assert pattern == prefix + "*";
      assert forall q: string :: pattern == q + "*" ==> q == prefix by {
        forall q: string | pattern == q + "*" ensures q == prefix {
          assert (q + "*")[..|q|] == q;
        }
      }
    }
  }

  // ---- swap-compacted lists: `a[i] = a[--n]` ----

  /** The first index holding `x`, or the length when there is none. */
  function IndexOf<T(==)>(s: seq<T>, x: T): (i: nat)
    ensures i <= |s|
    ensures i < |s| ==> s[i] == x
    ensures x !in s[..i]
  {
    if s == [] then 0 else if s[0] == x then 0 else
      var i := IndexOf(s[1..], x);
      assert s[..i + 1] == [s[0]] + s[1..][..i];
      i + 1
  }

  function SwapRemove<T(==)>(s: seq<T>, x: T): seq<T> {
    var i := IndexOf(s, x);
    if i == |s| then s else s[i := s[|s| - 1]][..|s| - 1]
  }

  lemma {:induction false} IndexOfFirst<T>(s: seq<T>, x: T, i: nat)
    requires i < |s| && s[i] == x && x !in s[..i]
    ensures IndexOf(s, x) == i
  {
    if i > 0 {
      assert s[0] == s[..i][0];
      assert s[1..][..i - 1] == s[..i][1..];
      IndexOfFirst(s[1..], x, i - 1);
    }
  }

  /** Place `i` of `s` is taken out and the last entry moved into it. */
  ghost predicate Compacted<T>(s: seq<T>, i: nat, r: seq<T>)
    requires i < |s|
  {
    && |r| == |s| - 1
    && forall k :: 0 <= k < |r| ==> r[k] == if k == i then s[|s| - 1] else s[k]
  }

  /** Of a list with the entry its first place is compacted; any other list stays as it is. */
  lemma SwapRemoveCompacts<T>(s: seq<T>, x: T)
    ensures x !in s ==> SwapRemove(s, x) == s
    ensures forall i :: 0 <= i < |s| && s[i] == x && x !in s[..i] ==> Compacted(s, i, SwapRemove(s, x))
  {
    if x in s {
      forall i | 0 <= i < |s| && s[i] == x && x !in s[..i] ensures IndexOf(s, x) == i { IndexOfFirst(s, x, i); }
    } else {
      assert IndexOf(s, x) == |s|;
    }
  }

  lemma SwapRemoveShape<T>(s: seq<T>, x: T) returns (before: seq<T>, after: seq<T>)
    requires x in s
    ensures s == before + [x] + after
    ensures after == [] ==> SwapRemove(s, x) == before
    ensures after != [] ==> SwapRemove(s, x) == before + [after[|after| - 1]] + after[..|after| - 1]
  {
    var i := IndexOf(s, x);
    assert s[..|s|] == s;
    before, after := s[..i], s[i + 1..];
  }

  lemma MoveLast<T>(before: seq<T>, x: T, mid: seq<T>, b: T)
    ensures multiset(before + [b] + mid) == multiset(before + [x] + (mid + [b])) - multiset{x}
  {
    ghost var rest := multiset(before) + multiset(mid) + multiset{b};
    assert multiset(before + [x] + (mid + [b])) == rest + multiset{x};
  }

  /** Compaction takes away one copy of `x` and nothing else, whatever order it leaves behind. */
  lemma SwapRemoveTakesOne<T>(s: seq<T>, x: T)
    ensures multiset(SwapRemove(s, x)) == multiset(s) - multiset{x}
  {
    if x !in s {
      assert IndexOf(s, x) == |s|;
    } else {
      var before, after := SwapRemoveShape(s, x);
      if after != [] {
        var last := |after| - 1;
        assert after == after[..last] + [after[last]];
        MoveLast(before, x, after[..last], after[last]);
      }
    }
  }

  lemma SwapRemoveDistinct<T>(s: seq<T>, x: T)
    requires Distinct(s)
    ensures Distinct(SwapRemove(s, x))
    ensures forall y :: y in SwapRemove(s, x) <==> y in s && y != x
  {
    var i := IndexOf(s, x);
    var r := SwapRemove(s, x);
    if i == |s| {
      assert s == s[..i];
    } else {
      var last := |s| - 1;
      forall y | y in s && y != x ensures y in r {
        var k :| 0 <= k < |s| && s[k] == y;
        assert if k == last then r[i] == y else r[k] == y;
      }
    }
  }

  // ---- subscriptions ----

  /** A topic as `strncpy` leaves it in its 128-byte slot. */
  function Stored(topic: string): string {
    if |topic| < TOPIC_LEN then topic else topic[..TOPIC_LEN - 1]
  }

  /** `hk_bus_subscribe` on the live topics: the new list and the return code. */
  function Subscribed(subs: seq<string>, topic: string): (seq<string>, int) {
    if |subs| >= SUBS_MAX then (subs, -1)
    else if topic in subs then (subs, 0)
    else (subs + [Stored(topic)], 0)
  }

  /** The duplicate check keeps the list free of repeats exactly when no topic was cut on storing. */
  lemma SubscribeKeepsDistinct(subs: seq<string>, topic: string)
    requires Distinct(subs)
    ensures Distinct(Subscribed(subs, topic).0) <==>
            |subs| >= SUBS_MAX || |topic| < TOPIC_LEN || topic in subs || Stored(topic) !in subs
  {
    var r := Subscribed(subs, topic).0;
    if |subs| < SUBS_MAX && topic !in subs {
      if Stored(topic) in subs {
        var k :| 0 <= k < |subs| && subs[k] == Stored(topic);
        assert r[k] == r[|subs|];
      }
    }
  }

  /** Unsubscribing what was just newly subscribed gives the same topics back; a cut topic stays behind. */
  lemma UnsubscribeUndoesSubscribe(subs: seq<string>, topic: string)
    requires |subs| < SUBS_MAX && topic !in subs
    ensures multiset(SwapRemove(Subscribed(subs, topic).0, topic)) == multiset(subs) <==> |topic| < TOPIC_LEN
  {
    var r := Subscribed(subs, topic).0;
    SwapRemoveTakesOne(r, topic);
    assert multiset(r) == multiset(subs) + multiset{Stored(topic)};
    if |topic| >= TOPIC_LEN {
      assert multiset(r)[topic] == 0;
      assert multiset(r) - multiset{topic} == multiset(r);
      assert |multiset(r)| == |multiset(subs)| + 1;
    }
  }

  /** An identifier as `strncpy` leaves it in its 64-byte field. */
  function StoredId(id: string): string {
    if |id| < ID_LEN then id else id[..ID_LEN - 1]
  }

  predicate AnyMatch(subs: seq<string>, topic: string) {
    exists i :: 0 <= i < |subs| && TopicMatches(subs[i], topic)
  }

  predicate DirectTo(msg: Message, id: string) { msg.to != "" && msg.to == id }

  predicate IsBroadcast(msg: Message) { msg.to == "" || msg.to == "*" }

  // ---- bounded queue ----

  function Pushed(queue: seq<Message>, m: Message): (seq<Message>, bool) {
    if |queue| >= QUEUE_MAX then (queue, false) else (queue + [m], true)
  }
}
