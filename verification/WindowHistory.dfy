/** What the pruned index holds after any, possibly out-of-order, history of deliveries, and how its
    answer compares with a filter over the whole history. */
module WindowHistory {
  import opened Domain
  import opened RedisWindow

  /** The keyspace after complete calls for every message of `h`, in order of arrival. */
  function ApplyAll(c: WindowConfig, h: seq<Message>): Redis {
    if h == [] then EMPTY else Apply(ApplyAll(c, h[..|h| - 1]), c, h[|h| - 1])
  }

  /** `m` passed the lateness gate and belongs to `u`. */
  predicate Touches(c: WindowConfig, m: Message, u: string) {
    m.userId == u && !IsTooLate(c, m)
  }

  /** The last position at which `id` was recorded for `u`, or -1. */
  function Last(c: WindowConfig, h: seq<Message>, u: string, id: string): (i: int)
    ensures -1 <= i < |h|
    ensures i >= 0 ==> Touches(c, h[i], u) && h[i].eventId == id
    ensures forall k :: i < k < |h| && Touches(c, h[k], u) ==> h[k].eventId != id
  {
    if h == [] then -1
    else if Touches(c, h[|h| - 1], u) && h[|h| - 1].eventId == id then |h| - 1
    else Last(c, h[..|h| - 1], u, id)
  }

  predicate Prunes(c: WindowConfig, m: Message, score: int) {
    0 <= score < WindowStart(c, m)
  }

  /** No delivery for `u` at or after `i` evicts that score. */
  ghost predicate Spared(c: WindowConfig, h: seq<Message>, u: string, i: nat, score: int) {
    forall j :: i <= j < |h| && Touches(c, h[j], u) ==> !Prunes(c, h[j], score)
  }

  function MembersOf(c: WindowConfig, h: seq<Message>, u: string): map<string, int> {
    Members(ApplyAll(c, h), UserEventsKey(c.namespace, u))
  }

  lemma WindowStartBeforeScore(c: WindowConfig, m: Message)
    requires c.window >= 0
    ensures WindowStart(c, m) <= Score(m)
  {
  }

  /** One complete call in closed form. */
  lemma ApplyMembers(r: Redis, c: WindowConfig, m: Message, u: string)
    requires c.window >= 0
    ensures
      var before, after := Members(r, UserEventsKey(c.namespace, u)), Members(Apply(r, c, m), UserEventsKey(c.namespace, u));
      after == if Touches(c, m, u) then Kept(before[m.eventId := Score(m)], WindowStart(c, m)) else before
    ensures
      Apply(r, c, m).hashes ==
        if IsTooLate(c, m) then r.hashes
        else r.hashes[EventKey(c.namespace, m.eventId) := EventHash(m.amount, m.currency, m.eventTime, m.userId)]
  {
    if !IsTooLate(c, m) {
      var r1 := PutHash(r, c, m);
      assert Prefix(r, c, m, 1) == r1 by { assert Prefix(r, c, m, 0) == r; }
      var r2 := AddMember(r1, c, m);
      assert Prefix(r, c, m, 2) == r2;
      var r3 := Prune(r2, c, m);
      assert Prefix(r, c, m, 3) == r3;
      assert Prefix(r, c, m, 4) == r3;
      assert Prefix(r, c, m, 5) == r3;
      if UserEventsKey(c.namespace, u) == UserEventsKey(c.namespace, m.userId) {
        UserKeyInjective(c.namespace, u, m.userId);
      }
    }
  }

  /** Exact window characterisation: an event is in the user's set exactly when no delivery at or
      after its last one evicts its score, and its score is that of its last delivery. */
  lemma {:induction false} ExactMembership(c: WindowConfig, h: seq<Message>, u: string, id: string)
    requires c.window >= 0
    ensures
      var i := Last(c, h, u, id);
      && (id in MembersOf(c, h, u) <==> i >= 0 && Spared(c, h, u, i, Score(h[i])))
      && (id in MembersOf(c, h, u) ==> MembersOf(c, h, u)[id] == Score(h[i]))
    decreases |h|
  {
    if h == [] {
    } else {
      var g, m := h[..|h| - 1], h[|h| - 1];
      ExactMembership(c, g, u, id);
      ApplyMembers(ApplyAll(c, g), c, m, u);
      WindowStartBeforeScore(c, m);
      if !(Touches(c, m, u) && m.eventId == id) {
        var i := Last(c, g, u, id);
        if i >= 0 {
          SparedSnoc(c, g, m, u, i, Score(g[i]));
        }
      }
    }
  }

  lemma SparedSnoc(c: WindowConfig, g: seq<Message>, m: Message, u: string, i: nat, score: int)
    requires i <= |g|
    ensures Spared(c, g + [m], u, i, score) <==>
      Spared(c, g, u, i, score) && !(Touches(c, m, u) && Prunes(c, m, score))
  {
    var h := g + [m];
    assert forall k :: 0 <= k < |g| ==> g[k] == h[k];
    assert h[|g|] == m;
  }

  // ----- Answers compared with the full log -----

  /** Intake lets an event id stand for one event only; a redelivery repeats the same message. */
  ghost predicate OneMeaning(h: seq<Message>) {
    forall i, j :: 0 <= i < |h| && 0 <= j < |h| && h[i].eventId == h[j].eventId ==> h[i] == h[j]
  }

  predicate InWindow(c: WindowConfig, m: Message, e: Message) {
    WindowStart(c, m) <= Score(e) <= Score(m)
  }

  /** Window and eviction in terms of the event times: the window of an event at `t` reaches from `t` less
      the window length, rounded down to the millisecond, to the end of the millisecond of `t`; what lies
      before it, but not before the epoch, is evicted. */
  lemma WindowBounds(c: WindowConfig, m: Message, e: Message)
    ensures
      var first := m.eventTime - c.window - (m.eventTime - c.window) % 1_000_000;
      var end := m.eventTime - m.eventTime % 1_000_000 + 1_000_000;
      && (InWindow(c, m, e) <==> first <= e.eventTime < end)
      && (Prunes(c, m, Score(e)) <==> 0 <= e.eventTime < first)
  {
    SameMillisecond(e.eventTime, m.eventTime - c.window);
    SameMillisecond(m.eventTime, e.eventTime);
    assert Score(e) >= 0 <==> e.eventTime >= 0;
  }

  lemma SameMillisecond(a: int, b: int)
    ensures a / 1_000_000 < b / 1_000_000 <==> a < b - b % 1_000_000
    ensures a / 1_000_000 >= b / 1_000_000 <==> a >= b - b % 1_000_000
    ensures a - a % 1_000_000 + 1_000_000 <= b <==> a / 1_000_000 < b / 1_000_000
  {
  }

  /** The user's events of the log that lie in the window of `m`. */
  ghost function FullIds(c: WindowConfig, h: seq<Message>, m: Message): set<string> {
    set i | 0 <= i < |h| && Touches(c, h[i], m.userId) && InWindow(c, m, h[i]) :: h[i].eventId
  }

  /** Those of them that no delivery since has evicted. */
  ghost function SparedIds(c: WindowConfig, h: seq<Message>, m: Message): set<string> {
    set i | 0 <= i < |h| && Touches(c, h[i], m.userId) && InWindow(c, m, h[i])
            && Spared(c, h, m.userId, Last(c, h, m.userId, h[i].eventId), Score(h[i])) :: h[i].eventId
  }

  /** The amount the log gives for an event id. */
  function LoggedAmount(h: seq<Message>, id: string): real {
    if h == [] then 0.0
    else if h[|h| - 1].eventId == id then h[|h| - 1].amount
    else LoggedAmount(h[..|h| - 1], id)
  }

  function LoggedAmounts(h: seq<Message>, ids: set<string>): map<string, real> {
    map id | id in ids :: LoggedAmount(h, id)
  }

  ghost function LogAnswer(h: seq<Message>, ids: set<string>): WindowResult {
    Normal(|ids|, Total(LoggedAmounts(h, ids)))
  }

  lemma {:induction false} LoggedAmountIs(h: seq<Message>, i: nat)
    requires OneMeaning(h) && i < |h|
    ensures LoggedAmount(h, h[i].eventId) == h[i].amount
    decreases |h|
  {
    var g := h[..|h| - 1];
    if h[|h| - 1].eventId != h[i].eventId {
      assert g[i] == h[i];
      LoggedAmountIs(g, i);
    }
  }

  /** Every recorded event still has its hash, with its own amount. */
  lemma {:induction false} HashKept(c: WindowConfig, h: seq<Message>, i: nat)
    requires c.window >= 0 && OneMeaning(h) && i < |h| && !IsTooLate(c, h[i])
    ensures
      var key := EventKey(c.namespace, h[i].eventId);
      key in ApplyAll(c, h).hashes && ApplyAll(c, h).hashes[key].amount == h[i].amount
    decreases |h|
  {
    var g, m := h[..|h| - 1], h[|h| - 1];
    ApplyMembers(ApplyAll(c, g), c, m, m.userId);
    if m.eventId == h[i].eventId {
      assert m == h[i];
    } else {
      assert g[i] == h[i];
      HashKept(c, g, i);
      if EventKey(c.namespace, m.eventId) == EventKey(c.namespace, h[i].eventId) {
        EventKeyInjective(c.namespace, m.eventId, h[i].eventId);
      }
    }
  }

  /** What a recorded delivery reads back: exactly the spared members of its window. */
  lemma RangeIsSparedWindow(c: WindowConfig, h: seq<Message>, m: Message)
    requires c.window >= 0 && OneMeaning(h)
    ensures InRange(ApplyAll(c, h), c, m) == SparedIds(c, h, m)
  {
    var r := ApplyAll(c, h);
    forall id ensures id in InRange(r, c, m) <==> id in SparedIds(c, h, m) {
      ExactMembership(c, h, m.userId, id);
      var l := Last(c, h, m.userId, id);
      if id in InRange(r, c, m) {
        assert h[l].eventId == id && Touches(c, h[l], m.userId) && InWindow(c, m, h[l]);
      }
    }
  }

  /** The answer is the count and sum over the spared members; it is part of the full-log window. */
  lemma AnswerIsSparedWindow(c: WindowConfig, h: seq<Message>, m: Message)
    requires c.window >= 0 && OneMeaning(h + [m]) && !IsTooLate(c, m)
    ensures Answer(ApplyAll(c, h), c, m) == LogAnswer(h + [m], SparedIds(c, h + [m], m))
    ensures SparedIds(c, h + [m], m) <= FullIds(c, h + [m], m)
  {
    var l := h + [m];
    assert l[..|l| - 1] == h;
    var r := ApplyAll(c, l);
    assert r == Apply(ApplyAll(c, h), c, m);
    RangeIsSparedWindow(c, l, m);
    var ids := InRange(r, c, m);
    forall id | id in ids
      ensures EventKey(c.namespace, id) in r.hashes && r.hashes[EventKey(c.namespace, id)].amount == LoggedAmount(l, id)
    {
      var i :| 0 <= i < |l| && Touches(c, l[i], m.userId) && l[i].eventId == id;
      HashKept(c, l, i);
      LoggedAmountIs(l, i);
    }
    assert ValidAmounts(r, c, ids) == LoggedAmounts(l, ids);
    KeysNumber(LoggedAmounts(l, ids), ids);
  }

  lemma KeysNumber<K, V>(m: map<K, V>, ids: set<K>)
    requires m.Keys == ids
    ensures |m| == |ids|
  {
  }

  /** No event of the user's window of `m` has been evicted since its last delivery. */
  ghost predicate NoneEvicted(c: WindowConfig, l: seq<Message>, m: Message) {
    forall i :: 0 <= i < |l| && Touches(c, l[i], m.userId) && InWindow(c, m, l[i]) ==>
      Spared(c, l, m.userId, Last(c, l, m.userId, l[i].eventId), Score(l[i]))
  }

  lemma NoneEvictedMeansSameIds(c: WindowConfig, l: seq<Message>, m: Message)
    ensures NoneEvicted(c, l, m) <==> SparedIds(c, l, m) == FullIds(c, l, m)
    requires OneMeaning(l)
  {
    var spared, full := SparedIds(c, l, m), FullIds(c, l, m);
    if spared == full {
      forall i | 0 <= i < |l| && Touches(c, l[i], m.userId) && InWindow(c, m, l[i])
        ensures Spared(c, l, m.userId, Last(c, l, m.userId, l[i].eventId), Score(l[i]))
      {
        assert l[i].eventId in spared;
      }
    }
    if NoneEvicted(c, l, m) {
      forall id | id in full ensures id in spared {
        var i :| 0 <= i < |l| && Touches(c, l[i], m.userId) && InWindow(c, m, l[i]) && l[i].eventId == id;
        assert l[i].eventId in spared;
      }
      SubsetBothWays(spared, full);
    }
  }

  /** The answer equals the full-log answer exactly when no member of the window was evicted. */
  lemma AnswerFullIffNoneEvicted(c: WindowConfig, h: seq<Message>, m: Message)
    requires c.window >= 0 && OneMeaning(h + [m]) && !IsTooLate(c, m)
    ensures
      Answer(ApplyAll(c, h), c, m) == LogAnswer(h + [m], FullIds(c, h + [m], m)) <==> NoneEvicted(c, h + [m], m)
  {
    var l := h + [m];
    AnswerIsSparedWindow(c, h, m);
    NoneEvictedMeansSameIds(c, l, m);
    if |SparedIds(c, l, m)| == |FullIds(c, l, m)| {
      SubsetOfSameSize(SparedIds(c, l, m), FullIds(c, l, m));
    }
  }

  lemma SubsetBothWays<T>(a: set<T>, b: set<T>)
    requires a <= b && b <= a
    ensures a == b
  {
  }

  lemma SubsetOfSameSize<T>(a: set<T>, b: set<T>)
    requires a <= b && |a| == |b|
    ensures a == b
  {
    assert |b - a| == |b| - |a|;
  }

  /** With no earlier recorded event of the user later in event time, nothing is lost. */
  lemma InOrderAnswerIsFullWindow(c: WindowConfig, h: seq<Message>, m: Message)
    requires c.window >= 0 && OneMeaning(h + [m]) && !IsTooLate(c, m)
    requires forall i :: 0 <= i < |h| && Touches(c, h[i], m.userId) ==> h[i].eventTime <= m.eventTime
    ensures Answer(ApplyAll(c, h), c, m) == LogAnswer(h + [m], FullIds(c, h + [m], m))
  {
    InOrderEvictsNone(c, h, m);
    AnswerFullIffNoneEvicted(c, h, m);
  }

  lemma InOrderEvictsNone(c: WindowConfig, h: seq<Message>, m: Message)
    requires forall i :: 0 <= i < |h| && Touches(c, h[i], m.userId) ==> h[i].eventTime <= m.eventTime
    ensures NoneEvicted(c, h + [m], m)
  {
    var l := h + [m];
    forall i, j | 0 <= i < |l| && 0 <= j < |l| && Touches(c, l[j], m.userId) && InWindow(c, m, l[i])
      ensures !Prunes(c, l[j], Score(l[i]))
    {
      assert j < |h| ==> l[j] == h[j];
      WindowStartMonotone(c, l[j], m);
    }
  }

  lemma WindowStartMonotone(c: WindowConfig, a: Message, b: Message)
    requires a.eventTime <= b.eventTime
    ensures WindowStart(c, a) <= WindowStart(c, b)
  {
  }

  /** Three events of one user, at minutes 1, 7 and 3, the last received when it is not yet too late. */
  predicate OutOfOrder(c: WindowConfig, a: Message, b: Message, m: Message) {
    && c.window == 300_000_000_000 && c.allowedLateness == 300_000_000_000 && !c.replay
    && a.eventId == "a" && a.eventTime == 60_000_000_000 && a.receivedAt == 60_000_000_000
    && b == a.(eventId := "b", eventTime := 420_000_000_000, receivedAt := 420_000_000_000)
    && m == a.(eventId := "c", eventTime := 180_000_000_000, receivedAt := 430_000_000_000)
  }

  lemma LogHasTwo(c: WindowConfig, a: Message, b: Message, m: Message, l: seq<Message>)
    requires OutOfOrder(c, a, b, m) && l == [a, b, m]
    ensures OneMeaning(l) && FullIds(c, l, m) == {"a", "c"}
  {
    assert l[0] == a && l[1] == b && l[2] == m;
    assert l[0].eventId in FullIds(c, l, m) && l[2].eventId in FullIds(c, l, m);
  }

  lemma FirstIsEvicted(c: WindowConfig, a: Message, b: Message, m: Message, l: seq<Message>)
    requires OutOfOrder(c, a, b, m) && l == [a, b, m]
    ensures SparedIds(c, l, m) == {"c"}
  {
    assert l[0] == a && l[1] == b && l[2] == m;
    assert l[..2] == [a, b] && l[..2][..1] == [a];
    assert Last(c, [a], a.userId, "a") == 0;
    assert Last(c, [a, b], a.userId, "a") == 0;
    assert Last(c, l, a.userId, "a") == 0;
    assert Prunes(c, l[1], Score(l[0]));
    assert Last(c, l, a.userId, "c") == 2;
    assert l[2].eventId in SparedIds(c, l, m);
  }

  /** Out of order it can be: with a five-minute window, an event at minute 7 evicts the one at
      minute 1, so the late event at minute 3 counts one where the log has two. */
  lemma OutOfOrderLosesAnEvent(c: WindowConfig, a: Message, b: Message, m: Message)
    requires OutOfOrder(c, a, b, m)
    ensures OneMeaning([a, b, m])
    ensures FullIds(c, [a, b, m], m) == {"a", "c"} && SparedIds(c, [a, b, m], m) == {"c"}
    ensures Answer(ApplyAll(c, [a, b]), c, m) != LogAnswer([a, b, m], {"a", "c"})
  {
    LogHasTwo(c, a, b, m, [a, b, m]);
    FirstIsEvicted(c, a, b, m, [a, b, m]);
    assert [a, b] + [m] == [a, b, m];
    AnswerIsSparedWindow(c, [a, b], m);
  }
}
