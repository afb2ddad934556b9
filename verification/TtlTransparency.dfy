/** Key deadlines. Every recorded delivery renews the deadline of the user's set and of its own hash;
    a key whose deadline has come is gone. When does expiry never show in an answer? */
module TtlTransparency {
  import opened Domain
  import opened RedisWindow
  import opened WindowHistory

  /** A complete call for `m` at time `at`, on one clock for the whole system. */
  datatype Delivery = Delivery(m: Message, at: int)

  datatype Timed = Timed(r: Redis, setDeadline: map<string, int>, hashDeadline: map<string, int>)

  const NEW := Timed(EMPTY, map[], map[])

  /** The keyspace as a command at `now` sees it. */
  function Expire(t: Timed, now: int): Timed {
    t.(r := Redis(
         map key | key in t.r.zsets && (key in t.setDeadline ==> now < t.setDeadline[key]) :: t.r.zsets[key],
         map key | key in t.r.hashes && (key in t.hashDeadline ==> now < t.hashDeadline[key]) :: t.r.hashes[key]))
  }

  function TimedApply(t: Timed, c: WindowConfig, d: Delivery): Timed {
    var seen := Expire(t, d.at);
    if IsTooLate(c, d.m) then seen
    else Timed(Apply(seen.r, c, d.m),
               seen.setDeadline[UserEventsKey(c.namespace, d.m.userId) := d.at + c.ttl],
               seen.hashDeadline[EventKey(c.namespace, d.m.eventId) := d.at + c.ttl])
  }

  function TimedApplyAll(c: WindowConfig, ds: seq<Delivery>): Timed {
    if ds == [] then NEW else TimedApply(TimedApplyAll(c, ds[..|ds| - 1]), c, ds[|ds| - 1])
  }

  ghost function TimedAnswer(c: WindowConfig, ds: seq<Delivery>, d: Delivery): WindowResult {
    if IsTooLate(c, d.m) then TooLate
    else Read(Expire(TimedApplyAll(c, ds + [d]), d.at).r, c, d.m)
  }

  function Log(ds: seq<Delivery>): seq<Message> {
    seq(|ds|, i requires 0 <= i < |ds| => ds[i].m)
  }

  /** Intake rejects an event time more than `future` ahead of its receipt; a record is delivered
      after its receipt and within `lag` of it; calls are made in clock order. */
  ghost predicate Admissible(future: nat, lag: nat, ds: seq<Delivery>) {
    && (forall i :: 0 <= i < |ds| ==>
          && ds[i].m.eventTime <= ds[i].m.receivedAt + future
          && ds[i].m.receivedAt <= ds[i].at <= ds[i].m.receivedAt + lag)
    && InClockOrder(ds)
  }

  /** Expiry never changes an answer. */
  ghost predicate Transparent(c: WindowConfig, future: nat, lag: nat) {
    forall ds: seq<Delivery>, d: Delivery :: Admissible(future, lag, ds + [d]) ==>
      TimedAnswer(c, ds, d) == Answer(ApplyAll(c, Log(ds)), c, d.m)
  }

  /** The longest an event of the window can have been in the keyspace: the last term is what the
      rounding of scores to milliseconds adds. */
  function Bound(c: WindowConfig, future: nat, lag: nat): int {
    c.window + c.allowedLateness + future + lag + NANOS_PER_MILLI - 1
  }

  // ----- Sufficient -----

  predicate Alive(c: WindowConfig, d: Delivery, now: int) { now < d.at + c.ttl }

  /** `t` is the keyspace without expiry, minus what only expired deliveries account for. */
  ghost predicate Agrees(c: WindowConfig, ds: seq<Delivery>, t: Timed, now: int) {
    var p := ApplyAll(c, Log(ds));
    && (forall u, id :: id in Members(t.r, UserEventsKey(c.namespace, u)) ==>
          && id in Members(p, UserEventsKey(c.namespace, u))
          && Members(t.r, UserEventsKey(c.namespace, u))[id] == Members(p, UserEventsKey(c.namespace, u))[id])
    && (forall key :: key in t.r.hashes ==> key in p.hashes && t.r.hashes[key] == p.hashes[key])
    && (forall i :: 0 <= i < |ds| && !IsTooLate(c, ds[i].m) && Alive(c, ds[i], now) ==> Held(c, p, t, ds[i]))
  }

  /** A delivery that is still alive is held: set and hash are there, with late enough deadlines. */
  ghost predicate Held(c: WindowConfig, p: Redis, t: Timed, d: Delivery) {
    var userKey, eventKey := UserEventsKey(c.namespace, d.m.userId), EventKey(c.namespace, d.m.eventId);
    && userKey in t.setDeadline && t.setDeadline[userKey] >= d.at + c.ttl
    && eventKey in t.hashDeadline && t.hashDeadline[eventKey] >= d.at + c.ttl
    && eventKey in t.r.hashes
    && (d.m.eventId in Members(p, userKey) ==> d.m.eventId in Members(t.r, userKey))
  }

  lemma ExpireKeepsAgreement(c: WindowConfig, ds: seq<Delivery>, t: Timed, before: int, now: int)
    requires Agrees(c, ds, t, before) && before <= now
    ensures Agrees(c, ds, Expire(t, now), now)
  {
    var p, e := ApplyAll(c, Log(ds)), Expire(t, now);
    forall i | 0 <= i < |ds| && !IsTooLate(c, ds[i].m) && Alive(c, ds[i], now)
      ensures Held(c, p, e, ds[i])
    {
      assert Alive(c, ds[i], before);
      assert Held(c, p, t, ds[i]);
    }
  }

  lemma CallKeepsAgreement(c: WindowConfig, ds: seq<Delivery>, s: Timed, d: Delivery)
    requires c.window >= 0 && Agrees(c, ds, s, d.at) && !IsTooLate(c, d.m)
    requires forall i :: 0 <= i < |ds| ==> ds[i].at <= d.at
    ensures
      var t := Timed(Apply(s.r, c, d.m),
                     s.setDeadline[UserEventsKey(c.namespace, d.m.userId) := d.at + c.ttl],
                     s.hashDeadline[EventKey(c.namespace, d.m.eventId) := d.at + c.ttl]);
      Agrees(c, ds + [d], t, d.at)
  {
    var t := Timed(Apply(s.r, c, d.m),
                   s.setDeadline[UserEventsKey(c.namespace, d.m.userId) := d.at + c.ttl],
                   s.hashDeadline[EventKey(c.namespace, d.m.eventId) := d.at + c.ttl]);
    var l := ds + [d];
    var p, q := ApplyAll(c, Log(ds)), ApplyAll(c, Log(l));
    LogSnoc(ds, d);
    assert q == Apply(p, c, d.m) by { assert Log(l)[..|l| - 1] == Log(ds); }
    ApplyMembers(s.r, c, d.m, d.m.userId);
    ApplyMembers(p, c, d.m, d.m.userId);
    forall u, id | id in Members(t.r, UserEventsKey(c.namespace, u))
      ensures id in Members(q, UserEventsKey(c.namespace, u))
      ensures Members(t.r, UserEventsKey(c.namespace, u))[id] == Members(q, UserEventsKey(c.namespace, u))[id]
    {
      ApplyMembers(s.r, c, d.m, u);
      ApplyMembers(p, c, d.m, u);
    }
    forall i | 0 <= i < |l| && !IsTooLate(c, l[i].m) && Alive(c, l[i], d.at)
      ensures Held(c, q, t, l[i])
    {
      CallHolds(c, ds, s, d, t, p, q, i);
    }
  }

  lemma CallHolds(c: WindowConfig, ds: seq<Delivery>, s: Timed, d: Delivery, t: Timed, p: Redis, q: Redis, i: nat)
    requires c.window >= 0 && Agrees(c, ds, s, d.at) && !IsTooLate(c, d.m)
    requires forall k :: 0 <= k < |ds| ==> ds[k].at <= d.at
    requires p == ApplyAll(c, Log(ds)) && q == Apply(p, c, d.m)
    requires t == Timed(Apply(s.r, c, d.m),
                        s.setDeadline[UserEventsKey(c.namespace, d.m.userId) := d.at + c.ttl],
                        s.hashDeadline[EventKey(c.namespace, d.m.eventId) := d.at + c.ttl])
    requires i <= |ds| && !IsTooLate(c, (ds + [d])[i].m) && Alive(c, (ds + [d])[i], d.at)
    ensures Held(c, q, t, (ds + [d])[i])
  {
    var e := (ds + [d])[i];
    var userKey := UserEventsKey(c.namespace, e.m.userId);
    ApplyMembers(s.r, c, d.m, e.m.userId);
    ApplyMembers(p, c, d.m, e.m.userId);
    if i < |ds| {
      assert e == ds[i];
      assert Held(c, p, s, e);
      if userKey == UserEventsKey(c.namespace, d.m.userId) {
        UserKeyInjective(c.namespace, e.m.userId, d.m.userId);
      }
    }
  }

  lemma LogSnoc(ds: seq<Delivery>, d: Delivery)
    ensures Log(ds + [d]) == Log(ds) + [d.m]
    ensures Log(ds + [d])[..|ds|] == Log(ds)
    ensures (ds + [d])[..|ds|] == ds
  {
  }

  lemma SkipKeepsAgreement(c: WindowConfig, ds: seq<Delivery>, s: Timed, d: Delivery)
    requires Agrees(c, ds, s, d.at) && IsTooLate(c, d.m)
    ensures Agrees(c, ds + [d], s, d.at)
  {
    var l := ds + [d];
    LogSnoc(ds, d);
    assert ApplyAll(c, Log(l)) == ApplyAll(c, Log(ds));
    forall i | 0 <= i < |l| && !IsTooLate(c, l[i].m) && Alive(c, l[i], d.at)
      ensures Held(c, ApplyAll(c, Log(ds)), s, l[i])
    {
      assert l[i] == ds[i];
    }
  }

  lemma DeliveryKeepsAgreement(c: WindowConfig, ds: seq<Delivery>, t: Timed, d: Delivery)
    requires c.window >= 0 && Agrees(c, ds, Expire(t, d.at), d.at)
    requires forall i :: 0 <= i < |ds| ==> ds[i].at <= d.at
    ensures Agrees(c, ds + [d], TimedApply(t, c, d), d.at)
  {
    if IsTooLate(c, d.m) {
      SkipKeepsAgreement(c, ds, Expire(t, d.at), d);
    } else {
      CallKeepsAgreement(c, ds, Expire(t, d.at), d);
    }
  }

  ghost predicate InClockOrder(ds: seq<Delivery>) {
    forall i, j :: 0 <= i <= j < |ds| ==> ds[i].at <= ds[j].at
  }

  lemma {:induction false} AlwaysAgrees(c: WindowConfig, ds: seq<Delivery>, t: Timed, now: int)
    requires c.window >= 0 && InClockOrder(ds) && t == TimedApplyAll(c, ds)
    requires ds != [] ==> now >= ds[|ds| - 1].at
    ensures Agrees(c, ds, Expire(t, now), now)
    decreases |ds|
  {
    if ds == [] {
      NothingAgrees(c, Expire(t, now), now);
    } else {
      var g, d := ds[..|ds| - 1], ds[|ds| - 1];
      var before := TimedApplyAll(c, g);
      assert t == TimedApply(before, c, d);
      AlwaysAgrees(c, g, before, d.at);
      LaterAgrees(c, g, d, before, t, now);
      assert g + [d] == ds;
    }
  }

  lemma NothingAgrees(c: WindowConfig, t: Timed, now: int)
    requires t == Expire(NEW, now)
    ensures Agrees(c, [], t, now)
  {
    assert Log([]) == [];
  }

  lemma LaterAgrees(c: WindowConfig, g: seq<Delivery>, d: Delivery, t: Timed, n: Timed, now: int)
    requires c.window >= 0 && n == TimedApply(t, c, d) && d.at <= now
    requires Agrees(c, g, Expire(t, d.at), d.at)
    requires forall i :: 0 <= i < |g| ==> g[i].at <= d.at
    ensures Agrees(c, g + [d], Expire(n, now), now)
  {
    DeliveryKeepsAgreement(c, g, t, d);
    ExpireKeepsAgreement(c, g + [d], n, d.at, now);
  }

  /** An event of the window of `q` was recorded recently enough to be alive when `q` is read. */
  lemma WindowMembersAreAlive(c: WindowConfig, future: nat, lag: nat, e: Delivery, q: Delivery)
    requires c.ttl > Bound(c, future, lag) && !c.replay && c.allowedLateness >= 0
    requires Admissible(future, lag, [e, q])
    requires !IsTooLate(c, q.m) && WindowStart(c, q.m) <= Score(e.m)
    ensures Alive(c, e, q.at)
  {
    var run := [e, q];
    assert run[0] == e && run[1] == q;
    assert e.m.eventTime > q.m.eventTime - c.window - NANOS_PER_MILLI;
  }

  lemma ExpiryInvisible(c: WindowConfig, future: nat, lag: nat, ds: seq<Delivery>, d: Delivery)
    requires c.window >= 0 && c.allowedLateness >= 0 && !c.replay
    requires c.ttl > Bound(c, future, lag)
    requires Admissible(future, lag, ds + [d])
    ensures TimedAnswer(c, ds, d) == Answer(ApplyAll(c, Log(ds)), c, d.m)
  {
    if IsTooLate(c, d.m) { return; }
    var l := ds + [d];
    var t, p := Expire(TimedApplyAll(c, l), d.at), ApplyAll(c, Log(l));
    LogSnoc(ds, d);
    AlwaysAgrees(c, l, TimedApplyAll(c, l), d.at);
    assert p == Apply(ApplyAll(c, Log(ds)), c, d.m);
    forall id | id in InRange(p, c, d.m)
      ensures id in InRange(t.r, c, d.m) && EventKey(c.namespace, id) in t.r.hashes
    {
      WindowMemberHeld(c, future, lag, l, t, id);
    }
    SameReading(c, d.m, t.r, p);
  }

  lemma SameReading(c: WindowConfig, m: Message, r: Redis, p: Redis)
    requires InRange(r, c, m) <= InRange(p, c, m)
    requires forall key :: key in r.hashes ==> key in p.hashes && r.hashes[key] == p.hashes[key]
    requires forall id :: id in InRange(p, c, m) ==> id in InRange(r, c, m) && EventKey(c.namespace, id) in r.hashes
    ensures Read(r, c, m) == Read(p, c, m)
  {
    SubsetBothWays(InRange(r, c, m), InRange(p, c, m));
    assert ValidAmounts(r, c, InRange(r, c, m)) == ValidAmounts(p, c, InRange(p, c, m));
  }

  lemma WindowMemberHeld(c: WindowConfig, future: nat, lag: nat, l: seq<Delivery>, t: Timed, id: string)
    requires l != [] && c.window >= 0 && c.allowedLateness >= 0 && !c.replay
    requires c.ttl > Bound(c, future, lag) && Admissible(future, lag, l)
    requires !IsTooLate(c, l[|l| - 1].m) && Agrees(c, l, t, l[|l| - 1].at)
    requires id in InRange(ApplyAll(c, Log(l)), c, l[|l| - 1].m)
    ensures id in InRange(t.r, c, l[|l| - 1].m) && EventKey(c.namespace, id) in t.r.hashes
  {
    var d, p := l[|l| - 1], ApplyAll(c, Log(l));
    ExactMembership(c, Log(l), d.m.userId, id);
    var i := Last(c, Log(l), d.m.userId, id);
    var e := l[i];
    assert e.m == Log(l)[i];
    WindowMembersAreAlive(c, future, lag, e, d);
    assert Held(c, p, t, e);
  }

  // ----- Necessary -----

  /** Two events of one user, as far apart as the policy lets them be: the first as far ahead of its
      receipt as intake allows and delivered at once, the second at the edge of its window, as late
      and as lagging as allowed. */
  function FirstOf(c: WindowConfig, future: nat, m: Message): Delivery {
    var t := future * NANOS_PER_MILLI;
    Delivery(m.(eventId := "first", eventTime := t, receivedAt := t - future), t - future)
  }

  function SecondOf(c: WindowConfig, future: nat, lag: nat, m: Message): Delivery {
    var t := future * NANOS_PER_MILLI + c.window + NANOS_PER_MILLI - 1;
    Delivery(m.(eventId := "second", eventTime := t, receivedAt := t + c.allowedLateness), t + c.allowedLateness + lag)
  }

  lemma PairIsAdmissible(c: WindowConfig, future: nat, lag: nat, m: Message)
    requires c.window >= 0 && c.allowedLateness >= 0
    ensures Admissible(future, lag, [FirstOf(c, future, m)] + [SecondOf(c, future, lag, m)])
  {
    var e, q := FirstOf(c, future, m), SecondOf(c, future, lag, m);
    assert [e] + [q] == [e, q];
  }

  lemma ShortTtlLosesAnEvent(c: WindowConfig, future: nat, lag: nat, m: Message)
    requires c.window >= 0 && c.allowedLateness >= 0 && !c.replay
    requires c.ttl <= Bound(c, future, lag)
    ensures
      var e, q := FirstOf(c, future, m), SecondOf(c, future, lag, m);
      && Admissible(future, lag, [e] + [q])
      && Answer(ApplyAll(c, Log([e])), c, q.m) == Normal(2, m.amount + m.amount)
      && TimedAnswer(c, [e], q) != Normal(2, m.amount + m.amount)
  {
    PairIsAdmissible(c, future, lag, m);
    FirstIsInWindow(c, future, lag, m);
    FirstHasExpired(c, future, lag, m);
  }

  lemma BothInFullWindow(c: WindowConfig, l: seq<Message>, m: Message)
    requires |l| == 2 && Touches(c, l[0], m.userId) && Touches(c, l[1], m.userId)
    requires InWindow(c, m, l[0]) && InWindow(c, m, l[1])
    ensures FullIds(c, l, m) == {l[0].eventId, l[1].eventId}
  {
    assert l[0].eventId in FullIds(c, l, m) && l[1].eventId in FullIds(c, l, m);
  }

  lemma PairTotal(amounts: map<string, real>, a: string, b: string)
    requires a != b && amounts.Keys == {a, b}
    ensures |amounts| == 2 && Total(amounts) == amounts[a] + amounts[b]
  {
    TotalPick(amounts, a);
    var rest := amounts - {a};
    assert rest.Keys == {b};
    TotalPick(rest, b);
    assert rest - {b} == map[];
    assert |amounts| == |amounts.Keys|;
  }

  lemma FirstIsInWindow(c: WindowConfig, future: nat, lag: nat, m: Message)
    requires c.window >= 0 && c.allowedLateness >= 0 && !c.replay
    ensures
      var e, q := FirstOf(c, future, m), SecondOf(c, future, lag, m);
      Answer(ApplyAll(c, Log([e])), c, q.m) == Normal(2, m.amount + m.amount)
  {
    var e, q := FirstOf(c, future, m), SecondOf(c, future, lag, m);
    var h, l := [e.m], [e.m, q.m];
    assert Log([e]) == h && h + [q.m] == l && l[0] == e.m && l[1] == q.m;
    assert e.m.eventId != q.m.eventId;
    InOrderAnswerIsFullWindow(c, h, q.m);
    assert Score(e.m) == future && WindowStart(c, q.m) == future;
    assert InWindow(c, q.m, l[0]) && InWindow(c, q.m, l[1]);
    var ids := FullIds(c, l, q.m);
    BothInFullWindow(c, l, q.m);
    LoggedAmountIs(l, 0);
    LoggedAmountIs(l, 1);
    PairTotal(LoggedAmounts(l, ids), e.m.eventId, q.m.eventId);
  }

  lemma FirstHasExpired(c: WindowConfig, future: nat, lag: nat, m: Message)
    requires c.window >= 0 && c.allowedLateness >= 0 && !c.replay
    requires c.ttl <= Bound(c, future, lag)
    ensures TimedAnswer(c, [FirstOf(c, future, m)], SecondOf(c, future, lag, m)) != Normal(2, m.amount + m.amount)
  {
    var e, q := FirstOf(c, future, m), SecondOf(c, future, lag, m);
    var l, u := [e] + [q], m.userId;
    var one := [e];
    assert l[..1] == one && one[..0] == [];
    var t1 := TimedApplyAll(c, one);
    assert t1 == TimedApply(NEW, c, e) by { assert TimedApplyAll(c, one[..0]) == NEW; }
    var seen := Expire(t1, q.at);
    var key := UserEventsKey(c.namespace, u);
    assert t1.setDeadline[key] == e.at + c.ttl <= q.at;
    assert key !in seen.r.zsets;
    ApplyMembers(seen.r, c, q.m, u);
    var t2 := TimedApplyAll(c, l);
    assert t2 == TimedApply(t1, c, q);
    var r := Expire(t2, q.at).r;
    assert Members(r, key).Keys <= {"second"};
    var amounts := ValidAmounts(r, c, InRange(r, c, q.m));
    assert amounts.Keys <= {"second"};
    SmallKeys(amounts, "second");
  }

  lemma SmallKeys<K, V>(m: map<K, V>, k: K)
    requires m.Keys <= {k}
    ensures |m| <= 1
  {
    if k in m {
      assert m.Keys == {k};
    } else {
      assert m.Keys == {};
    }
    assert |m| == |m.Keys|;
  }

  /** Expiry is transparent exactly when the ttl exceeds the bound. */
  lemma TransparentIff(c: WindowConfig, future: nat, lag: nat, m: Message)
    requires c.window >= 0 && c.allowedLateness >= 0 && !c.replay
    ensures Transparent(c, future, lag) <==> c.ttl > Bound(c, future, lag)
  {
    if c.ttl > Bound(c, future, lag) {
      forall ds: seq<Delivery>, d: Delivery | Admissible(future, lag, ds + [d])
        ensures TimedAnswer(c, ds, d) == Answer(ApplyAll(c, Log(ds)), c, d.m)
      {
        ExpiryInvisible(c, future, lag, ds, d);
      }
    } else {
      ShortTtlLosesAnEvent(c, future, lag, m);
      var e, q := FirstOf(c, future, m), SecondOf(c, future, lag, m);
      assert TimedAnswer(c, [e], q) != Answer(ApplyAll(c, Log([e])), c, q.m);
    }
  }

  const MINUTE := 60_000_000_000

  /** The deployed settings (window 5m, ttl 10m, lateness 5m, five minutes of future) miss the bound
      whatever the lag: expiry can change an answer. */
  lemma DefaultsAreNotTransparent(c: WindowConfig, lag: nat, m: Message)
    requires c.window == 5 * MINUTE && c.ttl == 10 * MINUTE && c.allowedLateness == 5 * MINUTE && !c.replay
    ensures !Transparent(c, 5 * MINUTE, lag)
  {
    TransparentIff(c, 5 * MINUTE, lag, m);
  }
}
