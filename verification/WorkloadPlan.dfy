/** The partition-affinity workload: a shuffled cycle of partitions, a pool of users per partition
    found by trying candidate ids, and a round-robin plan of events. */
module WorkloadPlan {
  import opened Counting
  import opened Division
  import opened Domain
  import opened Apportionment

  // ----- The partition cycle -----

  /** Seeded draws and the record-key partitioner are outside the model. */
  type Draw = (int, int) -> nat
  type Partitioner = string -> int

  /** Partitions in ascending order with their shares of the cycle. */
  datatype Distribution = Distribution(partitions: seq<int>, split: Split) {
    predicate Valid() {
      && split.Complete() && |partitions| == |split.nums|
      && forall i, j :: 0 <= i < j < |partitions| ==> partitions[i] < partitions[j]
    }
  }

  lemma CompleteIsServable(split: Split)
    requires split.Complete()
    ensures Servable(split)
  {
  }

  function Repeat(x: int, n: int): (r: seq<int>)
    ensures |r| == if n < 0 then 0 else n
  {
    if n <= 0 then [] else Repeat(x, n - 1) + [x]
  }

  /** Each partition as often as it counts, partition by partition. */
  function Expanded(partitions: seq<int>, counts: seq<int>, n: nat): seq<int>
    requires n <= |partitions| == |counts|
  {
    if n == 0 then [] else Expanded(partitions, counts, n - 1) + Repeat(partitions[n - 1], counts[n - 1])
  }

  function Swap(s: seq<int>, i: nat, j: nat): (r: seq<int>)
    requires i < |s| && j < |s|
    ensures |r| == |s|
  {
    s[i := s[j]][j := s[i]]
  }

  /** The swaps from the last position down to `low`; position i goes to a drawn place in 0..i. */
  function Shuffled(s: seq<int>, counts: seq<int>, draw: Draw, low: nat): (r: seq<int>)
    requires counts != []
    ensures |r| == |s|
    decreases |s| - low
  {
    if low >= |s| then s
    else Swap(Shuffled(s, counts, draw, low + 1), low, draw(low, counts[low % |counts|]) % (low + 1))
  }

  method Shuffle(sequence: array<int>, counts: seq<int>, draw: Draw)
    requires counts != []
    modifies sequence
    ensures sequence[..] == Shuffled(old(sequence[..]), counts, draw, 1)
  {
    var index := sequence.Length - 1;
    while index > 0
      invariant -1 <= index <= sequence.Length - 1
      invariant sequence[..] == Shuffled(old(sequence[..]), counts, draw, index + 1)
      decreases index
    {
      var swapIndex := draw(index, counts[index % |counts|]) % (index + 1);
      sequence[index], sequence[swapIndex] := sequence[swapIndex], sequence[index];
      index := index - 1;
    }
  }

  function Cycle(d: Distribution, draw: Draw): seq<int>
    requires Servable(d.split) && |d.partitions| == |d.split.nums| > 0
  {
    var counts := Apportion(d.split);
    Shuffled(Expanded(d.partitions, counts, |counts|), counts, draw, 1)
  }

  method BuildPartitionCycle(d: Distribution, draw: Draw) returns (sequence: array<int>)
    requires Servable(d.split) && |d.partitions| == |d.split.nums| > 0
    ensures fresh(sequence) && sequence[..] == Cycle(d, draw)
  {
    var counts := BuildShareCounts(d.split);
    var expanded: seq<int> := [];
    for index := 0 to |d.partitions|
      invariant expanded == Expanded(d.partitions, counts, index)
    {
      expanded := expanded + Repeat(d.partitions[index], counts[index]);
    }
    sequence := new int[|expanded|](i requires 0 <= i < |expanded| => expanded[i]);
    assert sequence[..] == expanded;
    Shuffle(sequence, counts, draw);
  }

  lemma SwapKeeps(s: seq<int>, i: nat, j: nat)
    requires i < |s| && j < |s|
    ensures multiset(Swap(s, i, j)) == multiset(s)
  {
  }

  lemma {:induction false} ShuffleKeeps(s: seq<int>, counts: seq<int>, draw: Draw, low: nat)
    requires counts != []
    ensures multiset(Shuffled(s, counts, draw, low)) == multiset(s)
    decreases |s| - low
  {
    if low >= |s| {
    } else {
      ShuffleKeeps(s, counts, draw, low + 1);
      SwapKeeps(Shuffled(s, counts, draw, low + 1), low, draw(low, counts[low % |counts|]) % (low + 1));
    }
  }

  lemma {:induction false} Repeats(x: int, n: int, p: int)
    ensures multiset(Repeat(x, n))[p] == if p == x then AtLeastZero(n) else 0
    decreases n
  {
    if n <= 0 {
    } else {
      Repeats(x, n - 1, p);
      Multiplicity(Repeat(x, n - 1), [x], p);
    }
  }

  lemma {:induction false} ExpandedLength(partitions: seq<int>, counts: seq<int>, n: nat)
    requires n <= |partitions| == |counts|
    requires forall a :: 0 <= a < |counts| ==> counts[a] >= 0
    ensures |Expanded(partitions, counts, n)| == Sum(counts[..n])
  {
    if n == 0 {
    } else {
      ExpandedLength(partitions, counts, n - 1);
      assert counts[..n][..n - 1] == counts[..n - 1];
    }
  }

  lemma Multiplicity<T>(s: seq<T>, t: seq<T>, x: T)
    ensures multiset(s + t)[x] == multiset(s)[x] + multiset(t)[x]
  {
    assert multiset(s + t) == multiset(s) + multiset(t);
  }

  /** How often `p` is put into the sequence by the first `n` partitions. */
  function Weight(partitions: seq<int>, counts: seq<int>, n: nat, p: int): nat
    requires n <= |partitions| == |counts|
  {
    if n == 0 then 0 else
      Weight(partitions, counts, n - 1, p) + if partitions[n - 1] == p then AtLeastZero(counts[n - 1]) else 0
  }

  lemma {:induction false} ExpandedWeight(partitions: seq<int>, counts: seq<int>, n: nat, p: int, s: seq<int>)
    requires n <= |partitions| == |counts| && s == Expanded(partitions, counts, n)
    ensures multiset(s)[p] == Weight(partitions, counts, n, p)
    decreases n
  {
    if n == 0 {
    } else {
      var before := Expanded(partitions, counts, n - 1);
      ExpandedWeight(partitions, counts, n - 1, p, before);
      ExpandedNext(before, partitions[n - 1], counts[n - 1], p, s);
    }
  }

  lemma ExpandedNext(before: seq<int>, x: int, count: int, p: int, after: seq<int>)
    requires after == before + Repeat(x, count)
    ensures multiset(after)[p] == multiset(before)[p] + if x == p then AtLeastZero(count) else 0
  {
    Repeats(x, count, p);
    Multiplicity(before, Repeat(x, count), p);
  }

  lemma {:induction false} WeightIsCount(partitions: seq<int>, counts: seq<int>, n: nat, i: nat)
    requires n <= |partitions| == |counts| && i < |partitions|
    requires forall a :: 0 <= a < |partitions| && partitions[a] == partitions[i] ==> a == i
    ensures Weight(partitions, counts, n, partitions[i]) == if i < n then AtLeastZero(counts[i]) else 0
  {
    if n == 0 {
    } else {
      WeightIsCount(partitions, counts, n - 1, i);
    }
  }

  /** Before the shuffle the cycle holds the partitions one after the other, each as often as it counts. */
  lemma ExpandedInOrder(partitions: seq<int>, counts: seq<int>, n: nat, i: nat, k: nat)
    requires i < n <= |partitions| == |counts| && (forall a :: 0 <= a < |counts| ==> counts[a] >= 0) && k < counts[i]
    ensures Sum(counts[..i]) >= 0 && Sum(counts[..i]) + k < |Expanded(partitions, counts, n)|
    ensures Expanded(partitions, counts, n)[Sum(counts[..i]) + k] == partitions[i]
  {
    ExpandedLength(partitions, counts, i);
    ExpandedGrows(partitions, counts, i + 1, n);
    RepeatAt(partitions[i], counts[i], k);
    var upTo := Expanded(partitions, counts, i + 1);
    assert upTo[Sum(counts[..i]) + k] == Repeat(partitions[i], counts[i])[k];
  }

  lemma {:induction false} ExpandedGrows(partitions: seq<int>, counts: seq<int>, m: nat, n: nat)
    requires m <= n <= |partitions| == |counts|
    ensures Expanded(partitions, counts, m) <= Expanded(partitions, counts, n)
    decreases n - m
  {
    if m == n {
    } else {
      ExpandedGrows(partitions, counts, m, n - 1);
    }
  }

  lemma {:induction false} RepeatAt(x: int, n: int, k: nat)
    requires k < n
    ensures Repeat(x, n)[k] == x
    decreases n
  {
    if k == n - 1 {
    } else {
      RepeatAt(x, n - 1, k);
    }
  }

  lemma FloorNonNegative(num: nat, total: nat, den: nat)
    requires den > 0
    ensures num * total / den >= 0
  {
    Parts(num * total, den);
  }

  lemma CountsNonNegative(split: Split, i: nat)
    requires split.Complete() && i < |split.nums|
    ensures Servable(split) && Apportion(split)[i] >= 0
  {
    ApportionedCount(split, i);
    FloorNonNegative(split.nums[i], split.total, split.den);
  }

  /** The cycle is as long as asked and holds each partition exactly as often as apportioned. */
  lemma CycleIsApportioned(d: Distribution, draw: Draw, i: nat)
    requires d.Valid() && i < |d.partitions|
    ensures Servable(d.split)
    ensures
      var cycle := Cycle(d, draw);
      |cycle| == d.split.total && multiset(cycle)[d.partitions[i]] == Apportion(d.split)[i]
  {
    CompleteIsServable(d.split);
    var counts := Apportion(d.split);
    forall a | 0 <= a < |counts| ensures counts[a] >= 0 { CountsNonNegative(d.split, a); }
    ExpandedLength(d.partitions, counts, |counts|);
    ExpandedWeight(d.partitions, counts, |counts|, d.partitions[i], Expanded(d.partitions, counts, |counts|));
    WeightIsCount(d.partitions, counts, |counts|, i);
    ShuffleKeeps(Expanded(d.partitions, counts, |counts|), counts, draw, 1);
    assert counts[..|counts|] == counts;
    CountsAddUp(d.split);
  }

  // ----- User ids -----

  function Digit(n: nat): char
    requires n < 10
  {
    ['0', '1', '2', '3', '4', '5', '6', '7', '8', '9'][n]
  }

  function Decimal(n: nat): (s: string)
    ensures s != []
  {
    if n < 10 then [Digit(n)] else Decimal(n / 10) + [Digit(n % 10)]
  }

  function UserId(prefix: string, candidate: nat): string { prefix + Decimal(candidate) }

  lemma {:induction false} DecimalInjective(a: nat, b: nat)
    requires Decimal(a) == Decimal(b)
    ensures a == b
  {
    var s, t := Decimal(a), Decimal(b);
    assert s[|s| - 1] == Digit(a % 10) && t[|t| - 1] == Digit(b % 10);
    assert a % 10 == b % 10;
    if a >= 10 && b >= 10 {
      assert Decimal(a / 10) == s[..|s| - 1] && Decimal(b / 10) == t[..|t| - 1];
      DecimalInjective(a / 10, b / 10);
    }
  }

  lemma UserIdInjective(prefix: string, a: nat, b: nat)
    requires UserId(prefix, a) == UserId(prefix, b)
    ensures a == b
  {
    assert UserId(prefix, a)[|prefix|..] == Decimal(a) && UserId(prefix, b)[|prefix|..] == Decimal(b);
    DecimalInjective(a, b);
  }

  // ----- Searching users -----

  /** The ids among the first `n` candidates that hash to the target. */
  function Hits(prefix: string, target: int, partitionOf: Partitioner, n: nat): seq<string> {
    if n == 0 then []
    else
      var id := UserId(prefix, n - 1);
      Hits(prefix, target, partitionOf, n - 1) + if partitionOf(id) == target then [id] else []
  }

  function Limit(count: nat, partitionCount: nat): nat { count * partitionCount * 30 + 1000 }

  lemma {:induction false} HitsGrow(prefix: string, target: int, partitionOf: Partitioner, m: nat, n: nat)
    requires m <= n
    ensures Hits(prefix, target, partitionOf, m) <= Hits(prefix, target, partitionOf, n)
    decreases n - m
  {
    if m == n {
    } else {
      HitsGrow(prefix, target, partitionOf, m, n - 1);
    }
  }

  /** The search gives up, even with the last user just found, once it has passed its limit. */
  method FindUsersForPartition(prefix: string, target: int, count: nat, partitionCount: nat, partitionOf: Partitioner)
    returns (found: Option<seq<string>>)
    ensures
      var all := Hits(prefix, target, partitionOf, count * partitionCount * 30 + 1000);
      found == if |all| >= count then Some(all[..count]) else None
  {
    var users: seq<string>, candidate := [], 0;
    var limit := Limit(count, partitionCount);
    ghost var all := Hits(prefix, target, partitionOf, limit);
    while |users| < count
      invariant 0 <= candidate <= limit && |users| <= count
      invariant users == Hits(prefix, target, partitionOf, candidate)
      decreases limit - candidate
    {
      assert candidate == limit ==> users == all;
      var userId := UserId(prefix, candidate);
      if partitionOf(userId) == target {
        users := users + [userId];
      }
      candidate := candidate + 1;
      if candidate > limit {
        return None;
      }
    }
    HitsGrow(prefix, target, partitionOf, candidate, limit);
    assert all[..count] == users;
    return Some(users);
  }

  predicate Distinct(users: seq<string>) { forall i, j :: 0 <= i < j < |users| ==> users[i] != users[j] }

  predicate AllHashTo(users: seq<string>, target: int, partitionOf: Partitioner) {
    forall i :: 0 <= i < |users| ==> partitionOf(users[i]) == target
  }

  ghost predicate CandidatesBelow(users: seq<string>, prefix: string, n: nat) {
    forall i :: 0 <= i < |users| ==> IsCandidate(users[i], prefix, n)
  }

  ghost predicate IsCandidate(user: string, prefix: string, n: nat) {
    exists c: nat :: c < n && user == UserId(prefix, c)
  }

  lemma NextCandidateIsNew(user: string, prefix: string, n: nat)
    requires IsCandidate(user, prefix, n)
    ensures user != UserId(prefix, n) && IsCandidate(user, prefix, n + 1)
  {
    var c: nat :| c < n && user == UserId(prefix, c);
    if user == UserId(prefix, n) { UserIdInjective(prefix, c, n); }
  }

  /** A pool never repeats a user and all its users hash to its partition. */
  lemma {:induction false} PoolIsSound(prefix: string, target: int, partitionOf: Partitioner, n: nat)
    ensures
      var users := Hits(prefix, target, partitionOf, n);
      Distinct(users) && AllHashTo(users, target, partitionOf) && CandidatesBelow(users, prefix, n)
  {
    if n == 0 {
    } else {
      var before := Hits(prefix, target, partitionOf, n - 1);
      PoolIsSound(prefix, target, partitionOf, n - 1);
      forall i | 0 <= i < |before| ensures before[i] != UserId(prefix, n - 1) && IsCandidate(before[i], prefix, n) {
        NextCandidateIsNew(before[i], prefix, n - 1);
      }
      assert IsCandidate(UserId(prefix, n - 1), prefix, n);
    }
  }

  /** A pool leaves out no candidate that hashes to its partition. */
  lemma {:induction false} PoolIsComplete(prefix: string, target: int, partitionOf: Partitioner, n: nat, c: nat)
    requires c < n && partitionOf(UserId(prefix, c)) == target
    ensures UserId(prefix, c) in Hits(prefix, target, partitionOf, n)
  {
    if c == n - 1 {
    } else {
      PoolIsComplete(prefix, target, partitionOf, n - 1, c);
    }
  }

  /** The number a decimal text stands for. */
  function Value(s: string): int {
    if s == "" then 0 else Value(s[..|s| - 1]) * 10 + (s[|s| - 1] as int - '0' as int)
  }

  /** Candidate ids end in the candidate's number, without leading zeros. */
  lemma {:induction false} DecimalReads(n: nat)
    ensures Value(Decimal(n)) == n && (Decimal(n)[0] == '0' <==> n == 0)
  {
    var s := Decimal(n);
    DigitReads(n % 10);
    if n < 10 {
      assert s[..0] == "";
    } else {
      DecimalReads(n / 10);
      assert s[..|s| - 1] == Decimal(n / 10);
      assert s[0] == Decimal(n / 10)[0];
    }
  }

  lemma DigitReads(n: nat)
    requires n < 10
    ensures Digit(n) as int - '0' as int == n
  {
  }

  // ----- The plan -----

  datatype Event = Event(partition: int, userId: string)

  type Pools = map<int, seq<string>>

  /** How many of the first `n` iterations fall on the partition. */
  function Turns(cycle: seq<int>, n: nat, p: int): nat
    requires cycle != []
  {
    if n == 0 then 0 else Turns(cycle, n - 1, p) + if cycle[(n - 1) % |cycle|] == p then 1 else 0
  }

  predicate Pooled(cycle: seq<int>, pools: Pools) {
    cycle != [] && forall i :: 0 <= i < |cycle| ==> cycle[i] in pools
  }

  predicate HasUser(cycle: seq<int>, pools: Pools, i: nat)
    requires Pooled(cycle, pools)
  {
    pools[cycle[i % |cycle|]] != []
  }

  /** Each partition walks round its own pool. */
  function EventAt(cycle: seq<int>, pools: Pools, i: nat): Event
    requires Pooled(cycle, pools) && HasUser(cycle, pools, i)
  {
    var p := cycle[i % |cycle|];
    Event(p, pools[p][Turns(cycle, i, p) % |pools[p]|])
  }

  predicate Playable(cycle: seq<int>, pools: Pools, n: nat) {
    Pooled(cycle, pools) && forall i :: 0 <= i < n ==> HasUser(cycle, pools, i)
  }

  function Plan(cycle: seq<int>, pools: Pools, n: nat): (plan: seq<Event>)
    requires Playable(cycle, pools, n)
    ensures |plan| == n
  {
    if n == 0 then [] else Plan(cycle, pools, n - 1) + [EventAt(cycle, pools, n - 1)]
  }

  /** The plan of the verifying script, whose loop fails when it comes to a partition without users. */
  method BuildEventPlan(cycle: seq<int>, pools: Pools, eventLimit: nat) returns (plan: Option<seq<Event>>)
    requires Pooled(cycle, pools)
    ensures plan == if Playable(cycle, pools, eventLimit) then Some(Plan(cycle, pools, eventLimit)) else None
  {
    var occurrences: map<int, nat> := map p | p in pools :: 0;
    var events: seq<Event> := [];
    for iteration := 0 to eventLimit
      invariant Playable(cycle, pools, iteration) && events == Plan(cycle, pools, iteration)
      invariant occurrences.Keys == pools.Keys
      invariant forall p :: p in pools ==> occurrences[p] == Turns(cycle, iteration, p)
    {
      var partition := cycle[iteration % |cycle|];
      var pool := pools[partition];
      if pool == [] {
        assert !HasUser(cycle, pools, iteration);
        return None;
      }
      var userId := pool[occurrences[partition] % |pool|];
      occurrences := occurrences[partition := occurrences[partition] + 1];
      events := events + [Event(partition, userId)];
    }
    return Some(events);
  }

  /** Each event is on the partition of its turn of the cycle, and goes to the user of that partition's
      pool that comes after as many as the partition had events before, round and round. */
  lemma {:induction false} PlanIsRoundRobin(cycle: seq<int>, pools: Pools, n: nat, plan: seq<Event>, i: nat)
    requires Playable(cycle, pools, n) && plan == Plan(cycle, pools, n) && i < n
    ensures
      var p := cycle[i % |cycle|];
      && plan[i].partition == p && pools[p] != []
      && plan[i].userId == pools[p][Count(plan[..i], (e: Event) => e.partition == p) % |pools[p]|]
    decreases n
  {
    var before := Plan(cycle, pools, n - 1);
    assert plan == before + [EventAt(cycle, pools, n - 1)];
    if i == n - 1 {
      assert HasUser(cycle, pools, i);
      EventsAreTurns(cycle, pools, i, before, cycle[i % |cycle|]);
      assert plan[..i] == before;
    } else {
      PlanIsRoundRobin(cycle, pools, n - 1, before, i);
      assert plan[..i] == before[..i];
    }
  }

  lemma {:induction false} EventsAreTurns(cycle: seq<int>, pools: Pools, n: nat, plan: seq<Event>, p: int)
    requires Playable(cycle, pools, n) && plan == Plan(cycle, pools, n)
    ensures Count(plan, (e: Event) => e.partition == p) == Turns(cycle, n, p)
    decreases n
  {
    if n == 0 {
    } else {
      var before := Plan(cycle, pools, n - 1);
      EventsAreTurns(cycle, pools, n - 1, before, p);
      CountSnoc(before, (e: Event) => e.partition == p, EventAt(cycle, pools, n - 1));
    }
  }

  // ----- Fairness -----

  predicate Sound(pools: Pools, partitionOf: Partitioner) {
    forall p :: p in pools ==> Distinct(pools[p]) && AllHashTo(pools[p], p, partitionOf)
  }

  function Served(plan: seq<Event>, user: string): nat { Count(plan, (e: Event) => e.userId == user) }

  /** Iteration `i` serves the k-th user of `p`. */
  predicate Serves(cycle: seq<int>, pools: Pools, i: nat, p: int, k: nat)
    requires cycle != [] && p in pools && pools[p] != []
  {
    cycle[i % |cycle|] == p && Turns(cycle, i, p) % |pools[p]| == k
  }

  lemma ServedNext(
    cycle: seq<int>, pools: Pools, partitionOf: Partitioner, i: nat, plan: seq<Event>, p: int, k: nat)
    requires Playable(cycle, pools, i + 1) && Sound(pools, partitionOf) && p in pools && k < |pools[p]|
    ensures Served(plan + [EventAt(cycle, pools, i)], pools[p][k]) ==
      Served(plan, pools[p][k]) + if Serves(cycle, pools, i, p, k) then 1 else 0
  {
    CountSnoc(plan, (e: Event) => e.userId == pools[p][k], EventAt(cycle, pools, i));
    TurnServes(cycle, pools, partitionOf, i, p, k);
  }

  lemma ShareNext(cycle: seq<int>, pools: Pools, i: nat, p: int, k: nat)
    requires cycle != [] && p in pools && k < |pools[p]|
    ensures RoundShare(Turns(cycle, i + 1, p), |pools[p]|, k) ==
      RoundShare(Turns(cycle, i, p), |pools[p]|, k) + if Serves(cycle, pools, i, p, k) then 1 else 0
  {
  }

  lemma TurnServes(cycle: seq<int>, pools: Pools, partitionOf: Partitioner, i: nat, p: int, k: nat)
    requires Pooled(cycle, pools) && HasUser(cycle, pools, i) && Sound(pools, partitionOf) && p in pools && k < |pools[p]|
    ensures EventAt(cycle, pools, i).userId == pools[p][k] <==> Serves(cycle, pools, i, p, k)
  {
    var q := cycle[i % |cycle|];
    var j := Turns(cycle, i, q) % |pools[q]|;
    assert partitionOf(pools[q][j]) == q && partitionOf(pools[p][k]) == p;
    if q == p {
      assert j < k ==> pools[p][j] != pools[p][k];
      assert k < j ==> pools[p][k] != pools[p][j];
    }
  }

  /** A user is served by the turns of its partition that come round to it, and by no others. */
  lemma {:induction false} ServedByTurns(
    cycle: seq<int>, pools: Pools, partitionOf: Partitioner, n: nat, plan: seq<Event>, p: int, k: nat)
    requires Playable(cycle, pools, n) && plan == Plan(cycle, pools, n)
    requires Sound(pools, partitionOf) && p in pools && k < |pools[p]|
    ensures Served(plan, pools[p][k]) == RoundShare(Turns(cycle, n, p), |pools[p]|, k)
    decreases n
  {
    if n == 0 {
    } else {
      var before := Plan(cycle, pools, n - 1);
      ServedByTurns(cycle, pools, partitionOf, n - 1, before, p, k);
      ServedNext(cycle, pools, partitionOf, n - 1, before, p, k);
      ShareNext(cycle, pools, n - 1, p, k);
    }
  }

  /** Fairness: two users of one partition never differ by more than one event. */
  lemma PoolIsServedFairly(
    cycle: seq<int>, pools: Pools, partitionOf: Partitioner, n: nat, p: int, a: nat, b: nat)
    requires Playable(cycle, pools, n) && Sound(pools, partitionOf) && p in pools && a < |pools[p]| && b < |pools[p]|
    ensures
      var plan := Plan(cycle, pools, n);
      Served(plan, pools[p][a]) <= Served(plan, pools[p][b]) + 1
  {
    ServedByTurns(cycle, pools, partitionOf, n, Plan(cycle, pools, n), p, a);
    ServedByTurns(cycle, pools, partitionOf, n, Plan(cycle, pools, n), p, b);
    RoundShareIs(Turns(cycle, n, p), |pools[p]|, a);
    RoundShareIs(Turns(cycle, n, p), |pools[p]|, b);
  }

  // ----- Whole cycles -----

  lemma {:induction false} TurnsInPrefix(cycle: seq<int>, n: nat, p: int)
    requires cycle != [] && n <= |cycle|
    ensures Turns(cycle, n, p) == multiset(cycle[..n])[p]
  {
    if n == 0 {
    } else {
      TurnsInPrefix(cycle, n - 1, p);
      assert cycle[..n] == cycle[..n - 1] + [cycle[n - 1]];
      Multiplicity(cycle[..n - 1], [cycle[n - 1]], p);
      DivisionIs(n - 1, |cycle|, 0, n - 1);
    }
  }

  lemma {:induction false} TurnsRepeat(cycle: seq<int>, rounds: nat, n: nat, p: int)
    requires cycle != [] && n <= |cycle|
    ensures Turns(cycle, rounds * |cycle| + n, p) == rounds * multiset(cycle)[p] + Turns(cycle, n, p)
    decreases rounds, n
  {
    var size, times := |cycle|, multiset(cycle)[p];
    if n == 0 && rounds == 0 {
    } else if n > 0 {
      TurnsRepeat(cycle, rounds, n - 1, p);
      DivisionIs(rounds * size + (n - 1), size, rounds, n - 1);
      DivisionIs(n - 1, size, 0, n - 1);
    } else {
      TurnsRepeat(cycle, rounds - 1, size, p);
      assert (rounds - 1) * size + size == rounds * size && (rounds - 1) * times + times == rounds * times;
      TurnsInPrefix(cycle, size, p);
      assert cycle[..size] == cycle;
    }
  }

  predicate EvenRound(n: nat, m: nat, e: nat)
    requires m > 0
  {
    forall k :: 0 <= k < m ==> RoundShare(n, m, k) == e
  }

  lemma EvenRoundNeeds(n: nat, m: nat, e: nat)
    requires m > 0 && EvenRound(n, m, e)
    ensures n == e * m
  {
    RoundShareIs(n, m, 0);
    RoundShareIs(n, m, m - 1);
    assert RoundShare(n, m, 0) == RoundShare(n, m, m - 1) == e;
    Parts(n, m);
  }

  lemma EvenRoundHolds(n: nat, m: nat, e: nat)
    requires m > 0 && n == e * m
    ensures EvenRound(n, m, e)
  {
    DivisionIs(n, m, e, 0);
    forall k | 0 <= k < m ensures RoundShare(n, m, k) == e { RoundShareIs(n, m, k); }
  }

  lemma EvenRoundIff(n: nat, m: nat, e: nat)
    requires m > 0
    ensures EvenRound(n, m, e) <==> n == e * m
  {
    if EvenRound(n, m, e) { EvenRoundNeeds(n, m, e); }
    if n == e * m { EvenRoundHolds(n, m, e); }
  }

  /** Every user of the pool has exactly `e` events in the plan. */
  predicate EvenlyServed(plan: seq<Event>, pool: seq<string>, e: nat) {
    forall k :: 0 <= k < |pool| ==> Served(plan, pool[k]) == e
  }

  /** Over whole cycles every user of the partition gets exactly `e` events just when the partition's
      turns are `e` times its users. */
  lemma PoolIsServedEvenly(
    cycle: seq<int>, pools: Pools, partitionOf: Partitioner, rounds: nat, p: int, e: nat)
    requires Playable(cycle, pools, rounds * |cycle|) && Sound(pools, partitionOf) && p in pools && pools[p] != []
    ensures EvenlyServed(Plan(cycle, pools, rounds * |cycle|), pools[p], e) <==>
            rounds * multiset(cycle)[p] == e * |pools[p]|
  {
    var n := rounds * |cycle|;
    TurnsRepeat(cycle, rounds, 0, p);
    EvenlyServedIff(cycle, pools, partitionOf, n, p, e);
    EvenRoundIff(Turns(cycle, n, p), |pools[p]|, e);
  }

  lemma EvenlyServedIff(cycle: seq<int>, pools: Pools, partitionOf: Partitioner, n: nat, p: int, e: nat)
    requires Playable(cycle, pools, n) && Sound(pools, partitionOf) && p in pools && pools[p] != []
    ensures EvenlyServed(Plan(cycle, pools, n), pools[p], e) <==> EvenRound(Turns(cycle, n, p), |pools[p]|, e)
  {
    var plan, m := Plan(cycle, pools, n), |pools[p]|;
    forall k | 0 <= k < m ensures Served(plan, pools[p][k]) == RoundShare(Turns(cycle, n, p), m, k) {
      ServedByTurns(cycle, pools, partitionOf, n, Plan(cycle, pools, n), p, k);
    }
  }

  // ----- The generator as a whole -----

  /** The pools were searched for the apportioned numbers of users, one prefix per partition. */
  predicate Searched(d: Distribution, users: Split, pools: Pools, prefixOf: int -> string, partitionOf: Partitioner)
    requires Servable(users) && |users.nums| == |d.partitions|
  {
    && pools.Keys == (set i | 0 <= i < |d.partitions| :: d.partitions[i])
    && forall i :: 0 <= i < |d.partitions| ==> PoolFound(d, users, pools, prefixOf, partitionOf, i)
  }

  predicate PoolFound(
    d: Distribution, users: Split, pools: Pools, prefixOf: int -> string, partitionOf: Partitioner, i: nat)
    requires Servable(users) && i < |users.nums| == |d.partitions|
  {
    var p, count := d.partitions[i], AtLeastZero(Apportion(users)[i]);
    var all := Hits(prefixOf(p), p, partitionOf, Limit(count, |d.partitions|));
    p in pools && |all| >= count && pools[p] == all[..count]
  }

  lemma SearchedIsSound(d: Distribution, users: Split, pools: Pools, prefixOf: int -> string, partitionOf: Partitioner)
    requires Servable(users) && |users.nums| == |d.partitions| && Searched(d, users, pools, prefixOf, partitionOf)
    ensures Sound(pools, partitionOf)
  {
    forall p | p in pools ensures Distinct(pools[p]) && AllHashTo(pools[p], p, partitionOf) {
      var i :| 0 <= i < |d.partitions| && d.partitions[i] == p;
      assert PoolFound(d, users, pools, prefixOf, partitionOf, i);
      PoolIsSound(prefixOf(p), p, partitionOf, Limit(AtLeastZero(Apportion(users)[i]), |d.partitions|));
    }
  }

  /** Hot partitions without hot users: over whole cycles every user of partition i gets exactly `e`
      events just when rounds times the partition's place in the cycle is `e` times its users. */
  lemma NoHotUsers(
    d: Distribution, draw: Draw, users: Split, pools: Pools, prefixOf: int -> string, partitionOf: Partitioner,
    rounds: nat, e: nat, i: nat)
    requires d.Valid() && users.Complete() && Servable(users) && |users.nums| == |d.partitions| && i < |d.partitions|
    requires Servable(d.split) && Searched(d, users, pools, prefixOf, partitionOf)
    requires Playable(Cycle(d, draw), pools, rounds * d.split.total)
    requires Apportion(users)[i] > 0
    ensures
      var plan, p := Plan(Cycle(d, draw), pools, rounds * d.split.total), d.partitions[i];
      && p in pools && |pools[p]| == Apportion(users)[i]
      && (EvenlyServed(plan, pools[p], e) <==> rounds * Apportion(d.split)[i] == e * Apportion(users)[i])
  {
    CycleIsApportioned(d, draw, i);
    SearchedIsSound(d, users, pools, prefixOf, partitionOf);
    assert PoolFound(d, users, pools, prefixOf, partitionOf, i);
    PoolIsServedEvenly(Cycle(d, draw), pools, partitionOf, rounds, d.partitions[i], e);
  }
}
