/** The lateness workload: the manifest validator's closed form for the number of too-late events, and
    the rotated, reordered pattern the load generator really walks. */
module Lateness {
  import opened Counting
  import opened Division

  datatype Bucket = Bucket(name: string, lateness: nat)

  datatype Result<T> = Success(value: T) | Failure(error: string)

  predicate TooLate(b: Bucket, allowed: nat) { b.lateness > allowed }

  // ----- The validator -----

  /** Too-late events among the first `n` when event i takes bucket i, round and round. */
  function LateUpTo(buckets: seq<Bucket>, allowed: nat, n: nat): nat
    requires buckets != []
  {
    if n == 0 then 0 else LateUpTo(buckets, allowed, n - 1) + One(TooLate(buckets[(n - 1) % |buckets|], allowed))
  }

  /** It is the number of the events whose bucket is later than allowed. */
  lemma {:induction false} LateEvents(buckets: seq<Bucket>, allowed: nat, n: nat, late: set<int>)
    requires buckets != [] && late == set i | 0 <= i < n && buckets[i % |buckets|].lateness > allowed
    ensures LateUpTo(buckets, allowed, n) == |late|
  {
    if n == 0 {
      assert late == {};
    } else {
      var before := set i | 0 <= i < n - 1 && buckets[i % |buckets|].lateness > allowed;
      LateEvents(buckets, allowed, n - 1, before);
      NextOne(n - 1, (i: int) => 0 <= i && buckets[i % |buckets|].lateness > allowed, before, late);
    }
  }

  /** A set of indices below `n` grows by `n` itself if that belongs to it. */
  lemma NextOne(n: nat, p: int -> bool, before: set<int>, after: set<int>)
    requires before == set i | 0 <= i < n && p(i)
    requires after == set i | 0 <= i < n + 1 && p(i)
    ensures |after| == |before| + One(p(n))
  {
    if p(n) {
      assert after == before + {n};
    } else {
      assert after == before;
    }
  }

  function InRound(buckets: seq<Bucket>, allowed: nat): nat
    requires buckets != []
  {
    LateUpTo(buckets, allowed, |buckets|)
  }

  /** Whole rounds add what a round holds each time. */
  lemma {:induction false} LateAfterRounds(buckets: seq<Bucket>, allowed: nat, rounds: nat, n: nat)
    requires buckets != []
    ensures LateUpTo(buckets, allowed, rounds * |buckets| + n) ==
            rounds * InRound(buckets, allowed) + LateUpTo(buckets, allowed, n)
  {
    LateAt(buckets, allowed, rounds, n, rounds * |buckets| + n);
  }

  lemma {:induction false} LateAt(buckets: seq<Bucket>, allowed: nat, rounds: nat, n: nat, at: nat)
    requires buckets != [] && at == rounds * |buckets| + n
    ensures LateUpTo(buckets, allowed, at) == rounds * InRound(buckets, allowed) + LateUpTo(buckets, allowed, n)
    decreases rounds, n
  {
    var size := |buckets|;
    if n == 0 && rounds == 0 {
    } else if n > 0 {
      LateAt(buckets, allowed, rounds, n - 1, at - 1);
      WholeRounds(rounds, size, n - 1);
    } else {
      OneLess(rounds, size);
      LateAt(buckets, allowed, rounds - 1, size, at);
      OneLess(rounds, InRound(buckets, allowed));
    }
  }

  /** The closed form: the late buckets times the full cycles, and those of the remainder. */
  function ClosedForm(buckets: seq<Bucket>, allowed: nat, eventLimit: nat): int
    requires buckets != []
  {
    eventLimit / |buckets| * InRound(buckets, allowed) + LateUpTo(buckets, allowed, eventLimit % |buckets|)
  }

  /** The closed form refines the enumeration, for every number of events. */
  lemma ClosedFormCounts(buckets: seq<Bucket>, allowed: nat, eventLimit: nat)
    requires buckets != []
    ensures ClosedForm(buckets, allowed, eventLimit) == LateUpTo(buckets, allowed, eventLimit)
  {
    Parts(eventLimit, |buckets|);
    LateAt(buckets, allowed, eventLimit / |buckets|, eventLimit % |buckets|, eventLimit);
  }

  lemma CyclesAddUp(late: int, accepted: int, events: nat, size: nat)
    requires size > 0 && late + accepted == size
    ensures late * (events / size) + accepted * (events / size) + events % size == events
    ensures late * (events / size) == events / size * late
  {
    Parts(events, size);
    Times(late, accepted, events / size);
  }

  /** The validator counts the buckets once, multiplies by the full cycles and walks the remainder; the
      outcome is what counting every event would give. */
  method ExpectedCounts(buckets: seq<Bucket>, allowed: nat, eventLimit: nat) returns (expectedTooLate: int, expectedAccepted: int)
    requires buckets != []
    ensures expectedTooLate == LateUpTo(buckets, allowed, eventLimit)
    ensures expectedTooLate == |set i | 0 <= i < eventLimit && buckets[i % |buckets|].lateness > allowed|
    ensures expectedAccepted == eventLimit - expectedTooLate
  {
    var tooLateBuckets, acceptedBuckets := 0, 0;
    for i := 0 to |buckets|
      invariant tooLateBuckets == LateUpTo(buckets, allowed, i) && tooLateBuckets + acceptedBuckets == i
    {
      SmallModulo(i, |buckets|);
      if buckets[i].lateness > allowed {
        tooLateBuckets := tooLateBuckets + 1;
      } else {
        acceptedBuckets := acceptedBuckets + 1;
      }
    }
    var fullCycles, remainder := eventLimit / |buckets|, eventLimit % |buckets|;
    CyclesAddUp(tooLateBuckets, acceptedBuckets, eventLimit, |buckets|);
    expectedTooLate := tooLateBuckets * fullCycles;
    expectedAccepted := acceptedBuckets * fullCycles;
    ghost var late, accepted := expectedTooLate, expectedAccepted;
    for i := 0 to remainder
      invariant expectedTooLate == late + LateUpTo(buckets, allowed, i)
      invariant expectedTooLate + expectedAccepted == late + accepted + i
    {
      SmallModulo(i, |buckets|);
      if buckets[i].lateness > allowed {
        expectedTooLate := expectedTooLate + 1;
      } else {
        expectedAccepted := expectedAccepted + 1;
      }
    }
    ClosedFormCounts(buckets, allowed, eventLimit);
    LateEvents(buckets, allowed, eventLimit, set i | 0 <= i < eventLimit && buckets[i % |buckets|].lateness > allowed);
  }

  // ----- The pattern -----

  function Names(buckets: seq<Bucket>): seq<string> { seq(|buckets|, i requires 0 <= i < |buckets| => buckets[i].name) }

  predicate Unique(names: seq<string>) { forall i, j :: 0 <= i < j < |names| ==> names[i] != names[j] }

  /** The lookup table keeps the last bucket of a name. */
  function Lookup(buckets: seq<Bucket>, name: string): (r: Result<Bucket>)
    ensures r.Success? <==> name in Names(buckets)
    ensures r.Success? ==> r.value in buckets && r.value.name == name
  {
    if buckets == [] then Failure(name)
    else if buckets[|buckets| - 1].name == name then
      assert Names(buckets)[|buckets| - 1] == name;
      Success(buckets[|buckets| - 1])
    else
      assert Names(buckets) == Names(buckets[..|buckets| - 1]) + [buckets[|buckets| - 1].name];
      Lookup(buckets[..|buckets| - 1], name)
  }

  /** Of several buckets with one name the last is found. */
  lemma {:induction false} LookupIsLast(buckets: seq<Bucket>, i: nat)
    requires i < |buckets| && forall j :: i < j < |buckets| ==> buckets[j].name != buckets[i].name
    ensures Lookup(buckets, buckets[i].name) == Success(buckets[i])
    decreases |buckets|
  {
    if i == |buckets| - 1 {
    } else {
      LookupIsLast(buckets[..|buckets| - 1], i);
    }
  }

  predicate Known(buckets: seq<Bucket>, names: seq<string>) { forall i :: 0 <= i < |names| ==> names[i] in Names(buckets) }

  function Named(buckets: seq<Bucket>, names: seq<string>): (r: seq<Bucket>)
    requires Known(buckets, names)
    ensures |r| == |names|
  {
    if names == [] then [] else
      Named(buckets, names[..|names| - 1]) + [Lookup(buckets, names[|names| - 1]).value]
  }

  function Unnamed(buckets: seq<Bucket>, names: seq<string>): seq<Bucket> {
    if buckets == [] then [] else
      var last := buckets[|buckets| - 1];
      Unnamed(buckets[..|buckets| - 1], names) + if last.name in names then [] else [last]
  }

  /** First the named buckets in their order, then the others; any other length than that of the bucket
      list is an error. */
  function Pattern(buckets: seq<Bucket>, names: seq<string>): Result<seq<Bucket>> {
    if !Known(buckets, names) then Failure("outOfOrderPattern references unknown bucket")
    else
      var pattern := Named(buckets, names) + Unnamed(buckets, names);
      if |pattern| != |buckets| then Failure("runtime pattern must contain each lateness bucket exactly once")
      else Success(pattern)
  }

  method BuildRuntimePattern(buckets: seq<Bucket>, patternNames: seq<string>) returns (r: Result<seq<Bucket>>)
    ensures r == Pattern(buckets, patternNames)
  {
    var pattern: seq<Bucket> := [];
    for i := 0 to |patternNames|
      invariant Known(buckets, patternNames[..i]) && pattern == Named(buckets, patternNames[..i])
    {
      var found := Lookup(buckets, patternNames[i]);
      assert patternNames[..i + 1][..i] == patternNames[..i];
      if found.Failure? {
        return Failure("outOfOrderPattern references unknown bucket");
      }
      pattern := pattern + [found.value];
    }
    assert patternNames[..|patternNames|] == patternNames;
    ghost var named := pattern;
    for i := 0 to |buckets|
      invariant pattern == named + Unnamed(buckets[..i], patternNames)
    {
      assert buckets[..i + 1][..i] == buckets[..i];
      if buckets[i].name !in patternNames {
        pattern := pattern + [buckets[i]];
      }
    }
    assert buckets[..|buckets|] == buckets;
    if |pattern| != |buckets| {
      return Failure("runtime pattern must contain each lateness bucket exactly once");
    }
    return Success(pattern);
  }

  /** Repetitions: places whose name came before. */
  function Repeats(names: seq<string>): nat {
    if names == [] then 0 else
      Repeats(names[..|names| - 1]) + One(names[|names| - 1] in names[..|names| - 1])
  }

  lemma {:induction false} NoRepeats(names: seq<string>)
    ensures Repeats(names) == 0 <==> Unique(names)
  {
    if names == [] {
    } else {
      var before, last := names[..|names| - 1], names[|names| - 1];
      NoRepeats(before);
      assert names == before + [last];
      if last in before {
        var i :| 0 <= i < |before| && before[i] == last;
        assert names[i] == names[|names| - 1];
      }
    }
  }

  /** Naming one more bucket takes exactly it from the unnamed ones. */
  lemma {:induction false} NameOneMore(buckets: seq<Bucket>, names: seq<string>, x: string)
    requires Unique(Names(buckets)) && x !in names
    ensures multiset(Unnamed(buckets, names)) ==
      multiset(Unnamed(buckets, names + [x])) + if x in Names(buckets) then multiset{Lookup(buckets, x).value} else multiset{}
  {
    if buckets == [] {
    } else {
      var before, last := buckets[..|buckets| - 1], buckets[|buckets| - 1];
      assert Names(buckets) == Names(before) + [last.name];
      UniqueBefore(Names(before), last.name);
      NameOneMore(before, names, x);
    }
  }

  lemma UniqueBefore(names: seq<string>, last: string)
    requires Unique(names + [last])
    ensures Unique(names) && last !in names
  {
    var all := names + [last];
    assert forall i :: 0 <= i < |names| ==> all[i] == names[i];
    assert all[|names|] == last;
  }

  lemma {:induction false} NothingNamed(buckets: seq<Bucket>)
    ensures Unnamed(buckets, []) == buckets
  {
    if buckets == [] {
    } else {
      NothingNamed(buckets[..|buckets| - 1]);
      assert buckets == buckets[..|buckets| - 1] + [buckets[|buckets| - 1]];
    }
  }

  lemma {:induction false} SameUnnamed(buckets: seq<Bucket>, a: seq<string>, b: seq<string>)
    requires forall x :: x in a <==> x in b
    ensures Unnamed(buckets, a) == Unnamed(buckets, b)
  {
    if buckets == [] {
    } else {
      SameUnnamed(buckets[..|buckets| - 1], a, b);
    }
  }

  lemma {:induction false} PatternMakeUp(buckets: seq<Bucket>, names: seq<string>)
    requires Unique(Names(buckets)) && Known(buckets, names)
    ensures |names| + |Unnamed(buckets, names)| == |buckets| + Repeats(names)
    ensures Repeats(names) == 0 ==>
      multiset(Named(buckets, names)) + multiset(Unnamed(buckets, names)) == multiset(buckets)
  {
    if names == [] {
      NothingNamed(buckets);
    } else {
      var before, last := names[..|names| - 1], names[|names| - 1];
      assert names == before + [last];
      PatternMakeUp(buckets, before);
      if last in before {
        SameUnnamed(buckets, before, names);
      } else {
        NameOneMore(buckets, before, last);
        MultisetSize(Unnamed(buckets, before), Unnamed(buckets, names), Lookup(buckets, last).value);
      }
    }
  }

  lemma MultisetSize<T>(s: seq<T>, t: seq<T>, x: T)
    requires multiset(s) == multiset(t) + multiset{x}
    ensures |s| == |t| + 1
  {
    assert |multiset(s)| == |s| && |multiset(t)| == |t|;
  }

  /** With unique bucket names the pattern exists exactly when the order names known buckets without
      repetition, and then it holds each bucket once. */
  lemma PatternIsPermutation(buckets: seq<Bucket>, names: seq<string>)
    requires Unique(Names(buckets))
    ensures Pattern(buckets, names).Success? <==> Known(buckets, names) && Unique(names)
    ensures Pattern(buckets, names).Success? ==> multiset(Pattern(buckets, names).value) == multiset(buckets)
  {
    NoRepeats(names);
    if Known(buckets, names) { PatternMakeUp(buckets, names); }
  }

  lemma {:induction false} NamedInOrder(buckets: seq<Bucket>, names: seq<string>, i: nat)
    requires Known(buckets, names) && i < |names|
    ensures Named(buckets, names)[i].name == names[i] && Named(buckets, names)[i] in buckets
    decreases |names|
  {
    if i < |names| - 1 { NamedInOrder(buckets, names[..|names| - 1], i); }
  }

  /** The pattern begins with the named buckets, in the order that names them. */
  lemma PatternBeginsInOrder(buckets: seq<Bucket>, names: seq<string>, i: nat)
    requires Pattern(buckets, names).Success? && i < |names|
    ensures i < |Pattern(buckets, names).value| && Pattern(buckets, names).value[i].name == names[i]
  {
    NamedInOrder(buckets, names, i);
  }

  /** The unnamed buckets follow in the order of the list. */
  lemma {:induction false} UnnamedInOrder(buckets: seq<Bucket>, names: seq<string>, p: nat, q: nat) returns (i: nat, j: nat)
    requires p < q < |Unnamed(buckets, names)|
    ensures i < j < |buckets| && buckets[i] == Unnamed(buckets, names)[p] && buckets[j] == Unnamed(buckets, names)[q]
    decreases |buckets|
  {
    var before := buckets[..|buckets| - 1];
    if q < |Unnamed(before, names)| {
      i, j := UnnamedInOrder(before, names, p, q);
    } else {
      i := UnnamedFrom(before, names, p);
      j := |buckets| - 1;
    }
  }

  lemma {:induction false} UnnamedFrom(buckets: seq<Bucket>, names: seq<string>, p: nat) returns (i: nat)
    requires p < |Unnamed(buckets, names)|
    ensures i < |buckets| && buckets[i] == Unnamed(buckets, names)[p]
    decreases |buckets|
  {
    var before := buckets[..|buckets| - 1];
    if p < |Unnamed(before, names)| {
      i := UnnamedFrom(before, names, p);
    } else {
      i := |buckets| - 1;
    }
  }

  /** After the named ones the pattern keeps the order of the list. */
  lemma PatternKeepsOrder(buckets: seq<Bucket>, names: seq<string>, p: nat, q: nat)
    requires Pattern(buckets, names).Success? && |names| <= p < q < |Pattern(buckets, names).value|
    ensures
      var pattern := Pattern(buckets, names).value;
      exists i, j :: 0 <= i < j < |buckets| && buckets[i] == pattern[p] && buckets[j] == pattern[q]
  {
    var i, j := UnnamedInOrder(buckets, names, p - |names|, q - |names|);
  }

  // ----- The load generator -----

  function SelectBucket(pattern: seq<Bucket>, userIndex: nat, userEventIndex: nat): Bucket
    requires pattern != []
  {
    pattern[(userEventIndex + userIndex) % |pattern|]
  }

  /** Too-late events among the first `n` that the generator sends to `users` users in turn. */
  function GeneratedLate(pattern: seq<Bucket>, allowed: nat, users: nat, n: nat): nat
    requires pattern != [] && users > 0
  {
    if n == 0 then 0
    else GeneratedLate(pattern, allowed, users, n - 1) +
         One(TooLate(SelectBucket(pattern, (n - 1) % users, (n - 1) / users), allowed))
  }

  method ExpectedTooLateCount(pattern: seq<Bucket>, allowed: nat, userCardinality: nat, eventCount: nat) returns (count: nat)
    requires pattern != [] && userCardinality > 0
    ensures count == GeneratedLate(pattern, allowed, userCardinality, eventCount)
  {
    count := 0;
    for index := 0 to eventCount
      invariant count == GeneratedLate(pattern, allowed, userCardinality, index)
    {
      var userIndex, userEventIndex := index % userCardinality, index / userCardinality;
      var bucket := SelectBucket(pattern, userIndex, userEventIndex);
      if bucket.lateness > allowed {
        count := count + 1;
      }
    }
  }

  /** It is the number of the events whose bucket, rotated by user and by round, is later than allowed. */
  lemma {:induction false} GeneratedEvents(pattern: seq<Bucket>, allowed: nat, users: nat, n: nat, late: set<int>)
    requires pattern != [] && users > 0
    requires late == set i | 0 <= i < n && pattern[(i / users + i % users) % |pattern|].lateness > allowed
    ensures GeneratedLate(pattern, allowed, users, n) == |late|
  {
    if n == 0 {
      assert late == {};
    } else {
      var before := set i | 0 <= i < n - 1 && pattern[(i / users + i % users) % |pattern|].lateness > allowed;
      GeneratedEvents(pattern, allowed, users, n - 1, before);
      NextOne(n - 1, (i: int) => 0 <= i && pattern[(i / users + i % users) % |pattern|].lateness > allowed, before, late);
    }
  }

  // ----- Closed form against enumeration -----

  /** `rows` full rows of `users` events, row e starting at place e of the pattern. */
  function Rows(pattern: seq<Bucket>, allowed: nat, users: nat, rows: nat): int
    requires pattern != []
  {
    if rows == 0 then 0
    else Rows(pattern, allowed, users, rows - 1) +
         LateUpTo(pattern, allowed, rows - 1 + users) - LateUpTo(pattern, allowed, rows - 1)
  }

  /** The events of one row, from index `base` on, have that row's number as event index. */
  ghost predicate RowStarts(base: nat, users: nat, row: nat)
    requires users > 0
  {
    forall i :: base <= i < base + users ==> i / users == row && i % users == i - base
  }

  lemma RowsStart(users: nat, row: nat, base: nat)
    requires users > 0 && base == row * users
    ensures RowStarts(base, users, row)
  {
    forall i | base <= i < base + users ensures i / users == row && i % users == i - base {
      DivisionIs(i, users, row, i - base);
    }
  }

  lemma {:induction false} GeneratedInRow(pattern: seq<Bucket>, allowed: nat, users: nat, row: nat, base: nat, n: nat)
    requires pattern != [] && users > 0 && n <= users && RowStarts(base, users, row)
    ensures GeneratedLate(pattern, allowed, users, base + n) - GeneratedLate(pattern, allowed, users, base) ==
            LateUpTo(pattern, allowed, row + n) - LateUpTo(pattern, allowed, row)
  {
    if n == 0 {
    } else {
      GeneratedInRow(pattern, allowed, users, row, base, n - 1);
    }
  }

  lemma PartOfRow(pattern: seq<Bucket>, allowed: nat, users: nat, row: nat, base: nat, n: nat)
    requires pattern != [] && users > 0 && n <= users && base == row * users
    ensures GeneratedLate(pattern, allowed, users, base + n) - GeneratedLate(pattern, allowed, users, base) ==
            LateUpTo(pattern, allowed, row + n) - LateUpTo(pattern, allowed, row)
  {
    RowsStart(users, row, base);
    GeneratedInRow(pattern, allowed, users, row, base, n);
  }

  lemma {:induction false} GeneratedRows(pattern: seq<Bucket>, allowed: nat, users: nat, rows: nat, at: nat)
    requires pattern != [] && users > 0 && at == rows * users
    ensures GeneratedLate(pattern, allowed, users, at) == Rows(pattern, allowed, users, rows)
    decreases rows
  {
    if rows == 0 {
    } else {
      OneLess(rows, users);
      GeneratedRows(pattern, allowed, users, rows - 1, at - users);
      PartOfRow(pattern, allowed, users, rows - 1, at - users, users);
    }
  }

  /** Full rows and the beginning of one more. */
  lemma GeneratedInRows(pattern: seq<Bucket>, allowed: nat, users: nat, rows: nat, n: nat, at: nat)
    requires pattern != [] && users > 0 && n <= users && at == rows * users + n
    ensures GeneratedLate(pattern, allowed, users, at) ==
      Rows(pattern, allowed, users, rows) + LateUpTo(pattern, allowed, rows + n) - LateUpTo(pattern, allowed, rows)
  {
    GeneratedRows(pattern, allowed, users, rows, at - n);
    PartOfRow(pattern, allowed, users, rows, at - n, n);
  }

  /** Rows as long as whole rounds each hold the same number. */
  lemma {:induction false} RowsOfRounds(pattern: seq<Bucket>, allowed: nat, rounds: nat, rows: nat)
    requires pattern != []
    ensures Rows(pattern, allowed, rounds * |pattern|, rows) == rows * (rounds * InRound(pattern, allowed))
  {
    if rows == 0 {
    } else {
      RowsOfRounds(pattern, allowed, rounds, rows - 1);
      LateAfterRounds(pattern, allowed, rounds, rows - 1);
      OneLess(rows, rounds * InRound(pattern, allowed));
    }
  }

  /** One more user per row adds a column. */
  lemma {:induction false} OneMoreColumn(pattern: seq<Bucket>, allowed: nat, users: nat, rows: nat)
    requires pattern != []
    ensures Rows(pattern, allowed, users + 1, rows) ==
      Rows(pattern, allowed, users, rows) + LateUpTo(pattern, allowed, rows + users) - LateUpTo(pattern, allowed, users)
  {
    if rows == 0 {
    } else {
      OneMoreColumn(pattern, allowed, users, rows - 1);
    }
  }

  /** Columns as long as whole rounds each hold the same number. */
  lemma {:induction false} ColumnsOfRounds(pattern: seq<Bucket>, allowed: nat, users: nat, rounds: nat)
    requires pattern != []
    ensures Rows(pattern, allowed, users, rounds * |pattern|) == users * (rounds * InRound(pattern, allowed))
  {
    if users == 0 {
      NoColumns(pattern, allowed, rounds * |pattern|);
    } else {
      ColumnsOfRounds(pattern, allowed, users - 1, rounds);
      OneMoreColumn(pattern, allowed, users - 1, rounds * |pattern|);
      LateAfterRounds(pattern, allowed, rounds, users - 1);
      OneLess(users, rounds * InRound(pattern, allowed));
    }
  }

  lemma {:induction false} NoColumns(pattern: seq<Bucket>, allowed: nat, rows: nat)
    requires pattern != []
    ensures Rows(pattern, allowed, 0, rows) == 0
  {
    if rows == 0 {
    } else {
      NoColumns(pattern, allowed, rows - 1);
    }
  }

  lemma {:induction false} RoundIsCount(buckets: seq<Bucket>, allowed: nat, n: nat)
    requires n <= |buckets| && buckets != []
    ensures LateUpTo(buckets, allowed, n) == Count(buckets[..n], (b: Bucket) => TooLate(b, allowed))
  {
    if n == 0 {
    } else {
      RoundIsCount(buckets, allowed, n - 1);
      SmallModulo(n - 1, |buckets|);
      assert buckets[..n] == buckets[..n - 1] + [buckets[n - 1]];
      CountSnoc(buckets[..n - 1], (b: Bucket) => TooLate(b, allowed), buckets[n - 1]);
    }
  }

  /** The order of the buckets does not matter for a whole round. */
  lemma SameRound(a: seq<Bucket>, b: seq<Bucket>, allowed: nat)
    requires multiset(a) == multiset(b) && a != [] && b != []
    ensures |a| == |b| && InRound(a, allowed) == InRound(b, allowed)
  {
    assert |multiset(a)| == |a| && |multiset(b)| == |b|;
    RoundIsCount(a, allowed, |a|);
    RoundIsCount(b, allowed, |b|);
    assert a[..|a|] == a && b[..|b|] == b;
    CountPermuted(a, b, (x: Bucket) => TooLate(x, allowed));
  }
}
