/** When the validator's closed form and the generator's enumeration agree: the exact condition. */
module LatenessExact {
  import opened Counting
  import opened Division
  import opened Lateness

  /** The condition on the numbers of buckets, users and events. */
  predicate Compatible(size: nat, users: nat, events: nat)
    requires size > 0 && users > 0
  {
    && events % size == 0
    && (users % size == 0 || users % size == 1 || events / users % size == 0 || events / users % size == size - 1)
  }

  predicate Agrees(buckets: seq<Bucket>, names: seq<string>, allowed: nat, users: nat, events: nat)
    requires buckets != [] && users > 0 && Pattern(buckets, names).Success?
  {
    GeneratedLate(Pattern(buckets, names).value, allowed, users, events) == ClosedForm(buckets, allowed, events)
  }

  /** A legal profile: uniquely named buckets and an order the generator accepts. */
  predicate Legal(buckets: seq<Bucket>, names: seq<string>, size: nat) {
    |buckets| == size && Unique(Names(buckets)) && Pattern(buckets, names).Success?
  }

  /** The two agree for every legal profile of that many buckets and every allowance. */
  ghost predicate AlwaysAgree(size: nat, users: nat, events: nat)
    requires size > 0 && users > 0
  {
    forall buckets, names, allowed :: Legal(buckets, names, size) ==> Agrees(buckets, names, allowed, users, events)
  }

  // ----- Sufficient -----

  /** What the generator sends in `events` events is `rounds` whole rounds of the pattern. */
  ghost predicate SendsRounds(pattern: seq<Bucket>, allowed: nat, users: nat, events: nat, rounds: int)
    requires pattern != [] && users > 0
  {
    events == rounds * |pattern| && GeneratedLate(pattern, allowed, users, events) == rounds * InRound(pattern, allowed)
  }

  /** `events` as full rows and the beginning of one more. */
  predicate InRows(users: nat, rows: nat, rest: nat, events: nat) { events == rows * users + rest && rest < users }

  lemma Whole(n: nat, size: nat) returns (k: nat)
    requires size > 0 && n % size == 0
    ensures n == k * size
  {
    k := n / size;
    Parts(n, size);
  }

  /** Rows of whole rounds. */
  lemma UsersAreRounds(pattern: seq<Bucket>, allowed: nat, users: nat, rows: nat, rest: nat, events: nat)
    returns (rounds: int)
    requires pattern != [] && users > 0 && users % |pattern| == 0 && events % |pattern| == 0
    requires InRows(users, rows, rest, events)
    ensures SendsRounds(pattern, allowed, users, events, rounds)
  {
    var size, late := |pattern|, InRound(pattern, allowed);
    var u := Whole(users, size);
    Associate(rows, u, size);
    Associate(rows, u, late);
    WholeRounds(rows * u, size, rest);
    var r := Whole(rest, size);
    rounds := rows * u + r;
    Times(rows * u, r, size);
    Times(rows * u, r, late);
    GeneratedInRows(pattern, allowed, users, rows, rest, events);
    RowsOfRounds(pattern, allowed, u, rows);
    LateAt(pattern, allowed, r, rows, rows + rest);
  }

  lemma Associate(a: int, b: int, c: int)
    ensures a * (b * c) == a * b * c
  {
  }

  /** Rows one longer than whole rounds begin where the row before ended. */
  lemma {:induction false} RowsOneLonger(pattern: seq<Bucket>, allowed: nat, rounds: nat, rows: nat, users: nat)
    requires pattern != [] && users == rounds * |pattern| + 1
    ensures Rows(pattern, allowed, users, rows) == rows * (rounds * InRound(pattern, allowed)) + LateUpTo(pattern, allowed, rows)
    decreases rows
  {
    if rows == 0 {
    } else {
      RowsOneLonger(pattern, allowed, rounds, rows - 1, users);
      LateAt(pattern, allowed, rounds, rows, rows - 1 + users);
      OneLess(rows, rounds * InRound(pattern, allowed));
    }
  }

  lemma UsersAreOneMore(pattern: seq<Bucket>, allowed: nat, users: nat, rows: nat, rest: nat, events: nat)
    returns (rounds: int)
    requires pattern != [] && users > 0 && users % |pattern| == 1 && events % |pattern| == 0
    requires InRows(users, rows, rest, events)
    ensures SendsRounds(pattern, allowed, users, events, rounds)
  {
    var size, late := |pattern|, InRound(pattern, allowed);
    var u := users / size;
    Parts(users, size);
    Times(rows * u, 1, rows);
    assert rows * users == rows * (u * size) + rows by { Distribute(rows, u * size, 1); }
    Associate(rows, u, size);
    Associate(rows, u, late);
    WholeRounds(rows * u, size, rows + rest);
    var r := Whole(rows + rest, size);
    rounds := rows * u + r;
    Times(rows * u, r, size);
    Times(rows * u, r, late);
    GeneratedInRows(pattern, allowed, users, rows, rest, events);
    RowsOneLonger(pattern, allowed, u, rows, users);
    LateAt(pattern, allowed, r, 0, rows + rest);
  }

  lemma Distribute(a: int, b: int, c: int)
    ensures a * (b + c) == a * b + a * c
    ensures a * (b - c) == a * b - a * c
  {
  }

  /** A whole number of rounds of rows. */
  lemma RowsAreRounds(pattern: seq<Bucket>, allowed: nat, users: nat, rows: nat, rest: nat, events: nat)
    returns (rounds: int)
    requires pattern != [] && users > 0 && rows % |pattern| == 0 && events % |pattern| == 0
    requires InRows(users, rows, rest, events)
    ensures SendsRounds(pattern, allowed, users, events, rounds)
  {
    var size, late := |pattern|, InRound(pattern, allowed);
    var k := Whole(rows, size);
    Associate(users, k, size);
    Associate(users, k, late);
    assert rows * users == users * k * size;
    WholeRounds(users * k, size, rest);
    var r := Whole(rest, size);
    rounds := users * k + r;
    Times(users * k, r, size);
    Times(users * k, r, late);
    GeneratedInRows(pattern, allowed, users, rows, rest, events);
    ColumnsOfRounds(pattern, allowed, users, k);
    LateAt(pattern, allowed, r, rows, rows + rest);
  }

  /** One row short of a whole number of rounds of rows. */
  lemma RowsAreOneShort(pattern: seq<Bucket>, allowed: nat, users: nat, rows: nat, rest: nat, events: nat)
    returns (rounds: int)
    requires pattern != [] && users > 0 && rows % |pattern| == |pattern| - 1 && events % |pattern| == 0
    requires InRows(users, rows, rest, events)
    ensures SendsRounds(pattern, allowed, users, events, rounds)
  {
    var size, late := |pattern|, InRound(pattern, allowed);
    NextDivision(rows, size);
    var k := Whole(rows + 1, size);
    var missing := users - rest;
    assert (rows + 1) * users == rows * users + users by { Times(rows, 1, users); }
    assert (rows + 1) * users == users * k * size by { Associate(users, k, size); }
    assert users * k * size == events + missing;
    SumModulo(events, missing, size);
    WholeRounds(users * k, size, 0);
    DivisionIs(0, size, 0, 0);
    var r := Whole(missing, size);
    rounds := users * k - r;
    Times(users * k, -r, size);
    Times(users * k, -r, late);
    assert -r * size == -(r * size) && -r * late == -(r * late);
    Associate(users, k, late);
    GeneratedInRows(pattern, allowed, users, rows, rest, events);
    ColumnsOfRounds(pattern, allowed, users, k);
    LateAt(pattern, allowed, r, rows + rest, rows + users);
  }

  lemma CompatibleSendsRounds(pattern: seq<Bucket>, allowed: nat, users: nat, events: nat) returns (rounds: int)
    requires pattern != [] && users > 0 && Compatible(|pattern|, users, events)
    ensures SendsRounds(pattern, allowed, users, events, rounds)
  {
    var rows, rest := events / users, events % users;
    Parts(events, users);
    if users % |pattern| == 0 {
      rounds := UsersAreRounds(pattern, allowed, users, rows, rest, events);
    } else if users % |pattern| == 1 {
      rounds := UsersAreOneMore(pattern, allowed, users, rows, rest, events);
    } else if rows % |pattern| == 0 {
      rounds := RowsAreRounds(pattern, allowed, users, rows, rest, events);
    } else {
      rounds := RowsAreOneShort(pattern, allowed, users, rows, rest, events);
    }
  }

  /** Under the condition the closed form is what the generator sends. */
  lemma ClosedFormIsGenerated(buckets: seq<Bucket>, names: seq<string>, allowed: nat, users: nat, events: nat)
    requires buckets != [] && users > 0 && Legal(buckets, names, |buckets|)
    requires Compatible(|buckets|, users, events)
    ensures Agrees(buckets, names, allowed, users, events)
  {
    var pattern := Pattern(buckets, names).value;
    PatternIsPermutation(buckets, names);
    SameRound(pattern, buckets, allowed);
    ClosedFormCounts(buckets, allowed, events);
    var rounds := CompatibleSendsRounds(pattern, allowed, users, events);
    SignOfRounds(rounds, |buckets|);
    LateAt(buckets, allowed, rounds, 0, events);
  }

  lemma SignOfRounds(rounds: int, size: nat)
    requires size > 0
    ensures rounds * size >= 0 ==> rounds >= 0
  {
    if rounds < 0 { SmallProduct(rounds, size); }
  }

  // ----- Necessary: one late bucket -----

  /** Just the k-th bucket is late. */
  predicate OnlyLate(buckets: seq<Bucket>, allowed: nat, k: nat) {
    k < |buckets| && forall i :: 0 <= i < |buckets| ==> (TooLate(buckets[i], allowed) <==> i == k)
  }

  lemma {:induction false} OneLateShare(buckets: seq<Bucket>, allowed: nat, k: nat, n: nat)
    requires OnlyLate(buckets, allowed, k)
    ensures LateUpTo(buckets, allowed, n) == RoundShare(n, |buckets|, k)
  {
    if n == 0 {
    } else {
      OneLateShare(buckets, allowed, k, n - 1);
      Parts(n - 1, |buckets|);
    }
  }

  /** How often `rows` full rows fall on place k. */
  function RowShares(size: nat, users: nat, rows: nat, k: nat): int
    requires size > 0
  {
    if rows == 0 then 0
    else RowShares(size, users, rows - 1, k) + RoundShare(rows - 1 + users, size, k) - RoundShare(rows - 1, size, k)
  }

  /** How often the generator's events fall on place k. */
  function PlaceShare(size: nat, users: nat, events: nat, k: nat): int
    requires size > 0 && users > 0
  {
    var rows, rest := events / users, events % users;
    RowShares(size, users, rows, k) + RoundShare(rows + rest, size, k) - RoundShare(rows, size, k)
  }

  lemma {:induction false} OneLateRows(pattern: seq<Bucket>, allowed: nat, users: nat, rows: nat, k: nat)
    requires OnlyLate(pattern, allowed, k)
    ensures Rows(pattern, allowed, users, rows) == RowShares(|pattern|, users, rows, k)
  {
    if rows == 0 {
    } else {
      OneLateRows(pattern, allowed, users, rows - 1, k);
      OneLateShare(pattern, allowed, k, rows - 1 + users);
      OneLateShare(pattern, allowed, k, rows - 1);
    }
  }

  lemma OneLateGenerated(pattern: seq<Bucket>, allowed: nat, users: nat, events: nat, k: nat)
    requires OnlyLate(pattern, allowed, k) && users > 0
    ensures GeneratedLate(pattern, allowed, users, events) == PlaceShare(|pattern|, users, events, k)
  {
    var rows, rest := events / users, events % users;
    Parts(events, users);
    GeneratedInRows(pattern, allowed, users, rows, rest, events);
    OneLateRows(pattern, allowed, users, rows, k);
    OneLateShare(pattern, allowed, k, rows + rest);
    OneLateShare(pattern, allowed, k, rows);
  }

  // ----- Necessary: a profile with its late bucket at any place -----

  function Mark(i: nat): (s: string)
    ensures |s| == i
  {
    seq(i, _ => 'x')
  }

  /** `size` buckets of which the j-th is late. */
  function Sample(size: nat, j: nat): (buckets: seq<Bucket>)
    ensures |buckets| == size
  {
    seq(size, i requires 0 <= i < size => Bucket(Mark(i), if i == j then 1 else 0))
  }

  function Exchange(i: nat, j: nat, k: nat): nat { if i == j then k else if i == k then j else i }

  /** The order that puts the j-th bucket at place k. */
  function ExchangedNames(size: nat, j: nat, k: nat): (names: seq<string>)
    ensures |names| == size
  {
    seq(size, i requires 0 <= i < size => Mark(Exchange(i, j, k)))
  }

  lemma ExchangedDiffer(size: nat, j: nat, k: nat)
    requires j < size && k < size
    ensures Unique(ExchangedNames(size, j, k))
  {
    var names := ExchangedNames(size, j, k);
    forall a, b | 0 <= a < b < size ensures names[a] != names[b] {
      assert |names[a]| == Exchange(a, j, k) && |names[b]| == Exchange(b, j, k);
    }
  }

  lemma SampleNamesDiffer(size: nat, j: nat)
    ensures Unique(Names(Sample(size, j)))
  {
    var names := Names(Sample(size, j));
    forall a, b | 0 <= a < b < size ensures names[a] != names[b] {
      assert |names[a]| == a && |names[b]| == b;
    }
  }

  lemma SampleNamesKnown(size: nat, j: nat, k: nat)
    requires j < size && k < size
    ensures Known(Sample(size, j), ExchangedNames(size, j, k))
  {
    var names := Names(Sample(size, j));
    forall i | 0 <= i < size ensures ExchangedNames(size, j, k)[i] in names {
      assert names[Exchange(i, j, k)] == ExchangedNames(size, j, k)[i];
    }
  }

  lemma SampleIsLegal(size: nat, j: nat, k: nat)
    requires j < size && k < size
    ensures Legal(Sample(size, j), ExchangedNames(size, j, k), size)
    ensures OnlyLate(Sample(size, j), 0, j)
  {
    ExchangedDiffer(size, j, k);
    SampleNamesDiffer(size, j);
    SampleNamesKnown(size, j, k);
    PatternIsPermutation(Sample(size, j), ExchangedNames(size, j, k));
  }

  lemma SamplePattern(size: nat, j: nat, k: nat)
    requires j < size && k < size
    ensures Legal(Sample(size, j), ExchangedNames(size, j, k), size)
    ensures OnlyLate(Pattern(Sample(size, j), ExchangedNames(size, j, k)).value, 0, k)
    ensures |Pattern(Sample(size, j), ExchangedNames(size, j, k)).value| == size
  {
    var buckets, names := Sample(size, j), ExchangedNames(size, j, k);
    SampleIsLegal(size, j, k);
    var pattern := Pattern(buckets, names).value;
    forall i | 0 <= i < size ensures TooLate(pattern[i], 0) <==> i == k {
      NamedInOrder(buckets, names, i);
      assert pattern[i] == Named(buckets, names)[i];
      var x :| 0 <= x < size && buckets[x] == pattern[i];
      assert |pattern[i].name| == x == Exchange(i, j, k);
    }
  }

  /** Agreement on that profile equates a place of the pattern with a place of the round. */
  lemma AgreementEquates(size: nat, users: nat, events: nat, j: nat, k: nat)
    requires size > 0 && users > 0 && AlwaysAgree(size, users, events) && j < size && k < size
    ensures PlaceShare(size, users, events, k) == RoundShare(events, size, j)
  {
    var buckets, names := Sample(size, j), ExchangedNames(size, j, k);
    SamplePattern(size, j, k);
    SampleIsLegal(size, j, k);
    assert Agrees(buckets, names, 0, users, events);
    OneLateGenerated(Pattern(buckets, names).value, 0, users, events, k);
    ClosedFormCounts(buckets, 0, events);
    OneLateShare(buckets, 0, j, events);
  }

  // ----- Necessary: neighbouring places -----

  function Previous(size: nat, k: nat): nat
    requires size > 0
  {
    if k == 0 then size - 1 else k - 1
  }

  lemma ShareStep(n: nat, size: nat, k: nat)
    requires k < size
    ensures RoundShare(n, size, k) - RoundShare(n, size, Previous(size, k)) == One(k == 0) - One(n % size == k)
  {
    RoundShareIs(n, size, k);
    RoundShareIs(n, size, Previous(size, k));
    Parts(n, size);
  }

  lemma {:induction false} RowSharesStep(size: nat, users: nat, rows: nat, k: nat)
    requires k < size
    ensures RowShares(size, users, rows, k) - RowShares(size, users, rows, Previous(size, k)) ==
      RoundShare(rows, size, k) - RoundShare(rows + users, size, k) + RoundShare(users, size, k)
  {
    if rows == 0 {
    } else {
      RowSharesStep(size, users, rows - 1, k);
      ShareStep(rows - 1 + users, size, k);
      ShareStep(rows - 1, size, k);
    }
  }

  /** Neighbouring places get equally much just when three shares balance. */
  lemma PlaceStep(size: nat, users: nat, events: nat, k: nat)
    requires k < size && users > 0
    ensures
      var rows, rest := events / users, events % users;
      PlaceShare(size, users, events, k) - PlaceShare(size, users, events, Previous(size, k)) ==
        RoundShare(rows + 1, size, k) + RoundShare(users, size, k) - RoundShare(rows + users, size, k)
        - One((rows + rest) % size == k)
  {
    var rows, rest := events / users, events % users;
    Parts(events, users);
    RowSharesStep(size, users, rows, k);
    ShareStep(rows + rest, size, k);
    ShareStep(rows, size, k);
  }

  /** The balance at place k, by remainders. */
  predicate Balanced(r: nat, b: nat, s: nat, t: nat, level: int, k: nat) {
    level + One(k < r) + One(k < b) - One(k < s) == One(t == k)
  }

  lemma BalanceAt(size: nat, users: nat, events: nat, k: nat)
    requires k < size && users > 0
    requires PlaceShare(size, users, events, k) == PlaceShare(size, users, events, Previous(size, k))
    ensures
      var rows, rest := events / users, events % users;
      var level := (rows + 1) / size + users / size - (rows + users) / size;
      Balanced((rows + 1) % size, users % size, (rows + users) % size, (rows + rest) % size, level, k)
  {
    var rows := events / users;
    Parts(events, users);
    PlaceStep(size, users, events, k);
    RoundShareIs(rows + 1, size, k);
    RoundShareIs(users, size, k);
    RoundShareIs(rows + users, size, k);
  }

  /** With no term of the balance at its edge, places 0, 1 and the last cannot all balance. */
  lemma CannotBalance(size: nat, a: nat, b: nat, s: nat, t: nat, level: int)
    requires 1 <= a <= size - 2 && 2 <= b < size
    requires s == if a + b < size then a + b else a + b - size
    ensures !(Balanced(a + 1, b, s, t, level, 0) && Balanced(a + 1, b, s, t, level, 1) && Balanced(a + 1, b, s, t, level, size - 1))
  {
  }

  lemma RowsCannotBalance(size: nat, rows: nat, users: nat, t: nat)
    requires size > 0 && 1 <= rows % size <= size - 2 && 2 <= users % size
    ensures
      var r, b, s, level := (rows + 1) % size, users % size, (rows + users) % size, (rows + 1) / size + users / size - (rows + users) / size;
      !(Balanced(r, b, s, t, level, 0) && Balanced(r, b, s, t, level, 1) && Balanced(r, b, s, t, level, size - 1))
  {
    var level := (rows + 1) / size + users / size - (rows + users) / size;
    NextDivision(rows, size);
    SumModulo(rows, users, size);
    Parts(users, size);
    CannotBalance(size, rows % size, users % size, (rows + users) % size, t, level);
  }

  lemma AgreementNeedsRounds(size: nat, users: nat, events: nat)
    requires size > 0 && users > 0 && AlwaysAgree(size, users, events)
    ensures events % size == 0
  {
    AgreementEquates(size, users, events, 0, 0);
    AgreementEquates(size, users, events, size - 1, 0);
    RoundShareIs(events, size, 0);
    RoundShareIs(events, size, size - 1);
    Parts(events, size);
  }

  lemma AgreementNeedsAnEdge(size: nat, users: nat, events: nat)
    requires size > 0 && users > 0 && AlwaysAgree(size, users, events)
    ensures !(1 <= events / users % size <= size - 2 && 2 <= users % size)
  {
    var rows := events / users;
    Parts(events, users);
    if 1 <= rows % size <= size - 2 && 2 <= users % size {
      Parts(rows, size);
      forall k | k == 0 || k == 1 || k == size - 1
        ensures PlaceShare(size, users, events, k) == PlaceShare(size, users, events, Previous(size, k))
      {
        AgreementEquates(size, users, events, 0, k);
        AgreementEquates(size, users, events, 0, Previous(size, k));
      }
      RowsCannotBalance(size, rows, users, (rows + events % users) % size);
      BalanceAt(size, users, events, 0);
      BalanceAt(size, users, events, 1);
      BalanceAt(size, users, events, size - 1);
    }
  }

  lemma AgreementNeeds(size: nat, users: nat, events: nat)
    requires size > 0 && users > 0 && AlwaysAgree(size, users, events)
    ensures Compatible(size, users, events)
  {
    AgreementNeedsRounds(size, users, events);
    AgreementNeedsAnEdge(size, users, events);
    Parts(users, size);
    Parts(events, users);
    Parts(events / users, size);
  }

  // ----- Main result -----

  /** The closed form is what the generator sends, for every legal profile of `size` buckets and every
      allowance, if and only if the numbers are compatible. */
  lemma AgreementIff(size: nat, users: nat, events: nat)
    requires size > 0 && users > 0
    ensures AlwaysAgree(size, users, events) <==> Compatible(size, users, events)
  {
    if AlwaysAgree(size, users, events) { AgreementNeeds(size, users, events); }
    if Compatible(size, users, events) {
      forall buckets, names, allowed | Legal(buckets, names, size) ensures Agrees(buckets, names, allowed, users, events) {
        ClosedFormIsGenerated(buckets, names, allowed, users, events);
      }
    }
  }

  /** An instance outside the condition: two buckets, two users, three events. */
  lemma OddEventsDisagree()
    ensures
      var buckets := [Bucket("ON_TIME", 0), Bucket("TOO_LATE", 600)];
      && !Compatible(2, 2, 3) && Pattern(buckets, []) == Success(buckets)
      && GeneratedLate(buckets, 300, 2, 3) == 2 && ClosedForm(buckets, 300, 3) == 1
  {
    var buckets := [Bucket("ON_TIME", 0), Bucket("TOO_LATE", 600)];
    NothingNamed(buckets);
    assert Named(buckets, []) + buckets == buckets;
    assert GeneratedLate(buckets, 300, 2, 1) == 0;
    assert GeneratedLate(buckets, 300, 2, 2) == 1;
    assert LateUpTo(buckets, 300, 1) == 0;
    assert LateUpTo(buckets, 300, 2) == 1;
  }
}
