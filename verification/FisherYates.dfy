/** The shuffle of the partition cycle leads to every arrangement, and to each by one choice of draws. */
module FisherYates {
  import opened Apportionment
  import opened Division
  import opened WorkloadPlan

  /** From position `low` up the two draws choose the same places: position i any of 0..i. */
  predicate SamePlaces(counts: seq<int>, d1: Draw, d2: Draw, low: nat, n: nat)
    requires counts != []
  {
    forall i :: low <= i < n ==> d1(i, counts[i % |counts|]) % (i + 1) == d2(i, counts[i % |counts|]) % (i + 1)
  }

  lemma {:induction false} SamePlacesSameArray(s: seq<int>, counts: seq<int>, d1: Draw, d2: Draw, low: nat)
    requires counts != [] && SamePlaces(counts, d1, d2, low, |s|)
    ensures Shuffled(s, counts, d1, low) == Shuffled(s, counts, d2, low)
    decreases |s| - low
  {
    if low >= |s| {
    } else {
      SamePlacesSameArray(s, counts, d1, d2, low + 1);
    }
  }

  /** Later swaps leave the positions above them alone. */
  lemma {:induction false} TopIsFixed(s: seq<int>, counts: seq<int>, draw: Draw, low: nat, top: nat)
    requires counts != [] && low <= top <= |s|
    ensures Shuffled(s, counts, draw, low)[top..] == Shuffled(s, counts, draw, top)[top..]
    decreases top - low
  {
    if low == top {
    } else {
      TopIsFixed(s, counts, draw, low + 1, top);
      SwapBelow(Shuffled(s, counts, draw, low + 1), low, draw(low, counts[low % |counts|]) % (low + 1), top);
    }
  }

  lemma SwapBelow(s: seq<int>, i: nat, j: nat, top: nat)
    requires j <= i < top <= |s|
    ensures Swap(s, i, j)[top..] == s[top..]
  {
  }

  // ----- Every arrangement -----

  lemma SameBelow<T>(u: seq<T>, t: seq<T>, n: nat)
    requires multiset(u) == multiset(t) && n <= |u| && n <= |t| && u[n..] == t[n..]
    ensures multiset(u[..n]) == multiset(t[..n])
  {
    assert u == u[..n] + u[n..] && t == t[..n] + t[n..];
    assert multiset(u[..n]) == multiset(u) - multiset(u[n..]);
    assert multiset(t[..n]) == multiset(t) - multiset(t[n..]);
  }

  lemma PlaceOf(u: seq<int>, t: seq<int>, low: nat) returns (j: nat)
    requires multiset(u) == multiset(t) && |u| == |t| && low < |u| && u[low + 1..] == t[low + 1..]
    ensures j <= low && u[j] == t[low]
  {
    SameBelow(u, t, low + 1);
    assert t[..low + 1][low] == t[low];
    assert t[low] in multiset(u[..low + 1]);
    j :| 0 <= j < low + 1 && u[..low + 1][j] == t[low];
  }

  lemma SameSize(s: seq<int>, t: seq<int>)
    requires multiset(s) == multiset(t)
    ensures |s| == |t|
  {
    assert |multiset(s)| == |s| && |multiset(t)| == |t|;
  }

  function Chosen(upper: Draw, low: nat, j: nat): Draw { (i, x) => if i == low then j else upper(i, x) }

  /** Draws that go on as `upper` does and choose place `j` for position `low`. */
  lemma ChoosePlace(s: seq<int>, counts: seq<int>, upper: Draw, low: nat, j: nat, u: seq<int>)
    requires counts != [] && j <= low < |s| && u == Shuffled(s, counts, upper, low + 1)
    ensures Shuffled(s, counts, Chosen(upper, low, j), low) == Swap(u, low, j)
  {
    var draw := Chosen(upper, low, j);
    assert SamePlaces(counts, draw, upper, low + 1, |s|);
    SamePlacesSameArray(s, counts, draw, upper, low + 1);
    SmallModulo(j, low + 1);
    assert draw(low, counts[low % |counts|]) == j;
  }

  /** The array after the positions from `low` up have been settled as in `t`. */
  predicate Settled(s: seq<int>, t: seq<int>, counts: seq<int>, draw: Draw, low: nat, u: seq<int>)
    requires counts != []
  {
    && u == Shuffled(s, counts, draw, low) && multiset(u) == multiset(t)
    && low <= |u| == |t| == |s| && u[low..] == t[low..]
  }

  lemma OneDown(s: seq<int>, t: seq<int>, counts: seq<int>, upper: Draw, low: nat, u: seq<int>)
    returns (draw: Draw, v: seq<int>)
    requires counts != [] && Settled(s, t, counts, upper, low + 1, u)
    ensures Settled(s, t, counts, draw, low, v)
  {
    var j := PlaceOf(u, t, low);
    draw, v := Chosen(upper, low, j), Swap(u, low, j);
    ChoosePlace(s, counts, upper, low, j, u);
    SwapKeeps(u, low, j);
    SwapFills(u, t, low, j);
  }

  lemma AllSettled(s: seq<int>, t: seq<int>, counts: seq<int>, draw: Draw)
    requires counts != [] && multiset(s) == multiset(t) && |s| == |t|
    ensures Settled(s, t, counts, draw, |s|, s)
  {
  }

  lemma {:induction false} ReachesTop(s: seq<int>, t: seq<int>, counts: seq<int>, low: nat)
    returns (draw: Draw, u: seq<int>)
    requires counts != [] && multiset(s) == multiset(t) && |s| == |t| && low <= |s|
    ensures Settled(s, t, counts, draw, low, u)
    decreases |s| - low
  {
    if low == |s| {
      draw, u := (i, x) => 0, s;
      AllSettled(s, t, counts, draw);
    } else {
      var upper, above := ReachesTop(s, t, counts, low + 1);
      draw, u := OneDown(s, t, counts, upper, low, above);
    }
  }

  lemma SwapFills(u: seq<int>, t: seq<int>, low: nat, j: nat)
    requires |u| == |t| && j <= low < |u| && u[low + 1..] == t[low + 1..] && u[j] == t[low]
    ensures Swap(u, low, j)[low..] == t[low..]
  {
    var r := Swap(u, low, j);
    SwapBelow(u, low, j, low + 1);
    assert r[low..] == [r[low]] + r[low + 1..] && t[low..] == [t[low]] + t[low + 1..];
  }

  lemma LastPlace(u: seq<int>, t: seq<int>)
    requires multiset(u) == multiset(t) && |u| == |t| > 0 && u[1..] == t[1..]
    ensures u == t
  {
    var j := PlaceOf(u, t, 0);
    assert u == [u[0]] + u[1..] && t == [t[0]] + t[1..];
  }

  /** Every arrangement of the elements is what some draws make of them. */
  lemma EveryArrangement(s: seq<int>, t: seq<int>, counts: seq<int>) returns (draw: Draw)
    requires counts != [] && multiset(s) == multiset(t)
    ensures Shuffled(s, counts, draw, 1) == t
  {
    SameSize(s, t);
    if s == [] {
      draw := (i, x) => 0;
    } else {
      var u: seq<int>;
      draw, u := ReachesTop(s, t, counts, 1);
      LastPlace(u, t);
    }
  }

  // ----- By one choice of places -----

  predicate AllDifferent(s: seq<int>) { forall i, j :: 0 <= i < j < |s| ==> s[i] != s[j] }

  lemma {:induction false} OnceEach(s: seq<int>, x: int)
    requires AllDifferent(s)
    ensures multiset(s)[x] <= 1
    decreases |s|
  {
    if s == [] {
    } else {
      var before := s[..|s| - 1];
      OnceEach(before, x);
      assert s == before + [s[|s| - 1]];
      if s[|s| - 1] == x { assert x !in before; }
    }
  }

  lemma TwiceThere(s: seq<int>, i: nat, j: nat)
    requires i < j < |s| && s[i] == s[j]
    ensures multiset(s)[s[i]] >= 2
  {
    assert s == s[..j] + s[j..];
    assert s[..j][i] == s[i] && s[j..][0] == s[i];
  }

  lemma PermutedStaysDifferent(s: seq<int>, u: seq<int>)
    requires AllDifferent(s) && multiset(u) == multiset(s)
    ensures AllDifferent(u)
  {
    forall i, j | 0 <= i < j < |u| ensures u[i] != u[j] {
      if u[i] == u[j] {
        TwiceThere(u, i, j);
        OnceEach(s, u[i]);
        assert false;
      }
    }
  }

  /** Position `low` of the final array holds what stood at the drawn place. */
  lemma FilledByPlace(s: seq<int>, counts: seq<int>, draw: Draw, low: nat, u: seq<int>, j: nat)
    requires counts != [] && 1 <= low < |s| && u == Shuffled(s, counts, draw, low + 1)
    requires j == draw(low, counts[low % |counts|]) % (low + 1)
    ensures j < |u| && Shuffled(s, counts, draw, 1)[low] == u[j]
  {
    TopIsFixed(s, counts, draw, 1, low);
    var last, earlier := Shuffled(s, counts, draw, 1), Shuffled(s, counts, draw, low);
    assert earlier == Swap(u, low, j);
    assert last[low..][0] == earlier[low..][0];
  }

  lemma OnePlace(u: seq<int>, i: nat, j: nat)
    requires AllDifferent(u) && i < |u| && j < |u| && u[i] == u[j]
    ensures i == j
  {
  }

  /** What stands at position `low` in the end tells the place that was drawn for it. */
  lemma PlaceTold(s: seq<int>, counts: seq<int>, d1: Draw, d2: Draw, low: nat, u: seq<int>, j1: nat, j2: nat)
    requires counts != [] && AllDifferent(u) && 1 <= low < |s|
    requires u == Shuffled(s, counts, d1, low + 1) && u == Shuffled(s, counts, d2, low + 1)
    requires Shuffled(s, counts, d1, 1)[low] == Shuffled(s, counts, d2, 1)[low]
    requires j1 == d1(low, counts[low % |counts|]) % (low + 1) && j2 == d2(low, counts[low % |counts|]) % (low + 1)
    ensures j1 == j2
  {
    FilledByPlace(s, counts, d1, low, u, j1);
    FilledByPlace(s, counts, d2, low, u, j2);
    OnePlace(u, j1, j2);
  }

  lemma StaysDifferent(s: seq<int>, counts: seq<int>, draw: Draw, low: nat)
    requires counts != [] && AllDifferent(s)
    ensures AllDifferent(Shuffled(s, counts, draw, low))
  {
    ShuffleKeeps(s, counts, draw, low);
    PermutedStaysDifferent(s, Shuffled(s, counts, draw, low));
  }

  lemma {:induction false} ArrayTellsPlaces(s: seq<int>, counts: seq<int>, d1: Draw, d2: Draw, low: nat)
    requires counts != [] && AllDifferent(s) && 1 <= low
    requires Shuffled(s, counts, d1, 1) == Shuffled(s, counts, d2, 1)
    ensures SamePlaces(counts, d1, d2, low, |s|)
    decreases |s| - low
  {
    if low >= |s| {
    } else {
      ArrayTellsPlaces(s, counts, d1, d2, low + 1);
      SamePlacesSameArray(s, counts, d1, d2, low + 1);
      StaysDifferent(s, counts, d1, low + 1);
      PlaceTold(s, counts, d1, d2, low, Shuffled(s, counts, d1, low + 1),
                d1(low, counts[low % |counts|]) % (low + 1), d2(low, counts[low % |counts|]) % (low + 1));
    }
  }

  /** Of elements all different two draws make the same arrangement if and only if they choose the same
      place for every position from 1 up. */
  lemma ArrangementTellsDraws(s: seq<int>, counts: seq<int>, d1: Draw, d2: Draw)
    requires counts != [] && AllDifferent(s)
    ensures Shuffled(s, counts, d1, 1) == Shuffled(s, counts, d2, 1) <==>
      forall i :: 1 <= i < |s| ==> d1(i, counts[i % |counts|]) % (i + 1) == d2(i, counts[i % |counts|]) % (i + 1)
  {
    if Shuffled(s, counts, d1, 1) == Shuffled(s, counts, d2, 1) {
      ArrayTellsPlaces(s, counts, d1, d2, 1);
    }
    if SamePlaces(counts, d1, d2, 1, |s|) {
      SamePlacesSameArray(s, counts, d1, d2, 1);
    }
  }

  // ----- The cycle -----

  /** Every arrangement with the apportioned multiplicities is the cycle of some draws. */
  lemma EveryCycle(d: Distribution, t: seq<int>) returns (draw: Draw)
    requires Servable(d.split) && |d.partitions| == |d.split.nums| > 0
    requires multiset(t) == multiset(Expanded(d.partitions, Apportion(d.split), |Apportion(d.split)|))
    ensures Cycle(d, draw) == t
  {
    var counts := Apportion(d.split);
    draw := EveryArrangement(Expanded(d.partitions, counts, |counts|), t, counts);
  }
}
