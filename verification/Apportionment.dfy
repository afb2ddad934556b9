/** Largest-remainder apportionment: how a total is split by shares into whole counts. Share `i` is
    the exact rational nums[i] / den. */
module Apportionment {
  import opened Division

  function Sum(s: seq<int>): int { if s == [] then 0 else Sum(s[..|s| - 1]) + s[|s| - 1] }

  function Abs(x: int): nat { if x < 0 then -x else x }

  /** A split of `total` by shares; `floors` and `rests` are its quotas' integer and fractional parts. */
  datatype Split = Split(nums: seq<nat>, den: nat, total: nat) {
    predicate Valid() { den > 0 }

    function Floors(): (f: seq<int>)
      requires Valid()
      ensures |f| == |nums|
    {
      seq(|nums|, i requires 0 <= i < |nums| => nums[i] * total / den)
    }

    /** Remainders in units of 1 / den. */
    function Rests(): (r: seq<int>)
      requires Valid()
      ensures |r| == |nums|
    {
      seq(|nums|, i requires 0 <= i < |nums| => nums[i] * total % den)
    }

    function Leftover(): int
      requires Valid()
    {
      total - Sum(Floors())
    }

    predicate Complete() { Valid() && Sum(nums) == den }
  }

  // ----- The order in which leftovers are handed out -----

  /** Larger remainder first, lower index first among equals. */
  predicate Before(rests: seq<int>, i: nat, j: nat)
    requires i < |rests| && j < |rests|
  {
    rests[i] > rests[j] || (rests[i] == rests[j] && i < j)
  }

  predicate Indices(order: seq<nat>, n: nat) { forall k :: 0 <= k < |order| ==> order[k] < n }

  function Insert(rests: seq<int>, order: seq<nat>, i: nat): (o: seq<nat>)
    requires i < |rests| && Indices(order, |rests|)
    ensures Indices(o, |rests|) && |o| == |order| + 1
  {
    if order == [] then [i]
    else if Before(rests, i, order[0]) then [i] + order
    else [order[0]] + Insert(rests, order[1..], i)
  }

  /** The first `n` indices in hand-out order. */
  function Order(rests: seq<int>, n: nat): (o: seq<nat>)
    requires n <= |rests|
    ensures Indices(o, |rests|) && |o| == n
  {
    if n == 0 then [] else Insert(rests, Order(rests, n - 1), n - 1)
  }

  predicate Descending(rests: seq<int>, order: seq<nat>)
    requires Indices(order, |rests|)
  {
    forall a, b :: 0 <= a < b < |order| ==> Before(rests, order[a], order[b])
  }

  function SumAt(rests: seq<int>, order: seq<nat>): int
    requires Indices(order, |rests|)
  {
    if order == [] then 0 else rests[order[0]] + SumAt(rests, order[1..])
  }

  lemma {:induction false} InsertMembers(rests: seq<int>, order: seq<nat>, i: nat, j: nat)
    requires i < |rests| && Indices(order, |rests|)
    ensures j in Insert(rests, order, i) <==> j == i || j in order
  {
    if order == [] || Before(rests, i, order[0]) {
    } else {
      InsertMembers(rests, order[1..], i, j);
      assert order == [order[0]] + order[1..];
    }
  }

  lemma {:induction false} InsertSum(rests: seq<int>, order: seq<nat>, i: nat)
    requires i < |rests| && Indices(order, |rests|)
    ensures SumAt(rests, Insert(rests, order, i)) == rests[i] + SumAt(rests, order)
  {
    if order == [] {
    } else {
      if Before(rests, i, order[0]) {
        assert ([i] + order)[1..] == order;
      } else {
        InsertSum(rests, order[1..], i);
        assert Insert(rests, order, i)[1..] == Insert(rests, order[1..], i);
      }
    }
  }

  lemma {:induction false} InsertDescends(rests: seq<int>, order: seq<nat>, i: nat)
    requires i < |rests| && Indices(order, |rests|) && Descending(rests, order) && i !in order
    ensures Descending(rests, Insert(rests, order, i))
  {
    if order == [] || Before(rests, i, order[0]) {
    } else {
      var rest := Insert(rests, order[1..], i);
      InsertDescends(rests, order[1..], i);
      forall b | 0 <= b < |rest| ensures Before(rests, order[0], rest[b]) {
        InsertMembers(rests, order[1..], i, rest[b]);
        if rest[b] != i {
          var k :| 0 <= k < |order[1..]| && order[1..][k] == rest[b];
          assert order[k + 1] == rest[b];
        }
      }
    }
  }

  lemma {:induction false} OrderMembers(rests: seq<int>, n: nat, order: seq<nat>)
    requires n <= |rests| && order == Order(rests, n)
    ensures forall j: nat :: j in order <==> j < n
    decreases n
  {
    if n == 0 {
    } else {
      var before := Order(rests, n - 1);
      OrderMembers(rests, n - 1, before);
      forall j: nat ensures j in order <==> j < n { InsertMembers(rests, before, n - 1, j); }
    }
  }

  lemma {:induction false} OrderFacts(rests: seq<int>, n: nat, order: seq<nat>)
    requires n <= |rests| && order == Order(rests, n)
    ensures Descending(rests, order) && SumAt(rests, order) == Sum(rests[..n])
    ensures forall j: nat :: j in order <==> j < n
    decreases n
  {
    OrderMembers(rests, n, order);
    if n == 0 {
    } else {
      var before := Order(rests, n - 1);
      OrderFacts(rests, n - 1, before);
      InsertSum(rests, before, n - 1);
      InsertDescends(rests, before, n - 1);
      assert rests[..n][..n - 1] == rests[..n - 1];
    }
  }

  // ----- Handing out -----

  /** One more for each of the first `given` turns, going round again after the last. */
  function HandOut(counts: seq<int>, order: seq<nat>, given: int): (r: seq<int>)
    requires Indices(order, |counts|) && (given > 0 ==> order != [])
    ensures |r| == |counts|
  {
    if given <= 0 then counts
    else
      var before := HandOut(counts, order, given - 1);
      var i := order[(given - 1) % |order|];
      before[i := before[i] + 1]
  }

  predicate Servable(split: Split) { split.Valid() && (split.nums == [] ==> split.total == 0) }

  function Apportion(split: Split): (counts: seq<int>)
    requires Servable(split)
    ensures |counts| == |split.nums|
  {
    HandOut(split.Floors(), Order(split.Rests(), |split.nums|), split.Leftover())
  }

  /** The loop. An empty list of shares fails only when there is something to hand out. */
  method BuildShareCounts(split: Split) returns (counts: seq<int>)
    requires Servable(split)
    ensures counts == Apportion(split)
  {
    counts := split.Floors();
    var remaining := split.total - Sum(counts);
    var remainders := Order(split.Rests(), |split.nums|);
    var index := 0;
    while remaining > 0
      invariant 0 <= index && |counts| == |split.nums| && index + remaining == split.Leftover()
      invariant remaining >= 0 || index == 0
      invariant counts == HandOut(split.Floors(), remainders, index)
    {
      var i := remainders[index % |remainders|];
      counts := counts[i := counts[i] + 1];
      remaining := remaining - 1;
      index := index + 1;
    }
  }

  lemma {:induction false} SumWrite(s: seq<int>, i: nat, v: int)
    requires i < |s|
    ensures Sum(s[i := v]) == Sum(s) - s[i] + v
    decreases |s|
  {
    if i == |s| - 1 {
      assert s[i := v][..i] == s[..i];
    } else {
      SumWrite(s[..|s| - 1], i, v);
      assert s[i := v][..|s| - 1] == s[..|s| - 1][i := v];
    }
  }

  lemma {:induction false} HandOutSum(counts: seq<int>, order: seq<nat>, given: nat)
    requires Indices(order, |counts|) && (given > 0 ==> order != [])
    ensures Sum(HandOut(counts, order, given)) == Sum(counts) + given
  {
    if given == 0 {
    } else {
      HandOutSum(counts, order, given - 1);
      var before, i := HandOut(counts, order, given - 1), order[(given - 1) % |order|];
      SumWrite(before, i, before[i] + 1);
    }
  }

  /** Before the turns wrap, an index has got one exactly if its turn has come. */
  lemma {:induction false} HandOutOnce(counts: seq<int>, order: seq<nat>, given: nat, i: nat)
    requires Indices(order, |counts|) && given <= |order| && i < |counts|
    requires forall a, b :: 0 <= a < b < |order| ==> order[a] != order[b]
    ensures HandOut(counts, order, given)[i] == counts[i] + if i in order[..given] then 1 else 0
  {
    if given == 0 {
    } else {
      HandOutOnce(counts, order, given - 1, i);
      NextTurn(order, given - 1, i);
      SmallModulo(given - 1, |order|);
    }
  }

  lemma NextTurn(order: seq<nat>, k: nat, i: nat)
    requires k < |order|
    ensures i in order[..k + 1] <==> i in order[..k] || i == order[k]
    ensures (forall a, b :: 0 <= a < b < |order| ==> order[a] != order[b]) ==> order[k] !in order[..k]
  {
    assert order[..k + 1] == order[..k] + [order[k]];
  }

  // ----- Quotas -----

  lemma {:induction false} RestsAddUp(split: Split, n: nat)
    requires split.Valid() && n <= |split.nums|
    ensures Sum(split.Rests()[..n]) + split.den * Sum(split.Floors()[..n]) == split.total * Sum(split.nums[..n])
  {
    if n == 0 {
    } else {
      RestsAddUp(split, n - 1);
      var rests, floors, nums := split.Rests(), split.Floors(), split.nums;
      assert rests[..n][..n - 1] == rests[..n - 1];
      assert floors[..n][..n - 1] == floors[..n - 1];
      assert nums[..n][..n - 1] == nums[..n - 1];
      OneMoreQuota(split.den, split.total, nums[n - 1], Sum(rests[..n - 1]), Sum(floors[..n - 1]), Sum(nums[..n - 1]));
    }
  }

  lemma OneMoreQuota(den: nat, total: nat, num: nat, rests: int, floors: int, nums: int)
    requires den > 0 && rests + den * floors == total * nums
    ensures (rests + num * total % den) + den * (floors + num * total / den) == total * (nums + num)
  {
    var f, r := num * total / den, num * total % den;
    assert num * total == den * f + r;
    assert den * (floors + f) == den * floors + den * f;
    assert total * (nums + num) == total * nums + num * total;
  }

  /** With shares that add up to one, what is left over is the sum of the remainders. */
  lemma LeftoverIsRests(split: Split)
    requires split.Complete()
    ensures Sum(split.Rests()) == split.den * split.Leftover()
    ensures split.Leftover() >= 0
  {
    var n, rests, floors := |split.nums|, split.Rests(), split.Floors();
    RestsAddUp(split, n);
    assert rests[..n] == rests && floors[..n] == floors && split.nums[..n] == split.nums;
    OrderFacts(rests, n, Order(rests, n));
    RestsSmall(split, Order(rests, n));
    Distribute(split.den, split.total, Sum(floors), Sum(rests));
  }

  lemma Distribute(den: nat, total: nat, floors: int, rests: int)
    requires den > 0 && rests >= 0 && rests + den * floors == total * den
    ensures rests == den * (total - floors) && total - floors >= 0
  {
    assert den * (total - floors) == den * total - den * floors;
    SignOfFactor(den, total - floors);
  }

  lemma SignOfFactor(d: nat, x: int)
    requires d > 0
    ensures d * x >= 0 ==> x >= 0
  {
    if x < 0 { assert d * x <= d * -1; }
  }

  lemma {:induction false} RestsSmall(split: Split, order: seq<nat>)
    requires split.Valid() && Indices(order, |split.nums|)
    ensures 0 <= SumAt(split.Rests(), order) <= |order| * (split.den - 1)
  {
    if order == [] {
    } else {
      RestsSmall(split, order[1..]);
      assert 0 <= split.Rests()[order[0]] <= split.den - 1;
      OneMoreFactor(|order[1..]|, split.den - 1);
    }
  }

  lemma OneMoreFactor(n: nat, d: int)
    ensures (n + 1) * d == n * d + d
  {
  }

  lemma {:induction false} SumAtSplit(rests: seq<int>, order: seq<nat>, k: nat)
    requires Indices(order, |rests|) && k <= |order|
    ensures SumAt(rests, order) == SumAt(rests, order[..k]) + SumAt(rests, order[k..])
  {
    if k == 0 {
      assert order[0..] == order;
    } else {
      SumAtSplit(rests, order[1..], k - 1);
      assert order[..k][1..] == order[1..][..k - 1];
      assert order[1..][k - 1..] == order[k..];
    }
  }

  lemma {:induction false} NothingAt(rests: seq<int>, order: seq<nat>)
    requires Indices(order, |rests|) && forall k :: 0 <= k < |order| ==> rests[order[k]] <= 0
    ensures SumAt(rests, order) <= 0
  {
    if order == [] {
    } else {
      NothingAt(rests, order[1..]);
    }
  }

  /** Whoever gets one more has a positive remainder, and there are enough of those. */
  lemma TurnIsDeserved(split: Split, k: nat)
    requires split.Complete() && k < split.Leftover()
    ensures
      var order := Order(split.Rests(), |split.nums|);
      k < |order| && split.Rests()[order[k]] > 0
  {
    var rests, n := split.Rests(), |split.nums|;
    var order := Order(rests, n);
    OrderFacts(rests, n, Order(rests, n));
    LeftoverIsRests(split);
    assert rests[..n] == rests;
    if k >= |order| || rests[order[k]] <= 0 {
      var m := if k >= |order| then |order| else k;
      SumAtSplit(rests, order, m);
      RestsSmall(split, order[..m]);
      NothingAt(rests, order[m..]);
      TooFew(m, split.Leftover(), split.den);
    }
  }

  lemma TooFew(m: nat, left: nat, den: nat)
    requires m < left && den > 0
    ensures m * (den - 1) < den * left
  {
    assert m * (den - 1) <= m * den;
    assert m * den < left * den;
  }

  // ----- Main results -----

  /** The counts add up to the total; when the shares say more than the total, the floors stay. */
  lemma CountsAddUp(split: Split)
    requires Servable(split)
    ensures Sum(Apportion(split)) == if split.Leftover() >= 0 then split.total else Sum(split.Floors())
    ensures split.Complete() ==> Sum(Apportion(split)) == split.total
  {
    if split.Leftover() >= 0 {
      HandOutSum(split.Floors(), Order(split.Rests(), |split.nums|), split.Leftover());
    }
    if split.Complete() { LeftoverIsRests(split); }
  }

  /** The turns never wrap: at most one extra per index. */
  lemma NeverWraps(split: Split)
    requires split.Complete()
    ensures 0 <= split.Leftover() <= |split.nums|
  {
    LeftoverIsRests(split);
    if split.Leftover() > |split.nums| { TurnIsDeserved(split, |split.nums|); }
  }

  /** An index gets one more exactly if its turn is among the leftovers. */
  lemma ApportionedCount(split: Split, i: nat)
    requires split.Complete() && i < |split.nums|
    ensures 0 <= split.Leftover() <= |split.nums|
    ensures Servable(split)
    ensures Apportion(split)[i] == split.Floors()[i] +
      if i in Order(split.Rests(), |split.nums|)[..split.Leftover()] then 1 else 0
  {
    NeverWraps(split);
    OrderFacts(split.Rests(), |split.nums|, Order(split.Rests(), |split.nums|));
    HandOutOnce(split.Floors(), Order(split.Rests(), |split.nums|), split.Leftover(), i);
  }

  /** Each count is its quota rounded down or up: it differs from the quota by less than one. */
  lemma FloorOrCeiling(split: Split, i: nat)
    requires split.Complete() && i < |split.nums|
    ensures Servable(split)
    ensures
      var c, quota := Apportion(split)[i], split.nums[i] * split.total;
      (c - 1) * split.den < quota < (c + 1) * split.den
  {
    ApportionedCount(split, i);
    var order := Order(split.Rests(), |split.nums|)[..split.Leftover()];
    if i in order {
      var k :| 0 <= k < |order| && order[k] == i;
      TurnIsDeserved(split, k);
      assert split.Rests()[i] > 0;
    }
    Rounded(split.nums[i] * split.total, split.den, i in order);
  }

  lemma Rounded(quota: nat, den: nat, up: bool)
    requires den > 0 && (up ==> quota % den > 0)
    ensures
      var c := quota / den + if up then 1 else 0;
      (c - 1) * den < quota < (c + 1) * den
  {
    var f, r := quota / den, quota % den;
    assert quota == f * den + r;
    assert (f + 1) * den == f * den + den && (f - 1) * den == f * den - den && (f + 2) * den == f * den + 2 * den;
  }

  /** Total absolute distance of `y` from the quotas over the first `n` indices, in units of 1 / den. */
  function Distance(split: Split, y: seq<int>, n: nat): nat
    requires n <= |split.nums| == |y|
  {
    if n == 0 then 0 else Distance(split, y, n - 1) + Abs(y[n - 1] * split.den - split.nums[n - 1] * split.total)
  }

  /** A price per unit at which the chosen counts are the cheapest, index by index. */
  predicate Priced(split: Split, price: int)
    requires Servable(split)
  {
    && 0 <= price <= split.den
    && forall i :: 0 <= i < |split.nums| ==>
         var c, f, r := Apportion(split)[i], split.Floors()[i], split.Rests()[i];
         (c == f && r <= price) || (c == f + 1 && r >= price)
  }

  /** The smallest remainder that got one more is such a price. */
  lemma PriceExists(split: Split) returns (price: int)
    requires split.Complete()
    ensures Servable(split) && Priced(split, price)
  {
    NeverWraps(split);
    var rests, n, left := split.Rests(), |split.nums|, split.Leftover();
    var order := Order(rests, n);
    OrderFacts(rests, n, Order(rests, n));
    price := if left == 0 then split.den else rests[order[left - 1]];
    forall i | 0 <= i < n
      ensures
        || (Apportion(split)[i] == split.Floors()[i] && rests[i] <= price)
        || (Apportion(split)[i] == split.Floors()[i] + 1 && rests[i] >= price)
    {
      ApportionedCount(split, i);
      RankOf(rests, order, left, i);
    }
  }

  lemma RankOf(rests: seq<int>, order: seq<nat>, left: nat, i: nat)
    requires Indices(order, |rests|) && Descending(rests, order) && i in order && left <= |order|
    ensures left > 0 && i in order[..left] ==> rests[i] >= rests[order[left - 1]]
    ensures left > 0 && i !in order[..left] ==> rests[i] <= rests[order[left - 1]]
  {
    if left > 0 {
      var k :| 0 <= k < |order| && order[k] == i;
      if k >= left {
        assert Before(rests, order[left - 1], order[k]);
      } else {
        assert order[..left][k] == i;
        assert k < left - 1 ==> Before(rests, order[k], order[left - 1]);
      }
    }
  }

  /** The cost of `x` units above the floor: the distance from the quota and the units' price. */
  function Cost(den: nat, price: int, r: int, x: int): int { Abs(x * den - r) + (2 * price - den) * x }

  lemma CostAbove(den: nat, price: int, r: int, x: int)
    requires 0 <= r < den && 0 <= price && x >= 1
    ensures Cost(den, price, r, x) >= 2 * price - r
  {
    assert (2 * price - den) * x == 2 * (price * x) - den * x;
    assert price * x >= price;
  }

  lemma CostBelow(den: nat, price: int, r: int, x: int)
    requires 0 <= r < den && price <= den && x <= 0
    ensures Cost(den, price, r, x) >= r
  {
    assert (2 * price - den) * x == 2 * ((den - price) * -x) + den * x;
    assert (den - price) * -x >= 0;
    assert Abs(x * den - r) >= r - x * den;
  }

  /** Of all units the chosen 0 or 1 is the cheapest. */
  lemma NoBargain(den: nat, price: int, r: int, chosen: int, x: int)
    requires 0 <= r < den && 0 <= price <= den
    requires (chosen == 0 && r <= price) || (chosen == 1 && r >= price)
    ensures Cost(den, price, r, x) >= Cost(den, price, r, chosen)
  {
    if x >= 1 { CostAbove(den, price, r, x); } else { CostBelow(den, price, r, x); }
  }

  /** Counting units from zero or from the floor makes no difference. */
  lemma FromFloor(den: nat, price: int, f: int, r: int, y: int)
    ensures Abs(y * den - (f * den + r)) + (2 * price - den) * y == Cost(den, price, r, y - f) + (2 * price - den) * f
  {
    assert y * den - (f * den + r) == (y - f) * den - r;
    Unfold(2 * price - den, f, y - f);
  }

  lemma NoBargainFrom(den: nat, price: int, f: int, r: int, c: int, y: int)
    requires 0 <= r < den && 0 <= price <= den
    requires (c == f && r <= price) || (c == f + 1 && r >= price)
    ensures
      var quota, slope := f * den + r, 2 * price - den;
      Abs(y * den - quota) + slope * y >= Abs(c * den - quota) + slope * c
  {
    NoBargain(den, price, r, c - f, y - f);
    FromFloor(den, price, f, r, y);
    FromFloor(den, price, f, r, c);
  }

  lemma QuotaParts(split: Split, i: nat)
    requires split.Valid() && i < |split.nums|
    ensures split.nums[i] * split.total == split.Floors()[i] * split.den + split.Rests()[i]
    ensures 0 <= split.Rests()[i] < split.den
  {
  }

  lemma NoBargainAt(split: Split, price: int, y: int, i: nat)
    requires Servable(split) && Priced(split, price) && i < |split.nums|
    ensures
      var c, quota, slope := Apportion(split)[i], split.nums[i] * split.total, 2 * price - split.den;
      Abs(y * split.den - quota) + slope * y >= Abs(c * split.den - quota) + slope * c
  {
    QuotaParts(split, i);
    NoBargainFrom(split.den, price, split.Floors()[i], split.Rests()[i], Apportion(split)[i], y);
  }

  lemma {:induction false} NoBargainInAll(split: Split, price: int, y: seq<int>, n: nat)
    requires Servable(split) && Priced(split, price) && n <= |split.nums| == |y|
    ensures
      var c := Apportion(split);
      Distance(split, y, n) + (2 * price - split.den) * Sum(y[..n]) >=
      Distance(split, c, n) + (2 * price - split.den) * Sum(c[..n])
  {
    if n == 0 {
    } else {
      NoBargainInAll(split, price, y, n - 1);
      var c, i := Apportion(split), n - 1;
      NoBargainAt(split, price, y[i], i);
      assert y[..n][..i] == y[..i] && c[..n][..i] == c[..i];
      Unfold(2 * price - split.den, Sum(y[..i]), y[i]);
      Unfold(2 * price - split.den, Sum(c[..i]), c[i]);
    }
  }

  lemma Unfold(p: int, a: int, b: int)
    ensures p * (a + b) == p * a + p * b
  {
  }

  /** Optimality: no whole numbers with the same total lie closer to the quotas. */
  lemma NothingIsCloser(split: Split, y: seq<int>)
    requires split.Complete() && |y| == |split.nums| && Sum(y) == split.total
    ensures Servable(split)
    ensures Distance(split, Apportion(split), |y|) <= Distance(split, y, |y|)
  {
    var price := PriceExists(split);
    var c := Apportion(split);
    NoBargainInAll(split, price, y, |y|);
    CountsAddUp(split);
    assert y[..|y|] == y && c[..|y|] == c;
  }

  /** Extras go to larger remainders first and, among equals, to lower indices: whoever comes before an
      index that got one more got one more as well. */
  lemma ExtrasInOrder(split: Split, i: nat, j: nat)
    requires split.Complete() && i < |split.nums| && j < |split.nums|
    requires
      || split.nums[i] * split.total % split.den > split.nums[j] * split.total % split.den
      || (split.nums[i] * split.total % split.den == split.nums[j] * split.total % split.den && i < j)
    ensures Servable(split)
    ensures Apportion(split)[j] > split.nums[j] * split.total / split.den ==>
            Apportion(split)[i] > split.nums[i] * split.total / split.den
  {
    var rests, order := split.Rests(), Order(split.Rests(), |split.nums|);
    ApportionedCount(split, i);
    ApportionedCount(split, j);
    OrderFacts(rests, |split.nums|, Order(rests, |split.nums|));
    EarlierIsServed(rests, order, split.Leftover(), i, j);
  }

  lemma PlaceBefore(rests: seq<int>, order: seq<nat>, a: nat, b: nat)
    requires Indices(order, |rests|) && Descending(rests, order) && a < |order| && b < |order|
    requires Before(rests, order[a], order[b])
    ensures a < b
  {
  }

  lemma EarlierIsServed(rests: seq<int>, order: seq<nat>, left: nat, i: nat, j: nat)
    requires Indices(order, |rests|) && Descending(rests, order) && left <= |order|
    requires i < |rests| && j < |rests| && i in order && Before(rests, i, j)
    ensures j in order[..left] ==> i in order[..left]
  {
    if j in order[..left] {
      var a, b :| 0 <= a < |order| && order[a] == i && 0 <= b < left && order[..left][b] == j;
      assert order[b] == j;
      PlaceBefore(rests, order, a, b);
      assert order[..left][a] == i;
    }
  }
}
