/** How many elements of a sequence satisfy a condition. */
module Counting {
  function One(b: bool): nat { if b then 1 else 0 }

  function AtLeastZero(n: int): nat { if n < 0 then 0 else n }

  /** A table of counters; a key that is not there counts zero. */
  function CountOf<K>(c: map<K, nat>, key: K): nat { if key in c then c[key] else 0 }

  function Bump<K(!new)>(c: map<K, nat>, key: K): (r: map<K, nat>)
    ensures forall k :: CountOf(r, k) == CountOf(c, k) + One(k == key)
  {
    c[key := CountOf(c, key) + 1]
  }

  function Count<T>(s: seq<T>, p: T -> bool): nat {
    if s == [] then 0 else Count(s[..|s| - 1], p) + if p(s[|s| - 1]) then 1 else 0
  }

  lemma CountSnoc<T>(s: seq<T>, p: T -> bool, x: T)
    ensures Count(s + [x], p) == Count(s, p) + if p(x) then 1 else 0
  {
    assert (s + [x])[..|s|] == s;
  }

  lemma {:induction false} CountImplied<T>(s: seq<T>, p: T -> bool, q: T -> bool)
    requires forall x :: p(x) ==> q(x)
    ensures Count(s, p) <= Count(s, q)
    decreases |s|
  {
    if s == [] {
    } else {
      CountImplied(s[..|s| - 1], p, q);
    }
  }

  lemma {:induction false} CountOne<T>(s: seq<T>, p: T -> bool, i: nat)
    requires i < |s| && p(s[i])
    ensures Count(s, p) >= 1
    decreases |s|
  {
    if i < |s| - 1 { CountOne(s[..|s| - 1], p, i); }
  }

  lemma {:induction false} CountTwo<T>(s: seq<T>, p: T -> bool, i: nat, j: nat)
    requires i < j < |s| && p(s[i]) && p(s[j])
    ensures Count(s, p) >= 2
    decreases |s|
  {
    if j < |s| - 1 {
      CountTwo(s[..|s| - 1], p, i, j);
    } else {
      CountOne(s[..|s| - 1], p, i);
    }
  }

  lemma {:induction false} CountDrop<T>(s: seq<T>, p: T -> bool, i: nat)
    requires i < |s|
    ensures Count(s, p) == Count(s[..i] + s[i + 1..], p) + if p(s[i]) then 1 else 0
    decreases |s|
  {
    var last := |s| - 1;
    if i == last {
      assert s[..i] + s[i + 1..] == s[..last];
    } else {
      CountDrop(s[..last], p, i);
      assert s[..last][..i] + s[..last][i + 1..] == (s[..i] + s[i + 1..])[..last - 1];
      assert (s[..i] + s[i + 1..])[last - 1] == s[last];
    }
  }

  /** Counting does not depend on the order. */
  lemma {:induction false} CountPermuted<T>(s: seq<T>, t: seq<T>, p: T -> bool)
    requires multiset(s) == multiset(t)
    ensures Count(s, p) == Count(t, p)
    decreases |s|
  {
    if s == [] {
      assert |multiset(t)| == 0;
    } else {
      var last := s[|s| - 1];
      assert last in multiset(t);
      var i :| 0 <= i < |t| && t[i] == last;
      var rest := t[..i] + t[i + 1..];
      assert t == t[..i] + [last] + t[i + 1..];
      assert s == s[..|s| - 1] + [last];
      assert multiset(rest) == multiset(t) - multiset{last} == multiset(s[..|s| - 1]);
      CountPermuted(s[..|s| - 1], rest, p);
      CountDrop(t, p, i);
    }
  }
}
