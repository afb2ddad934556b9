/** Facts about quotients and remainders of natural numbers. */
module Division {
  lemma Times(a: int, b: int, m: int)
    ensures (a + b) * m == a * m + b * m
  {
  }

  lemma OneLess(a: int, b: int)
    ensures (a - 1) * b + b == a * b
  {
  }

  lemma SmallProduct(a: int, m: int)
    requires m >= 0
    ensures a >= 1 ==> a * m >= m
    ensures a <= -1 ==> a * m <= -m
  {
  }

  lemma Parts(n: nat, m: nat)
    requires m > 0
    ensures n == n / m * m + n % m && 0 <= n % m < m && n / m >= 0
  {
  }

  lemma DivisionIs(n: nat, m: nat, q: int, r: nat)
    requires n == q * m + r && r < m
    ensures n / m == q && n % m == r
  {
    var d := n / m - q;
    Times(q, d, m);
    Parts(n, m);
    SmallProduct(d, m);
  }

  lemma SmallModulo(k: nat, n: nat)
    requires k < n
    ensures k % n == k
  {
    DivisionIs(k, n, 0, k);
  }

  lemma WholeRounds(rounds: nat, size: nat, n: nat)
    requires size > 0
    ensures (rounds * size + n) % size == n % size
  {
    Parts(n, size);
    Times(rounds, n / size, size);
    DivisionIs(rounds * size + n, size, rounds + n / size, n % size);
  }

  lemma NextDivision(n: nat, m: nat)
    requires m > 0
    ensures if n % m + 1 < m then (n + 1) / m == n / m && (n + 1) % m == n % m + 1
            else (n + 1) / m == n / m + 1 && (n + 1) % m == 0
  {
    Parts(n, m);
    if n % m + 1 < m {
      DivisionIs(n + 1, m, n / m, n % m + 1);
    } else {
      Times(n / m, 1, m);
      DivisionIs(n + 1, m, n / m + 1, 0);
    }
  }

  /** Quotient and remainder of a sum. */
  lemma SumModulo(a: nat, b: nat, m: nat)
    requires m > 0
    ensures (a + b) % m == if a % m + b % m < m then a % m + b % m else a % m + b % m - m
  {
    Parts(a, m);
    Parts(b, m);
    Times(a / m, b / m, m);
    if a % m + b % m < m {
      DivisionIs(a + b, m, a / m + b / m, a % m + b % m);
    } else {
      Times(a / m + b / m, 1, m);
      DivisionIs(a + b, m, a / m + b / m + 1, a % m + b % m - m);
    }
  }

  /** How many of `n` turns, taken round and round, come to the k-th of `m` places. */
  function RoundShare(n: nat, m: nat, k: nat): nat
    requires m > 0
  {
    if n == 0 then 0 else RoundShare(n - 1, m, k) + if (n - 1) % m == k then 1 else 0
  }

  lemma {:induction false} RoundShareIs(n: nat, m: nat, k: nat)
    requires k < m
    ensures RoundShare(n, m, k) == n / m + if k < n % m then 1 else 0
  {
    if n == 0 {
      DivisionIs(0, m, 0, 0);
    } else {
      RoundShareIs(n - 1, m, k);
      NextDivision(n - 1, m);
    }
  }
}
