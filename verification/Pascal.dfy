/** Binomial coefficients by Pascal's rule, and what they count: how often a list of levels can advance. */
module Pascal {
  /** The binomial coefficient of m + n over n. */
  function Ways(m: nat, n: nat): (r: nat)
    ensures r >= 1
  {
    if m == 0 || n == 0 then 1 else Ways(m - 1, n) + Ways(m, n - 1)
  }

  lemma {:induction false} WaysGrow(m: nat, a: nat, b: nat)
    requires a <= b
    ensures Ways(m, a) <= Ways(m, b)
    decreases b
  {
    if a < b {
      WaysGrow(m, a, b - 1);
    }
  }

  lemma {:induction false} WaysOfOne(m: nat)
    ensures Ways(m, 1) == m + 1
  {
    if m > 0 {
      WaysOfOne(m - 1);
    }
  }

  function Factorial(n: nat): nat { if n == 0 then 1 else n * Factorial(n - 1) }

  /** It is (m + n)! over m! n!. */
  lemma {:induction false} WaysAreBinomial(m: nat, n: nat)
    ensures Ways(m, n) * (Factorial(m) * Factorial(n)) == Factorial(m + n)
  {
    if m > 0 && n > 0 {
      WaysAreBinomial(m - 1, n);
      WaysAreBinomial(m, n - 1);
      var f, p, q := Factorial(m + n - 1), Factorial(m - 1) * Factorial(n), Factorial(m) * Factorial(n - 1);
      var all := Factorial(m) * Factorial(n);
      assert all == m * p;
      SwapFactors(Factorial(m), n, Factorial(n - 1));
      assert all == n * q;
      SwapFactors(Ways(m - 1, n), m, p);
      SwapFactors(Ways(m, n - 1), n, q);
      Distribute(Ways(m - 1, n), Ways(m, n - 1), all);
      Distribute(m, n, f);
    }
  }

  lemma SwapFactors(a: int, b: int, c: int)
    ensures a * (b * c) == b * (a * c)
  {
  }

  lemma Distribute(a: int, b: int, c: int)
    ensures (a + b) * c == a * c + b * c
  {
  }

  lemma WaysSplit(m: nat, n: nat)
    requires m > 0 && n > 0
    ensures Ways(m, n) == Ways(m - 1, n) + Ways(m, n - 1)
  {
  }

  lemma WaysExceed(m: nat, k: nat)
    requires m > 0 && k > 1
    ensures Ways(m, k) - 1 > m
  {
    WaysOfOne(m);
    WaysGrow(m, 1, k - 1);
  }

  /** What one level adds to the rank of a list of levels: earlier levels outweigh later ones. */
  function Weight(m: nat, level: int): nat { if level <= 0 then 0 else Ways(m, level - 1) }

  /** The rank of a list of levels in the order that compares them from the front. */
  function Progress(ls: seq<int>): nat { if ls == [] then 0 else Weight(|ls|, ls[0]) + Progress(ls[1..]) }

  lemma WeightGrows(m: nat, a: int, b: int)
    requires a <= b
    ensures Weight(m, a) <= Weight(m, b)
  {
    if a > 0 {
      WaysGrow(m, a - 1, b - 1);
    }
  }

  lemma {:induction false} ProgressBounded(ls: seq<int>, top: nat)
    requires forall j :: 0 <= j < |ls| ==> ls[j] <= top
    ensures Progress(ls) < Ways(|ls|, top)
  {
    if ls != [] {
      WeightGrows(|ls|, ls[0], top);
      ProgressBounded(ls[1..], top);
    }
  }

  lemma {:induction false} ProgressMonotone(ls: seq<int>, ls': seq<int>)
    requires |ls| == |ls'| && forall j :: 0 <= j < |ls| ==> ls[j] <= ls'[j]
    ensures Progress(ls) <= Progress(ls')
  {
    if ls != [] {
      WeightGrows(|ls|, ls[0], ls'[0]);
      ProgressMonotone(ls[1..], ls'[1..]);
    }
  }

  /** Raising one level outweighs whatever happens to the ones behind it. */
  lemma {:induction false} ProgressGrows(ls: seq<int>, ls': seq<int>, j: nat)
    requires |ls| == |ls'| && j < |ls| && 0 <= ls[j] < ls'[j]
    requires forall x :: 0 <= x < j ==> ls[x] <= ls'[x]
    requires forall x :: j < x < |ls| ==> ls[x] <= ls[j]
    ensures Progress(ls) < Progress(ls')
  {
    if j == 0 {
      ProgressBounded(ls[1..], ls[0]);
      WeightGrows(|ls|, ls[0] + 1, ls'[0]);
    } else {
      WeightGrows(|ls|, ls[0], ls'[0]);
      ProgressGrows(ls[1..], ls'[1..], j - 1);
    }
  }
}
