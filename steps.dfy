/** The three guarded step maps A'(n) = (3n+1)/4, C'(n) = (3n+1)/2 and K'(n) = (n-1)/4
    (reference/steps.py). Each fails on an even argument; A' and K' also fail outside the
    residue class where their division is exact. */
module Steps {
  import opened Common

  /** A'(n) = (3n+1)/4, defined on odd n with 4 | 3n+1, i.e. n mod 8 in {1, 5}. */
  function APrime(n: int): (r: Result<int>)
    ensures n % 2 == 0 ==> r == Err(NotOdd)
    ensures n % 2 == 1 ==> (r.Ok? <==> n % 8 == 1 || n % 8 == 5)
    ensures n % 2 == 1 && (3 * n + 1) % 4 != 0 ==> r == Err(NotDivisible)
    ensures r.Ok? ==> 4 * r.value == 3 * n + 1
  {
    if n % 2 == 0 then Err(NotOdd)
    else
      var x := 3 * n + 1;
      if x % 4 != 0 then Err(NotDivisible)
      else Ok(x / 4)
  }

  /** C'(n) = (3n+1)/2, defined on every odd n. */
  function CPrime(n: int): (r: Result<int>)
    ensures r.Ok? <==> n % 2 == 1
    ensures r.Err? ==> r.error == NotOdd
    ensures r.Ok? ==> 2 * r.value == 3 * n + 1
  {
    if n % 2 == 0 then Err(NotOdd)
    else Ok((3 * n + 1) / 2)
  }

  /** K'(n) = (n-1)/4, defined on odd n with 4 | n-1. The guard admits every n = 1 (mod 4),
      not only the n = 5 (mod 8) class the documentation names. */
  function KPrime(n: int): (r: Result<int>)
    ensures n % 2 == 0 ==> r == Err(NotOdd)
    ensures r.Ok? <==> n % 4 == 1
    ensures n % 2 == 1 && n % 4 != 1 ==> r == Err(NotDivisible)
    ensures r.Ok? ==> 4 * r.value + 1 == n
  {
    if n % 2 == 0 then Err(NotOdd)
    else
      var x := n - 1;
      if x % 4 != 0 then Err(NotDivisible)
      else Ok(x / 4)
  }

  /** The guard of K' is wider than its documented class: 9 = 1 (mod 8) is accepted. */
  lemma {:induction false} KPrimeAcceptsOneModEight()
    ensures 9 % 8 != 5 && KPrime(9) == Ok(2)
  {
  }

  /** A' and C' undo the two predecessor formulas: the A-predecessor (4n-1)/3 of n = 1 (mod 6)
      maps back to n under A', the C-predecessor (2n-1)/3 of n = 5 (mod 6) under C'. */
  lemma {:induction false} StepsInvertPredecessors(n: int)
    ensures n % 6 == 1 ==> (4 * n - 1) % 3 == 0 && APrime((4 * n - 1) / 3) == Ok(n)
    ensures n % 6 == 5 ==> (2 * n - 1) % 3 == 0 && CPrime((2 * n - 1) / 3) == Ok(n)
  {
    if n % 6 == 1 {
      var k := (n - 1) / 6;
      assert n == 6 * k + 1;
      assert (4 * n - 1) / 3 == 8 * k + 1;
    }
    if n % 6 == 5 {
      var k := (n - 5) / 6;
      assert n == 6 * k + 5;
      assert (2 * n - 1) / 3 == 4 * k + 3;
    }
  }
}
