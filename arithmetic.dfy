/** Small arithmetic helpers: the 2-adic valuation, the odd part and parity/positivity guards
    (reference/arithmetic.py). */
module Arithmetic {
  import opened Common

  function Pow2(k: nat): (p: nat)
    ensures p >= 1
  {
    if k == 0 then 1 else 2 * Pow2(k - 1)
  }

  function Abs(n: int): nat {
    if n < 0 then -n else n
  }

  /** The 2-adic valuation of a non-zero integer, defined by halving while even. */
  function Valuation(n: int): nat
    requires n != 0
    decreases Abs(n)
  {
    if n % 2 != 0 then 0 else 1 + Valuation(n / 2)
  }

  /** Exact division: a multiple of b leaves no remainder and divides back. */
  lemma {:induction false} DivideMultiple(b: int, q: int)
    requires b > 0
    ensures (b * q) % b == 0 && (b * q) / b == q
  {
    var a := b * q;
    var d := q - a / b;
    assert b * d == a % b;
  }

  /** Doubling the power of two doubles the product. */
  lemma {:induction false} Pow2Succ(k: nat, x: int)
    ensures Pow2(k + 1) * x == 2 * (Pow2(k) * x)
  {
  }

  /** Powers of two multiply by adding exponents. */
  lemma {:induction false} Pow2Add(a: nat, b: nat, x: int)
    ensures Pow2(a) * (Pow2(b) * x) == Pow2(a + b) * x
  {
    if a > 0 {
      Pow2Add(a - 1, b, x);
      Pow2Succ(a - 1, Pow2(b) * x);
      Pow2Succ(a - 1 + b, x);
    }
  }

  /** Scaling a positive number by a power of two does not make it smaller. */
  lemma {:induction false} Pow2Scales(z: nat, m: int)
    requires m > 0
    ensures Pow2(z) * m >= m
  {
    if z > 0 {
      Pow2Scales(z - 1, m);
      Pow2Succ(z - 1, m);
    }
  }

  /** A positive power of two times anything is even. */
  lemma {:induction false} EvenMultiple(k: nat, x: int)
    requires k >= 1
    ensures (Pow2(k) * x) % 2 == 0
  {
    var h := Pow2(k - 1) * x;
    Pow2Succ(k - 1, x);
    assert Pow2(k) * x == 2 * h;
  }

  /** A power of two times an odd number determines both factors. */
  lemma {:induction false} OddFactorizationUnique(a: nat, x: int, b: nat, y: int)
    requires Pow2(a) * x == Pow2(b) * y
    requires x % 2 == 1 && y % 2 == 1
    ensures a == b && x == y
    decreases a + b
  {
    if a >= 1 && b >= 1 {
      var u, v := Pow2(a - 1) * x, Pow2(b - 1) * y;
      Pow2Succ(a - 1, x);
      Pow2Succ(b - 1, y);
      assert 2 * u == 2 * v;
      OddFactorizationUnique(a - 1, x, b - 1, y);
    } else if a >= 1 {
      EvenMultiple(a, x);
    } else if b >= 1 {
      EvenMultiple(b, y);
    }
  }

  /** n == 2^ν2(n) * m with m odd. */
  lemma {:induction false} ValuationFactors(n: int)
    requires n != 0
    ensures n % Pow2(Valuation(n)) == 0
    ensures (n / Pow2(Valuation(n))) % 2 == 1
    ensures n == Pow2(Valuation(n)) * (n / Pow2(Valuation(n)))
    decreases Abs(n)
  {
    if n % 2 == 0 {
      var h := n / 2;
      ValuationFactors(h);
      var vh := Valuation(h);
      var m := h / Pow2(vh);
      assert n == Pow2(vh + 1) * m by {
        assert n == 2 * h;
        assert h == Pow2(vh) * m;
      }
      DivideMultiple(Pow2(vh + 1), m);
    }
  }

  /** 2^ν2(n) divides n and 2^(ν2(n)+1) does not. */
  lemma ValuationIsMaximal(n: int)
    requires n != 0
    ensures n % Pow2(Valuation(n)) == 0 && n % Pow2(Valuation(n) + 1) != 0
  {
    var v := Valuation(n);
    ValuationFactors(n);
    var m := n / Pow2(v);
    if n % Pow2(v + 1) == 0 {
      var q := n / Pow2(v + 1);
      assert n == Pow2(v + 1) * q;
      Pow2Succ(v, q);
      assert Pow2(v) * m == Pow2(v) * (2 * q);
      DivideMultiple(Pow2(v), m);
      DivideMultiple(Pow2(v), 2 * q);
    }
  }

  /** If 2^k is the largest power of two dividing n, the cofactor is odd. */
  lemma {:induction false} OddCofactor(n: int, k: nat)
    requires n % Pow2(k) == 0 && n % Pow2(k + 1) != 0
    ensures n == Pow2(k) * (n / Pow2(k)) && (n / Pow2(k)) % 2 == 1
  {
    var q := n / Pow2(k);
    if q % 2 == 0 {
      var h := q / 2;
      Pow2Succ(k, h);
      DivideMultiple(Pow2(k + 1), h);
    }
  }

  /** No exponent other than ν2(n) has that property. */
  lemma {:induction false} ValuationIsUnique(n: int, k: nat)
    requires n != 0
    requires n % Pow2(k) == 0 && n % Pow2(k + 1) != 0
    ensures k == Valuation(n)
  {
    ValuationFactors(n);
    OddCofactor(n, k);
    OddFactorizationUnique(k, n / Pow2(k), Valuation(n), n / Pow2(Valuation(n)));
  }

  /** The valuation is the exponent k with 2^k | n and not 2^(k+1) | n, and no other. */
  lemma {:induction false} ValuationCharacterization(n: int, k: nat)
    requires n != 0
    ensures k == Valuation(n) <==> (n % Pow2(k) == 0 && n % Pow2(k + 1) != 0)
  {
    ValuationIsMaximal(n);
    if n % Pow2(k) == 0 && n % Pow2(k + 1) != 0 {
      ValuationIsUnique(n, k);
    }
  }

  /** nu2 ignores the sign of its argument. */
  lemma {:induction false} ValuationOfNegation(n: int)
    requires n != 0
    ensures Valuation(-n) == Valuation(n)
    decreases Abs(n)
  {
    if n % 2 == 0 {
      assert (-n) / 2 == -(n / 2);
      ValuationOfNegation(n / 2);
    }
  }

  /** nu2: the loop that halves |n| while it is even, counting the halvings. */
  method Nu2(n: int) returns (r: Result<nat>)
    ensures n == 0 ==> r == Err(ZeroInput)
    ensures n != 0 ==> r.Ok? && n % Pow2(r.value) == 0 && n % Pow2(r.value + 1) != 0
    ensures n != 0 ==> r == Ok(Valuation(n))
  {
    if n == 0 {
      return Err(ZeroInput);
    }
    ValuationOfNegation(n);
    var m := Abs(n);
    var k: nat := 0;
    while m % 2 == 0
      invariant m > 0
      invariant k + Valuation(m) == Valuation(n)
      decreases m
    {
      m := m / 2;
      k := k + 1;
    }
    ValuationCharacterization(n, k);
    return Ok(k);
  }

  /** strip_twos: n == 2^z * m with m odd; fails on 0. */
  function StripTwos(n: int): (r: Result<(nat, int)>)
    ensures r.Err? <==> n == 0
    ensures r.Err? ==> r.error == ZeroInput
    ensures r.Ok? ==> r.value.0 == Valuation(n)
    ensures r.Ok? ==> n == Pow2(r.value.0) * r.value.1 && r.value.1 % 2 == 1
    ensures r.Ok? ==> (r.value.1 > 0 <==> n > 0)
  {
    if n == 0 then Err(ZeroInput)
    else
      var z := Valuation(n);
      ValuationFactors(n);
      Ok((z, n / Pow2(z)))
  }

  /** On an odd number there is nothing to strip. */
  lemma {:induction false} StripTwosOfOdd(n: int)
    requires n % 2 == 1
    ensures Valuation(n) == 0 && StripTwos(n) == Ok((0, n))
  {
  }

  /** The residues an odd number can have modulo 4, 6, 8 and 24. */
  lemma {:induction false} OddResidues(n: int)
    requires n % 2 == 1
    ensures n % 4 == 1 || n % 4 == 3
    ensures n % 6 == 1 || n % 6 == 3 || n % 6 == 5
    ensures n % 8 == 1 || n % 8 == 3 || n % 8 == 5 || n % 8 == 7
    ensures n % 24 % 2 == 1
  {
    var k := n / 2;
    assert n == 2 * k + 1;
    OddModFour(n, k);
    OddModSix(n, k);
    OddModEight(n, k);
    OddModTwentyFour(n, k);
  }

  lemma {:induction false} OddModFour(n: int, k: int)
    requires n == 2 * k + 1
    ensures n % 4 == 2 * (k % 2) + 1
  {
    var q, r := k / 2, k % 2;
    assert k == 2 * q + r;
    assert n == 4 * q + (2 * r + 1);
  }

  lemma {:induction false} OddModSix(n: int, k: int)
    requires n == 2 * k + 1
    ensures n % 6 == 2 * (k % 3) + 1
  {
    var q, r := k / 3, k % 3;
    assert k == 3 * q + r;
    assert n == 6 * q + (2 * r + 1);
  }

  lemma {:induction false} OddModEight(n: int, k: int)
    requires n == 2 * k + 1
    ensures n % 8 == 2 * (k % 4) + 1
  {
    var q, r := k / 4, k % 4;
    assert k == 4 * q + r;
    assert n == 8 * q + (2 * r + 1);
  }

  lemma {:induction false} OddModTwentyFour(n: int, k: int)
    requires n == 2 * k + 1
    ensures n % 24 == 2 * (k % 12) + 1
  {
    var q, r := k / 12, k % 12;
    assert k == 12 * q + r;
    assert n == 24 * q + (2 * r + 1);
  }

  /** The remainder modulo 6 (and so the parity) is that of the remainder modulo 24. */
  lemma {:induction false} ModTwentyFour(m: int)
    ensures m % 2 == m % 24 % 2 && m % 6 == m % 24 % 6
  {
    var q, r := m / 24, m % 24;
    assert m == 24 * q + r;
    ModSixOfTwentyFour(m, q, r);
    ModTwoOfTwentyFour(m, q, r);
  }

  lemma {:induction false} ModSixOfTwentyFour(m: int, q: int, r: int)
    requires m == 24 * q + r && 0 <= r < 24
    ensures m % 6 == r % 6
  {
    var a, b := r / 6, r % 6;
    assert r == 6 * a + b;
    assert m == 6 * (4 * q + a) + b;
  }

  lemma {:induction false} ModTwoOfTwentyFour(m: int, q: int, r: int)
    requires m == 24 * q + r && 0 <= r < 24
    ensures m % 2 == r % 2
  {
    var a, b := r / 2, r % 2;
    assert r == 2 * a + b;
    assert m == 2 * (12 * q + a) + b;
  }

  /** The remainder modulo 4 refines to two remainders modulo 8. */
  lemma {:induction false} ModEightRefinesFour(m: int)
    ensures m % 4 == 1 ==> m % 8 == 1 || m % 8 == 5
    ensures m % 4 == 3 ==> m % 8 == 3 || m % 8 == 7
  {
    var q, k := m / 8, m / 4;
    assert m == 8 * q + m % 8 && m == 4 * k + m % 4;
    var d := k - 2 * q;
    assert m % 8 == m % 4 + 4 * d;
    assert 0 <= d <= 1;
  }

  /** is_odd: n % 2 != 0. The contract gives the `n % 2 == 1` form the other contracts of the
      model use. */
  predicate IsOdd(n: int)
    ensures IsOdd(n) <==> n % 2 == 1
  {
    n % 2 != 0
  }

  /** assert_odd: fails exactly on even n. */
  function AssertOdd(n: int): (o: Outcome)
    ensures o.Pass? <==> IsOdd(n)
    ensures o.Fail? ==> o.error == NotOdd
  {
    if n % 2 == 0 then Fail(NotOdd) else Pass
  }

  /** assert_positive: fails exactly on n <= 0. */
  function AssertPositive(n: int): (o: Outcome)
    ensures o.Pass? <==> n > 0
    ensures o.Fail? ==> o.error == NotPositive
  {
    if n <= 0 then Fail(NotPositive) else Pass
  }
}
