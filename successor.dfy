/** The accelerated Collatz successor (reference/successor.py): strip the powers of two,
    apply A' or C' to the odd part according to its residue mod 8, strip the powers of two
    from the result. */
module Successor {
  import opened Common
  import opened Arithmetic
  import opened Steps

  /** accelerated_successor: defined on every positive integer; the "unexpected residue"
      error never occurs and the result is always a positive odd number. */
  function AcceleratedSuccessor(n: int): (r: Result<int>)
    ensures r.Ok? <==> n > 0
    ensures r.Err? ==> r.error == NotPositive
    ensures r.Ok? ==> r.value > 0 && r.value % 2 == 1
  {
    if AssertPositive(n).Fail? then Err(NotPositive)
    else
      var stripped := StripTwos(n);
      if stripped.Err? then Err(ZeroInput)
      else
        var m := stripped.value.1;
        OddResidues(m);
        var res := m % 8;
        var y := if res == 1 || res == 5 then APrime(m)
                 else if res == 3 then CPrime(m)
                 else if res == 7 then CPrime(m)
                 else Err(UnexpectedResidue);
        if y.Err? then y
        else
          var next := StripTwos(y.value);
          if next.Err? then Err(ZeroInput)
          else Ok(next.value.1)
  }

  /** Unfolds the successor of a positive n into its two strip steps around A' or C'. */
  lemma {:induction false} SuccessorUnfold(n: int)
    requires n > 0
    ensures StripTwos(n).Ok?
    ensures var m := StripTwos(n).value.1;
      && (m % 4 == 1 ==> APrime(m).Ok? && StripTwos(APrime(m).value).Ok?
                         && AcceleratedSuccessor(n).value == StripTwos(APrime(m).value).value.1)
      && (m % 4 == 3 ==> CPrime(m).Ok? && StripTwos(CPrime(m).value).Ok?
                         && AcceleratedSuccessor(n).value == StripTwos(CPrime(m).value).value.1)
  {
    ModEightRefinesFour(StripTwos(n).value.1);
  }

  /** Four times 2^e * s is 2^(e+2) * s. */
  lemma {:induction false} Pow2Times4(e: nat, s: int)
    ensures 4 * (Pow2(e) * s) == Pow2(e + 2) * s
  {
    Pow2Succ(e, s);
    Pow2Succ(e + 1, s);
  }

  /** If 2^c * y is 3m+1, then so is 2^(c+z) times the odd part of y, z being y's valuation. */
  lemma {:induction false} OddPartExponent(y: int, c: nat, m: int)
    requires y != 0 && Pow2(c) * y == 3 * m + 1
    ensures StripTwos(y).Ok?
    ensures Pow2(c + StripTwos(y).value.0) * StripTwos(y).value.1 == 3 * m + 1
  {
    var z := StripTwos(y).value.0;
    var s := StripTwos(y).value.1;
    Pow2Add(c, z, s);
  }

  /** 3m+1 is the successor times a power of two (at least 2), m being the odd part of n. */
  lemma {:induction false} SuccessorExponent(n: int) returns (k: nat)
    requires n > 0
    ensures StripTwos(n).Ok? && AcceleratedSuccessor(n).Ok?
    ensures k >= 1 && Pow2(k) * AcceleratedSuccessor(n).value == 3 * StripTwos(n).value.1 + 1
  {
    SuccessorUnfold(n);
    var m := StripTwos(n).value.1;
    OddResidues(m);
    if m % 4 == 1 {
      var y := APrime(m).value;
      assert Pow2(2) == 4;
      OddPartExponent(y, 2, m);
      k := 2 + StripTwos(y).value.0;
    } else {
      var y := CPrime(m).value;
      assert Pow2(1) == 2;
      OddPartExponent(y, 1, m);
      k := 1 + StripTwos(y).value.0;
    }
  }

  /** The successor of 2^z * m (m odd, positive) is the odd part y of 3m+1: whenever
      3m+1 == 2^k * y with y odd, the successor is y. */
  lemma {:induction false} SuccessorCharacterization(z: nat, m: int, k: nat, y: int)
    requires m > 0 && m % 2 == 1 && y % 2 == 1
    requires 3 * m + 1 == Pow2(k) * y
    ensures AcceleratedSuccessor(Pow2(z) * m) == Ok(y)
  {
    var n := Pow2(z) * m;
    Pow2Scales(z, m);
    var s := StripTwos(n).value;
    OddFactorizationUnique(s.0, s.1, z, m);
    var e := SuccessorExponent(n);
    var succ := AcceleratedSuccessor(n).value;
    assert Pow2(e) * succ == Pow2(k) * y;
    OddFactorizationUnique(e, succ, k, y);
  }

  /** The successor depends only on the odd part of its argument. */
  lemma {:induction false} SuccessorIgnoresTwos(z: nat, m: int)
    requires m > 0 && m % 2 == 1
    ensures AcceleratedSuccessor(Pow2(z) * m) == AcceleratedSuccessor(m)
  {
    var s := StripTwos(3 * m + 1).value;
    SuccessorCharacterization(z, m, s.0, s.1);
    SuccessorCharacterization(0, m, s.0, s.1);
  }

  /** A multiple of three times anything is never one more than a multiple of three. */
  lemma {:induction false} NoThreeInThreeQPlusOne(a: int, n: int, q: int)
    requires a * n == 3 * q + 1
    ensures n % 3 != 0
  {
    var t, r := n / 3, n % 3;
    assert a * n == 3 * (a * t) + a * r;
    assert (a * r) % 3 == 1;
  }

  /** The successor n of a positive odd q, in linear terms: when q = 3 (mod 4) one halving
      suffices (3q+1 = 2n), otherwise at least two are needed (3q+1 >= 4n); and n is never a
      multiple of three. */
  lemma {:induction false} SuccessorOfOdd(q: int)
    requires q > 0 && q % 2 == 1
    ensures AcceleratedSuccessor(q).Ok?
    ensures var n := AcceleratedSuccessor(q).value;
      && (q % 4 == 3 ==> 3 * q + 1 == 2 * n)
      && (q % 4 == 1 ==> 3 * q + 1 >= 4 * n)
      && n % 3 != 0
  {
    StripTwosOfOdd(q);
    var n := AcceleratedSuccessor(q).value;
    var k := SuccessorExponent(q);
    NoThreeInThreeQPlusOne(Pow2(k), n, q);
    HalvingCount(k, n, 3 * q + 1);
    OddSuccessorResidue(q, n);
  }

  /** 2^k n, linearly: 2n when k = 1, a multiple of 4 at least 4n otherwise. */
  lemma {:induction false} HalvingCount(k: nat, n: int, x: int)
    requires k >= 1 && n > 0 && Pow2(k) * n == x
    ensures k == 1 ==> x == 2 * n
    ensures k >= 2 ==> x >= 4 * n && x % 4 == 0
  {
    if k >= 2 {
      Pow2Times4(k - 2, n);
      Pow2Scales(k - 2, n);
      FourTimesAtLeast(x, Pow2(k - 2) * n, n);
    } else {
      assert Pow2(1) == 2;
    }
  }

  lemma {:induction false} FourTimesAtLeast(x: int, t: int, n: int)
    requires x == 4 * t && t >= n
    ensures x >= 4 * n && x % 4 == 0
  {
  }

  /** Which of the two cases happens is fixed by q mod 4. */
  lemma {:induction false} OddSuccessorResidue(q: int, n: int)
    requires q % 2 == 1 && n % 2 == 1
    requires 3 * q + 1 == 2 * n || (3 * q + 1 >= 4 * n && (3 * q + 1) % 4 == 0)
    ensures q % 4 == 3 ==> 3 * q + 1 == 2 * n
    ensures q % 4 == 1 ==> 3 * q + 1 >= 4 * n
  {
    var a, b := q / 4, n / 2;
    assert q == 4 * a + q % 4;
    assert n == 2 * b + 1;
  }
}
