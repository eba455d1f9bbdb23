/** Odd predecessors under the accelerated successor (reference/predecessor.py): the bounded
    brute-force search, its minimum, and the closed-form smallest predecessor, whose only
    definition is scripts/route_skeleton.py:575-579. */
module Predecessor {
  import opened Common
  import opened Arithmetic
  import opened Steps
  import opened Successor

  /** What the smallest-predecessor formula yields: a predecessor, or the terminal marker. */
  datatype Pred = Terminal | Value(p: int)

  /** c * n for a residue c in [0, 6), spelled out case by case so that the formula below
      stays linear for the verifier; ResidueTimesIsProduct shows it is the product. */
  function ResidueTimes(c: int, n: int): int
    requires 0 <= c < 6
  {
    if c == 0 then 0
    else if c == 1 then n
    else if c == 2 then 2 * n
    else if c == 3 then 3 * n
    else if c == 4 then 4 * n
    else 5 * n
  }

  lemma {:induction false} ResidueTimesIsProduct(c: int, n: int)
    requires 0 <= c < 6
    ensures ResidueTimes(c, n) == c * n
  {
  }

  /** smallest_predecessor: (((n - 3) mod 6) * n - 1) div 3 with Python's floor operators;
      the -1 it yields is reported as Terminal. On a positive odd n this is (4n-1)/3 when
      n = 1 (mod 6), (2n-1)/3 when n = 5 (mod 6), and Terminal when n = 3 (mod 6). */
  function SmallestPredecessor(n: int): (r: Pred)
    ensures n > 0 && n % 2 == 1 ==> (r.Terminal? <==> n % 6 == 3)
    ensures n > 0 && n % 6 == 1 ==> r.Value? && 3 * r.p == 4 * n - 1
    ensures n > 0 && n % 6 == 5 ==> r.Value? && 3 * r.p == 2 * n - 1
  {
    var q := (ResidueTimes((n - 3) % 6, n) - 1) / 3;
    if q == -1 then Terminal else Value(q)
  }

  /** The definition above is exactly the formula as written, for every integer n. */
  lemma {:induction false} SmallestPredecessorAsWritten(n: int)
    ensures var q := (((n - 3) % 6) * n - 1) / 3;
      SmallestPredecessor(n) == if q == -1 then Terminal else Value(q)
  {
    ResidueTimesIsProduct((n - 3) % 6, n);
  }

  /** Residue arithmetic behind the A-branch: 3p = 4n - 1 with n = 1 (mod 6) forces p = 1 (mod 8). */
  lemma {:induction false} APredecessorArithmetic(n: int, p: int)
    requires n > 0 && n % 6 == 1 && 3 * p == 4 * n - 1
    ensures p > 0 && p % 2 == 1 && p % 8 == 1 && 3 * p + 1 == 4 * n && p % 24 != 21
  {
    var k := n / 6;
    assert n == 6 * k + 1 && p == 8 * k + 1;
    EightKPlusOne(p, k);
  }

  /** p = 8k + 1 is odd, 1 (mod 8) and 1, 9 or 17 (mod 24). */
  lemma {:induction false} EightKPlusOne(p: int, k: int)
    requires p == 8 * k + 1
    ensures p % 2 == 1 && p % 8 == 1 && p % 24 != 21
  {
    assert p == 2 * (4 * k) + 1;
    var j, c := k / 3, k % 3;
    assert k == 3 * j + c;
    assert p == 24 * j + (8 * c + 1);
  }

  /** Residue arithmetic behind the C-branch: 3p = 2n - 1 with n = 5 (mod 6) forces p = 3 (mod 4). */
  lemma {:induction false} CPredecessorArithmetic(n: int, p: int)
    requires n > 0 && n % 6 == 5 && 3 * p == 2 * n - 1
    ensures p > 0 && p % 2 == 1 && p % 4 == 3 && 3 * p + 1 == 2 * n && p % 24 != 21
  {
    var k := n / 6;
    assert n == 6 * k + 5 && p == 4 * k + 3;
    FourKPlusThree(p, k);
  }

  /** p = 4k + 3 is odd, 3 (mod 4) and odd (mod 24) without being 1 (mod 4) there. */
  lemma {:induction false} FourKPlusThree(p: int, k: int)
    requires p == 4 * k + 3
    ensures p % 2 == 1 && p % 4 == 3 && p % 24 != 21
  {
    assert p == 2 * (2 * k + 1) + 1;
    var j, c := k / 6, k % 6;
    assert k == 6 * j + c;
    assert p == 24 * j + (4 * c + 3);
  }

  /** A-predecessors are 1 (mod 8), C-predecessors 3 (mod 4); both are positive and odd, so
      no predecessor is ever 21 (mod 24). */
  lemma {:induction false} PredecessorResidues(n: int)
    requires n > 0 && n % 2 == 1 && SmallestPredecessor(n).Value?
    ensures var p := SmallestPredecessor(n).p;
      && p > 0 && p % 2 == 1
      && (n % 6 == 1 ==> p % 8 == 1)
      && (n % 6 == 5 ==> p % 4 == 3)
      && p % 24 != 21
  {
    var p := SmallestPredecessor(n).p;
    OddResidues(n);
    if n % 6 == 1 {
      APredecessorArithmetic(n, p);
    } else {
      CPredecessorArithmetic(n, p);
    }
  }

  /** The closed form is a predecessor: its accelerated successor is n. */
  lemma {:induction false} PredecessorIsSound(n: int)
    requires n > 0 && n % 2 == 1 && SmallestPredecessor(n).Value?
    ensures AcceleratedSuccessor(SmallestPredecessor(n).p) == Ok(n)
  {
    var p := SmallestPredecessor(n).p;
    OddResidues(n);
    if n % 6 == 1 {
      APredecessorSound(n, p);
    } else {
      CPredecessorSound(n, p);
    }
  }

  lemma {:induction false} APredecessorSound(n: int, p: int)
    requires n > 0 && n % 6 == 1 && 3 * p == 4 * n - 1
    ensures AcceleratedSuccessor(p) == Ok(n)
  {
    APredecessorArithmetic(n, p);
    Pow2Times4(0, n);
    assert Pow2(0) == 1;
    SuccessorCharacterization(0, p, 2, n);
  }

  lemma {:induction false} CPredecessorSound(n: int, p: int)
    requires n > 0 && n % 6 == 5 && 3 * p == 2 * n - 1
    ensures AcceleratedSuccessor(p) == Ok(n)
  {
    CPredecessorArithmetic(n, p);
    assert Pow2(0) * p == p && Pow2(1) == 2;
    SuccessorCharacterization(0, p, 1, n);
  }

  /** The arithmetic half of PredecessorIsLeast: a positive odd q related to n as a
      predecessor must be (3q+1 = 2n, or 3q+1 >= 4n when q = 1 (mod 4)) lies at or above the
      closed form. */
  lemma {:induction false} SmallestBelowEveryCandidate(n: int, q: int)
    requires n > 0 && n % 2 == 1 && n % 3 != 0
    requires q > 0 && q % 2 == 1
    requires q % 4 == 3 ==> 3 * q + 1 == 2 * n
    requires q % 4 == 1 ==> 3 * q + 1 >= 4 * n
    ensures SmallestPredecessor(n).Value? && SmallestPredecessor(n).p <= q
  {
    OddResidues(n);
    OddResidues(q);
    ModThreeOfSix(n);
    if n % 6 == 1 {
      NoCStepOntoOneModSix(n, q);
    }
  }

  /** n mod 3 is read off n mod 6. */
  lemma {:induction false} ModThreeOfSix(n: int)
    ensures n % 3 == n % 6 % 3
  {
    var k, r := n / 6, n % 6;
    assert n == 6 * k + r;
    if r < 3 {
      assert n == 3 * (2 * k) + r;
    } else {
      assert n == 3 * (2 * k + 1) + (r - 3);
    }
  }

  /** For n = 1 (mod 6), 2n - 1 is not a multiple of 3, so no q has 3q + 1 = 2n. */
  lemma {:induction false} NoCStepOntoOneModSix(n: int, q: int)
    requires n % 6 == 1
    ensures 3 * q + 1 != 2 * n
  {
    var k := n / 6;
    assert n == 6 * k + 1;
  }

  /** Every positive odd predecessor q of n is at least the closed form; in particular an n
      that is 3 (mod 6) has no predecessor at all. */
  lemma {:induction false} PredecessorIsLeast(n: int, q: int)
    requires n > 0 && n % 2 == 1
    requires q > 0 && q % 2 == 1 && AcceleratedSuccessor(q) == Ok(n)
    ensures SmallestPredecessor(n).Value? && SmallestPredecessor(n).p <= q
  {
    SuccessorOfOdd(q);
    SmallestBelowEveryCandidate(n, q);
  }

  /** p is an odd predecessor of n inside the search range [1, searchLimit]. */
  predicate IsFoundPredecessor(p: int, n: int, searchLimit: int) {
    1 <= p <= searchLimit && p % 2 == 1 && AcceleratedSuccessor(p) == Ok(n)
  }

  predicate StrictlyIncreasing(s: seq<int>) {
    forall i, j :: 0 <= i < j < |s| ==> s[i] < s[j]
  }

  /** What the search has established once every odd candidate below p has been tried:
      preds lists, in increasing order, exactly the odd numbers in [1, searchLimit] below p
      on which `hit` holds. */
  ghost predicate SearchInvariant(preds: seq<int>, p: int, searchLimit: int, hit: int -> bool) {
    && (forall i :: 0 <= i < |preds| ==>
          1 <= preds[i] <= searchLimit && preds[i] % 2 == 1 && hit(preds[i]) && preds[i] < p)
    && (forall q :: 1 <= q <= searchLimit && q % 2 == 1 && hit(q) && q < p ==> q in preds)
    && StrictlyIncreasing(preds)
  }

  /** The state of the search before the odd candidate p is tried. */
  ghost predicate Searching(preds: seq<int>, p: int, searchLimit: int, hit: int -> bool) {
    p >= 1 && p % 2 == 1 && SearchInvariant(preds, p, searchLimit, hit)
  }

  /** Trying the odd candidate p (which is within range) keeps the search invariant. */
  lemma {:induction false} SearchStep(before: seq<int>, preds: seq<int>, p: int, searchLimit: int, hit: int -> bool)
    requires p <= searchLimit && Searching(before, p, searchLimit, hit)
    requires preds == if hit(p) then before + [p] else before
    ensures Searching(preds, p + 2, searchLimit, hit)
  {
    var h := p / 2;
    assert p == 2 * h + 1 && p + 1 == 2 * (h + 1) && p + 2 == 2 * (h + 1) + 1;
    if hit(p) {
      AppendLargest(before, p);
    }
    forall q | 1 <= q <= searchLimit && q % 2 == 1 && hit(q) && q < p + 2
      ensures q in preds
    {
      if q < p {
        assert q in before;
      } else {
        assert q != p + 1;
      }
    }
  }

  /** Appending a value above every element keeps a sequence strictly increasing. */
  lemma {:induction false} AppendLargest(s: seq<int>, x: int)
    requires StrictlyIncreasing(s) && forall i :: 0 <= i < |s| ==> s[i] < x
    ensures StrictlyIncreasing(s + [x])
  {
  }

  /** Once every candidate up to the bound has been tried, preds lists exactly the odd
      predecessors of n in range, in increasing order. */
  lemma {:induction false} SearchFinished(preds: seq<int>, p: int, searchLimit: int, n: int, hit: int -> bool)
    requires Searching(preds, p, searchLimit, hit) && p > searchLimit
    requires forall q :: hit(q) == (AcceleratedSuccessor(q) == Ok(n))
    ensures forall i :: 0 <= i < |preds| ==> IsFoundPredecessor(preds[i], n, searchLimit)
    ensures forall q :: IsFoundPredecessor(q, n, searchLimit) ==> q in preds
    ensures StrictlyIncreasing(preds)
  {
  }

  /** odd_predecessors: every odd candidate in [1, searchLimit] whose successor is n, in
      increasing order; fails on a non-positive or even n. */
  method OddPredecessors(n: int, searchLimit: int) returns (r: Result<seq<int>>)
    ensures n <= 0 ==> r == Err(NotPositive)
    ensures n > 0 && n % 2 == 0 ==> r == Err(NotOdd)
    ensures n > 0 && n % 2 == 1 ==> r.Ok?
    ensures r.Ok? ==> forall i :: 0 <= i < |r.value| ==> IsFoundPredecessor(r.value[i], n, searchLimit)
    ensures r.Ok? ==> forall p :: IsFoundPredecessor(p, n, searchLimit) ==> p in r.value
    ensures r.Ok? ==> StrictlyIncreasing(r.value)
  {
    var positive := AssertPositive(n);
    if positive.Fail? {
      return Err(positive.error);
    }
    var odd := AssertOdd(n);
    if odd.Fail? {
      return Err(odd.error);
    }
    ghost var hit := q => AcceleratedSuccessor(q) == Ok(n);
    var preds: seq<int> := [];
    var p := 1;
    while p <= searchLimit
      invariant Searching(preds, p, searchLimit, hit)
      decreases searchLimit - p
    {
      ghost var before := preds;
      if AcceleratedSuccessor(p) == Ok(n) {
        preds := preds + [p];
      }
      SearchStep(before, preds, p, searchLimit, hit);
      p := p + 2;
    }
    SearchFinished(preds, p, searchLimit, n, hit);
    return Ok(preds);
  }

  /** The closed form, cut off at the search bound. */
  function ClosedFormWithin(n: int, searchLimit: int): Option<int> {
    match SmallestPredecessor(n)
    case Terminal => None
    case Value(p) => if p <= searchLimit then Some(p) else None
  }

  /** The closed form, when it is within range, is found by the search. */
  lemma {:induction false} ClosedFormIsFound(n: int, searchLimit: int)
    requires n > 0 && n % 2 == 1 && ClosedFormWithin(n, searchLimit).Some?
    ensures IsFoundPredecessor(ClosedFormWithin(n, searchLimit).value, n, searchLimit)
  {
    PredecessorIsSound(n);
    PredecessorResidues(n);
  }

  /** Everything the search finds is at least the closed form, which is therefore in range. */
  lemma {:induction false} ClosedFormBelowFound(n: int, searchLimit: int, p: int)
    requires n > 0 && n % 2 == 1 && IsFoundPredecessor(p, n, searchLimit)
    ensures ClosedFormWithin(n, searchLimit).Some? && ClosedFormWithin(n, searchLimit).value <= p
  {
    PredecessorIsLeast(n, p);
  }

  /** The closed form agrees with the brute-force search: it is None exactly when the search
      range holds no odd predecessor, and otherwise the least one there. */
  lemma {:induction false} ClosedFormAgreesWithSearch(n: int, searchLimit: int)
    requires n > 0 && n % 2 == 1
    ensures ClosedFormWithin(n, searchLimit).None? <==> forall p :: !IsFoundPredecessor(p, n, searchLimit)
    ensures ClosedFormWithin(n, searchLimit).Some? ==>
      var q := ClosedFormWithin(n, searchLimit).value;
      IsFoundPredecessor(q, n, searchLimit) && forall p :: IsFoundPredecessor(p, n, searchLimit) ==> q <= p
  {
    forall p | IsFoundPredecessor(p, n, searchLimit)
      ensures ClosedFormWithin(n, searchLimit).Some? && ClosedFormWithin(n, searchLimit).value <= p
    {
      ClosedFormBelowFound(n, searchLimit, p);
    }
    if ClosedFormWithin(n, searchLimit).Some? {
      ClosedFormIsFound(n, searchLimit);
    }
  }

  /** min_odd_predecessor: None when the search finds nothing, otherwise the least odd
      predecessor in range, which is the closed-form smallest predecessor. */
  method MinOddPredecessor(n: int, searchLimit: int) returns (r: Result<Option<int>>)
    ensures n <= 0 ==> r == Err(NotPositive)
    ensures n > 0 && n % 2 == 0 ==> r == Err(NotOdd)
    ensures n > 0 && n % 2 == 1 ==> r.Ok?
    ensures r.Ok? && r.value.None? ==> forall p :: !IsFoundPredecessor(p, n, searchLimit)
    ensures r.Ok? && r.value.Some? ==> IsFoundPredecessor(r.value.value, n, searchLimit)
    ensures r.Ok? && r.value.Some? ==> forall p :: IsFoundPredecessor(p, n, searchLimit) ==> r.value.value <= p
    ensures r.Ok? ==> r.value == ClosedFormWithin(n, searchLimit)
  {
    var preds :- OddPredecessors(n, searchLimit);
    ClosedFormAgreesWithSearch(n, searchLimit);
    if |preds| == 0 {
      return Ok(None);
    }
    assert forall p :: IsFoundPredecessor(p, n, searchLimit) ==> preds[0] <= p;
    return Ok(Some(preds[0]));
  }
}
