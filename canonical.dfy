/** Canonical terminal seeds (reference/canonical.py): follow smallest predecessors from an
    odd n0 until a value that is 3, 9 or 15 (mod 24) is reached. The descent is bounded by
    max_steps, modelled as fuel; whether it always ends is not a question this model asks. */
module Canonical {
  import opened Common
  import opened Arithmetic
  import opened Predecessor

  /** is_canonical_seed: m is 3, 9 or 15 (mod 24). Every seed is an odd multiple of three,
      and among odd multiples of three exactly those that are not 21 (mod 24) are seeds. */
  predicate IsCanonicalSeed(m: int)
    ensures IsCanonicalSeed(m) ==> m % 2 == 1 && m % 6 == 3
    ensures m % 6 == 3 ==> (IsCanonicalSeed(m) <==> m % 24 != 21)
  {
    ModTwentyFour(m);
    var r := m % 24;
    assert r % 6 == 3 ==> r == 3 || r == 9 || r == 15 || r == 21 by {
      assert r == 6 * (r / 6) + r % 6;
    }
    r == 3 || r == 9 || r == 15
  }

  /** The chain that `fuel` iterations of the loop of canonical_chain produce from n: the limit
      check runs at the top of every iteration, so a chain of k elements needs k iterations. */
  function Descent(n: int, fuel: nat): (r: Result<seq<int>>)
    ensures r.Ok? ==> 1 <= |r.value| <= fuel && r.value[0] == n
    ensures r.Ok? ==> IsCanonicalSeed(r.value[|r.value| - 1])
    ensures r.Err? ==> r.error == StepLimit || r.error == TerminalMarker
    decreases fuel
  {
    if fuel == 0 then Err(StepLimit)
    else if IsCanonicalSeed(n) then Ok([n])
    else
      match SmallestPredecessor(n)
      case Terminal => Err(TerminalMarker)
      case Value(p) => Prefixed([n], Descent(p, fuel - 1))
  }

  /** Along a successful descent, every element but the last is not a seed, and each next
      element is the smallest predecessor of the one before. */
  lemma {:induction false} DescentLinks(n: int, fuel: nat)
    requires Descent(n, fuel).Ok?
    ensures var c := Descent(n, fuel).value;
      forall i :: 0 <= i < |c| - 1 ==>
        !IsCanonicalSeed(c[i]) && SmallestPredecessor(c[i]) == Value(c[i + 1])
    decreases fuel
  {
    if !IsCanonicalSeed(n) {
      var p := SmallestPredecessor(n).p;
      DescentLinks(p, fuel - 1);
      var c := Descent(n, fuel).value;
      var rest := Descent(p, fuel - 1).value;
      assert c == [n] + rest;
      forall i | 0 <= i < |c| - 1
        ensures !IsCanonicalSeed(c[i]) && SmallestPredecessor(c[i]) == Value(c[i + 1])
      {
        if i > 0 {
          assert c[i] == rest[i - 1] && c[i + 1] == rest[i];
        }
      }
    }
  }

  /** What canonical_chain returns or raises. */
  function CanonicalChainSpec(n0: int, maxSteps: int): Result<seq<int>> {
    if n0 <= 0 then Err(NotPositive)
    else if n0 % 2 == 0 then Err(NotOdd)
    else Descent(n0, Fuel(maxSteps))
  }

  /** The state of the loop of canonical_chain after i iterations: chain is the part done so
      far followed by the current n, and the descent from n0 is that part followed by the
      descent from n with the fuel that is left. */
  ghost predicate Descending(n0: int, fuel: nat, i: nat, done: seq<int>, n: int, chain: seq<int>) {
    && i <= fuel && |done| == i && chain == done + [n]
    && Descent(n0, fuel) == Prefixed(done, Descent(n, fuel - i))
  }

  lemma {:induction false} DescendingStart(n0: int, fuel: nat)
    ensures Descending(n0, fuel, 0, [], n0, [n0])
  {
    PrefixedEmpty(Descent(n0, fuel));
  }

  /** A step to the smallest predecessor p of a value n that is not a seed. */
  lemma {:induction false} DescendingStep(n0: int, fuel: nat, i: nat, done: seq<int>, n: int, chain: seq<int>, p: int)
    requires Descending(n0, fuel, i, done, n, chain) && i < fuel
    requires !IsCanonicalSeed(n) && SmallestPredecessor(n) == Value(p)
    ensures Descending(n0, fuel, i + 1, done + [n], p, chain + [p])
  {
    PrefixedAssociates(done, [n], Descent(p, fuel - i - 1));
  }

  /** The loop stops with the chain at a seed, or fails at the terminal marker. */
  lemma {:induction false} DescendingStop(n0: int, fuel: nat, i: nat, done: seq<int>, n: int, chain: seq<int>)
    requires Descending(n0, fuel, i, done, n, chain) && i < fuel
    ensures IsCanonicalSeed(n) ==> Descent(n0, fuel) == Ok(chain)
    ensures !IsCanonicalSeed(n) && SmallestPredecessor(n).Terminal? ==>
      Descent(n0, fuel) == Err(TerminalMarker)
  {
  }

  /** Once the fuel is used up, the descent has run out of steps. */
  lemma {:induction false} DescendingExhausted(n0: int, fuel: nat, done: seq<int>, n: int, chain: seq<int>)
    requires Descending(n0, fuel, fuel, done, n, chain)
    ensures Descent(n0, fuel) == Err(StepLimit)
  {
  }

  /** canonical_chain: the smallest-predecessor chain from n0 up to the first canonical seed. */
  method CanonicalChain(n0: int, maxSteps: int) returns (r: Result<seq<int>>)
    ensures r == CanonicalChainSpec(n0, maxSteps)
    ensures n0 <= 0 ==> r == Err(NotPositive)
    ensures n0 > 0 && n0 % 2 == 0 ==> r == Err(NotOdd)
    ensures r.Ok? ==> r.value[0] == n0 && IsCanonicalSeed(r.value[|r.value| - 1])
    ensures r.Ok? ==> |r.value| <= maxSteps
  {
    var positive := AssertPositive(n0);
    if positive.Fail? {
      return Err(positive.error);
    }
    var odd := AssertOdd(n0);
    if odd.Fail? {
      return Err(odd.error);
    }
    var fuel := Fuel(maxSteps);
    var chain := [n0];
    var n := n0;
    ghost var done: seq<int> := [];
    DescendingStart(n0, fuel);
    for i := 0 to fuel
      invariant Descending(n0, fuel, i, done, n, chain)
    {
      DescendingStop(n0, fuel, i, done, n, chain);
      if IsCanonicalSeed(n) {
        return Ok(chain);
      }
      var p := SmallestPredecessor(n);
      if p.Terminal? {
        return Err(TerminalMarker);
      }
      DescendingStep(n0, fuel, i, done, n, chain, p.p);
      done := done + [n];
      chain := chain + [p.p];
      n := p.p;
    }
    DescendingExhausted(n0, fuel, done, n, chain);
    return Err(StepLimit);
  }

  /** Starting from a positive odd number, every element of a descent is positive and odd. */
  lemma {:induction false} DescentStaysOdd(n: int, fuel: nat)
    requires n > 0 && n % 2 == 1 && Descent(n, fuel).Ok?
    ensures forall i :: 0 <= i < |Descent(n, fuel).value| ==>
      Descent(n, fuel).value[i] > 0 && Descent(n, fuel).value[i] % 2 == 1
    decreases fuel
  {
    if !IsCanonicalSeed(n) {
      PredecessorResidues(n);
      var p := SmallestPredecessor(n).p;
      DescentStaysOdd(p, fuel - 1);
    }
  }

  /** The terminal marker is met exactly when n0 itself is 21 (mod 24): predecessors are never
      21 (mod 24), and an odd multiple of three that is not 21 (mod 24) is already a seed. */
  lemma {:induction false} DescentTerminalExactly(n: int, fuel: nat)
    requires n > 0 && n % 2 == 1 && fuel >= 1
    ensures Descent(n, fuel) == Err(TerminalMarker) <==> n % 24 == 21
  {
    ModTwentyFour(n);
    if n % 24 == 21 {
      assert n % 6 == 3 && !IsCanonicalSeed(n);
      assert SmallestPredecessor(n).Terminal?;
    } else if !IsCanonicalSeed(n) {
      assert n % 6 != 3;
      PredecessorResidues(n);
      var p := SmallestPredecessor(n).p;
      if fuel >= 2 {
        DescentNeverTerminalAfterFirst(p, fuel - 1);
      } else {
        assert Descent(p, fuel - 1) == Err(StepLimit);
      }
    }
  }

  /** From a value that is not 21 (mod 24) the descent never meets the terminal marker. */
  lemma {:induction false} DescentNeverTerminalAfterFirst(n: int, fuel: nat)
    requires n > 0 && n % 2 == 1 && n % 24 != 21
    ensures Descent(n, fuel) != Err(TerminalMarker)
    decreases fuel
  {
    if fuel > 0 && !IsCanonicalSeed(n) {
      PredecessorResidues(n);
      DescentNeverTerminalAfterFirst(SmallestPredecessor(n).p, fuel - 1);
    }
  }

  /** 1 is its own smallest predecessor and is not a seed, so its descent never ends. */
  lemma {:induction false} DescentFromOneRunsOut(fuel: nat)
    ensures Descent(1, fuel) == Err(StepLimit)
    decreases fuel
  {
    if fuel > 0 {
      assert SmallestPredecessor(1) == Value(1);
      DescentFromOneRunsOut(fuel - 1);
    }
  }

  /** p after k smallest-predecessor steps from n (Terminal once the marker appears). */
  function SmallestIterate(n: int, k: nat): Pred
    decreases k
  {
    if k == 0 then Value(n)
    else
      match SmallestPredecessor(n)
      case Terminal => Terminal
      case Value(p) => SmallestIterate(p, k - 1)
  }

  /** The last element of a successful descent is reached by |chain| - 1 predecessor steps. */
  lemma {:induction false} DescentReachesSeed(n: int, fuel: nat)
    requires Descent(n, fuel).Ok?
    ensures var c := Descent(n, fuel).value;
      SmallestIterate(n, |c| - 1) == Value(c[|c| - 1])
    decreases fuel
  {
    if !IsCanonicalSeed(n) {
      DescentReachesSeed(SmallestPredecessor(n).p, fuel - 1);
    }
  }

  /** canonical_seed: the last element of the chain, a canonical seed. */
  method CanonicalSeed(n0: int, maxSteps: int) returns (r: Result<int>)
    ensures CanonicalChainSpec(n0, maxSteps).Err? ==> r == Err(CanonicalChainSpec(n0, maxSteps).error)
    ensures CanonicalChainSpec(n0, maxSteps).Ok? ==> r.Ok? && IsCanonicalSeed(r.value)
    ensures r.Ok? ==> exists k :: 0 <= k < maxSteps && SmallestIterate(n0, k) == Value(r.value)
  {
    var chain :- CanonicalChain(n0, maxSteps);
    DescentReachesSeed(n0, Fuel(maxSteps));
    return Ok(chain[|chain| - 1]);
  }

  /** canonical_signature: the seed and the number of predecessor steps taken to reach it. */
  method CanonicalSignature(n0: int, maxSteps: int) returns (r: Result<(int, nat)>)
    ensures CanonicalChainSpec(n0, maxSteps).Err? ==> r == Err(CanonicalChainSpec(n0, maxSteps).error)
    ensures CanonicalChainSpec(n0, maxSteps).Ok? ==> r.Ok? && IsCanonicalSeed(r.value.0)
    ensures r.Ok? ==> r.value.1 < maxSteps && SmallestIterate(n0, r.value.1) == Value(r.value.0)
    ensures r.Ok? ==> (r.value.1 == 0 <==> IsCanonicalSeed(n0))
  {
    var chain :- CanonicalChain(n0, maxSteps);
    DescentReachesSeed(n0, Fuel(maxSteps));
    return Ok((chain[|chain| - 1], |chain| - 1));
  }
}
