/** The orbit-code engine of scripts/route_skeleton.py (everything but the Graphviz output):
    the three-symbol successor map s, the orbit code over {A, C, K} read from 1 up to n, its
    decoding into the structural chain, the accelerated chain and the route-skeleton
    endpoints. Its A', C' and K' are the unguarded floor-division versions of that script, not
    those of reference/steps.py, and its symbols are characters, not the branch labels. */
module RouteSkeleton {
  import opened Common
  import opened Arithmetic

  predicate IsOrbitSymbol(c: char) {
    c == 'A' || c == 'C' || c == 'K'
  }

  /** A code over the alphabet {A, C, K}. */
  predicate ValidOrbitCode(code: string) {
    forall i :: 0 <= i < |code| ==> IsOrbitSymbol(code[i])
  }

  /** successor_symbol: A for n = 1, C for n = 3 or 7, K for n = 5 (mod 8); fails exactly on
      an even n, so the "unexpected residue" error never occurs. */
  function SuccessorSymbol(n: int): (r: Result<char>)
    ensures r.Err? <==> n % 2 == 0
    ensures r.Err? ==> r.error == NotOdd
    ensures r.Ok? ==> IsOrbitSymbol(r.value)
    ensures r.Ok? ==> (r.value == 'A' <==> n % 8 == 1)
    ensures r.Ok? ==> (r.value == 'C' <==> n % 8 == 3 || n % 8 == 7)
    ensures r.Ok? ==> (r.value == 'K' <==> n % 8 == 5)
  {
    if n % 2 == 0 then Err(NotOdd)
    else
      var r := n % 8;
      if r == 1 then Ok('A')
      else if r == 3 || r == 7 then Ok('C')
      else if r == 5 then Ok('K')
      else
        OddResidues(n);
        Err(UnexpectedResidue)
  }

  /** Aprime of the script: (3n+1) div 4, rounding down. */
  function APrime(n: int): (r: int)
    ensures 4 * r <= 3 * n + 1 < 4 * r + 4
  {
    (3 * n + 1) / 4
  }

  /** Cprime of the script: (3n+1) div 2, rounding down. */
  function CPrime(n: int): (r: int)
    ensures 2 * r <= 3 * n + 1 < 2 * r + 2
  {
    (3 * n + 1) / 2
  }

  /** Kprime of the script: (n-1) div 4, rounding down. */
  function KPrime(n: int): (r: int)
    ensures 4 * r <= n - 1 < 4 * r + 4
  {
    (n - 1) / 4
  }

  /** s: the successor transform, choosing A', C' or K' by the successor symbol. */
  function S(n: int): (r: Result<int>)
    ensures r.Err? <==> n % 2 == 0
    ensures r.Err? ==> r.error == NotOdd
  {
    var sym := SuccessorSymbol(n);
    if sym.Err? then Err(sym.error)
    else if sym.value == 'A' then Ok(APrime(n))
    else if sym.value == 'C' then Ok(CPrime(n))
    else if sym.value == 'K' then Ok(KPrime(n))
    else Err(UnexpectedResidue)
  }

  /** The predecessor step decode_orbit_code takes for a symbol. */
  function Lift(sym: char, m: int): (r: Result<int>)
    ensures r.Ok? <==> IsOrbitSymbol(sym)
    ensures r.Err? ==> r.error == InvalidSymbol
  {
    if sym == 'A' then Ok((4 * m - 1) / 3)
    else if sym == 'C' then Ok((2 * m - 1) / 3)
    else if sym == 'K' then Ok(4 * m + 1)
    else Err(InvalidSymbol)
  }

  /** s maps an odd n to an odd value, and the predecessor step of n's symbol takes it back:
      (4 s(n) - 1)/3 = n for A, (2 s(n) - 1)/3 = n for C, 4 s(n) + 1 = n for K. */
  lemma {:induction false} LiftUndoesS(n: int)
    requires n % 2 == 1
    ensures S(n).Ok? && S(n).value % 2 == 1
    ensures Lift(SuccessorSymbol(n).value, S(n).value) == Ok(n)
  {
    var sym := SuccessorSymbol(n).value;
    var k := n / 8;
    assert n == 8 * k + n % 8;
    if sym == 'A' {
      assert S(n) == Ok(APrime(n));
      UndoA(n, k);
    } else if sym == 'C' {
      assert S(n) == Ok(CPrime(n));
      if n % 8 == 3 {
        UndoThree(n, k);
      } else {
        UndoSeven(n, k);
      }
    } else {
      assert S(n) == Ok(KPrime(n));
      UndoK(n, k);
    }
  }

  /** For n = 8k + 1: A'(n) = 6k + 1 is odd and (4 A'(n) - 1)/3 = n. */
  lemma {:induction false} UndoA(n: int, k: int)
    requires n == 8 * k + 1
    ensures APrime(n) % 2 == 1 && (4 * APrime(n) - 1) / 3 == n
  {
    var v := APrime(n);
    ExactQuarter(3 * n + 1, 6 * k + 1);
    OddForm(v, 3 * k);
    ExactThird(4 * v - 1, n);
  }

  /** For n = 8k + 3: C'(n) = 12k + 5 is odd and (2 C'(n) - 1)/3 = n. */
  lemma {:induction false} UndoThree(n: int, k: int)
    requires n == 8 * k + 3
    ensures CPrime(n) % 2 == 1 && (2 * CPrime(n) - 1) / 3 == n
  {
    var v := CPrime(n);
    ExactHalf(3 * n + 1, 12 * k + 5);
    OddForm(v, 6 * k + 2);
    ExactThird(2 * v - 1, n);
  }

  /** For n = 8k + 7: C'(n) = 12k + 11 is odd and (2 C'(n) - 1)/3 = n. */
  lemma {:induction false} UndoSeven(n: int, k: int)
    requires n == 8 * k + 7
    ensures CPrime(n) % 2 == 1 && (2 * CPrime(n) - 1) / 3 == n
  {
    var v := CPrime(n);
    ExactHalf(3 * n + 1, 12 * k + 11);
    OddForm(v, 6 * k + 5);
    ExactThird(2 * v - 1, n);
  }

  lemma {:induction false} OddForm(v: int, j: int)
    requires v == 2 * j + 1
    ensures v % 2 == 1
  {
  }

  /** For n = 8k + 5: K'(n) = 2k + 1 is odd and 4 K'(n) + 1 = n. */
  lemma {:induction false} UndoK(n: int, k: int)
    requires n == 8 * k + 5
    ensures KPrime(n) % 2 == 1 && 4 * KPrime(n) + 1 == n
  {
    ExactQuarter(n - 1, 2 * k + 1);
    OddForm(KPrime(n), k);
  }

  /** Divisions with no remainder by the literal divisors the steps use. */
  lemma {:induction false} ExactHalf(a: int, q: int)
    requires a == 2 * q
    ensures a / 2 == q
  {
  }

  lemma {:induction false} ExactThird(a: int, q: int)
    requires a == 3 * q
    ensures a / 3 == q
  {
  }

  lemma {:induction false} ExactQuarter(a: int, q: int)
    requires a == 4 * q
    ensures a / 4 == q
  {
  }

  /** The symbols the loop of orbit_code_from_n records from cur on, in orbit order, within
      `fuel` iterations: the check for 1 runs at the top of each iteration, so reaching 1 after
      k steps takes k + 1 iterations. */
  function Descend(cur: int, fuel: nat): (r: Result<seq<char>>)
    ensures r.Ok? ==> |r.value| < fuel && ValidOrbitCode(r.value)
    decreases fuel
  {
    if fuel == 0 then Err(StepLimit)
    else if cur == 1 then Ok([])
    else
      var sym := SuccessorSymbol(cur);
      if sym.Err? then Err(sym.error)
      else
        var next := S(cur);
        if next.Err? then Err(NotOdd)
        else
          var rest := Descend(next.value, fuel - 1);
          var r := Prefixed([sym.value], rest);
          assert r.Ok? ==> forall i :: 1 <= i < |r.value| ==> r.value[i] == rest.value[i - 1];
          r
  }

  function Reverse(s: seq<char>): (r: seq<char>)
    ensures |r| == |s|
    ensures forall i :: 0 <= i < |s| ==> r[i] == s[|s| - 1 - i]
  {
    if s == [] then [] else Reverse(s[1..]) + [s[0]]
  }

  /** What orbit_code_from_n (and orbit_code, which only forwards to it) returns or raises. */
  function OrbitCodeSpec(n: int, maxSteps: int): Result<string> {
    if n % 2 == 0 then Err(NotOdd)
    else if n == 1 then Ok([])
    else
      var d := Descend(n, Fuel(maxSteps));
      if d.Err? then d else Ok(Reverse(d.value))
  }

  /** orbit_code_from_n: iterate s from n down to 1 recording symbols, then reverse them. */
  method OrbitCodeFromN(n: int, maxSteps: int) returns (r: Result<string>)
    ensures r == OrbitCodeSpec(n, maxSteps)
  {
    if n % 2 == 0 {
      return Err(NotOdd);
    }
    if n == 1 {
      return Ok([]);
    }
    var fuel := Fuel(maxSteps);
    var symbols: seq<char> := [];
    var cur := n;
    var reached := false;
    PrefixedEmpty(Descend(n, fuel));
    for i := 0 to fuel
      invariant Descend(n, fuel) == Prefixed(symbols, Descend(cur, fuel - i))
    {
      if cur == 1 {
        reached := true;
        break;
      }
      var sym := SuccessorSymbol(cur);
      if sym.Err? {
        return Err(sym.error);
      }
      var next := S(cur);
      if next.Err? {
        assert false;
        return Err(NotOdd);
      }
      PrefixedAssociates(symbols, [sym.value], Descend(next.value, fuel - i - 1));
      symbols := symbols + [sym.value];
      cur := next.value;
    }
    if !reached {
      return Err(StepLimit);
    }
    assert symbols + [] == symbols;
    symbols := Reverse(symbols);
    return Ok(symbols);
  }

  /** The orbit code of an odd n only uses A, C and K, is empty for n = 1, and is shorter than
      max_steps otherwise; from an odd n the only failure is running out of steps. */
  lemma {:induction false} OrbitCodeShape(n: int, maxSteps: int)
    requires n % 2 == 1
    ensures n == 1 ==> OrbitCodeSpec(n, maxSteps) == Ok([])
    ensures OrbitCodeSpec(n, maxSteps).Ok? ==> ValidOrbitCode(OrbitCodeSpec(n, maxSteps).value)
    ensures n != 1 && OrbitCodeSpec(n, maxSteps).Ok? ==> |OrbitCodeSpec(n, maxSteps).value| < maxSteps
    ensures OrbitCodeSpec(n, maxSteps).Err? ==> OrbitCodeSpec(n, maxSteps).error == StepLimit
  {
    if n != 1 {
      DescendFailsOnlyOnLimit(n, Fuel(maxSteps));
    }
  }

  /** From an odd value the descent only fails by running out of steps. */
  lemma {:induction false} DescendFailsOnlyOnLimit(cur: int, fuel: nat)
    requires cur % 2 == 1
    ensures Descend(cur, fuel).Err? ==> Descend(cur, fuel).error == StepLimit
    decreases fuel
  {
    if fuel > 0 && cur != 1 {
      LiftUndoesS(cur);
      DescendFailsOnlyOnLimit(S(cur).value, fuel - 1);
    }
  }

  /** The structural chain of a code: start at 1 and apply each symbol's predecessor step in
      order; fails exactly when the code holds a symbol outside {A, C, K}. */
  function StructuralChain(code: string): (r: Result<seq<int>>)
    ensures r.Ok? <==> ValidOrbitCode(code)
    ensures r.Err? ==> r.error == InvalidSymbol
    ensures r.Ok? ==> |r.value| == |code| + 1 && r.value[0] == 1
    decreases |code|
  {
    if |code| == 0 then Ok([1])
    else
      var front := code[..|code| - 1];
      assert forall i :: 0 <= i < |front| ==> front[i] == code[i];
      var prev := StructuralChain(front);
      if prev.Err? then prev
      else
        var next := Lift(code[|code| - 1], prev.value[|prev.value| - 1]);
        if next.Err? then Err(next.error)
        else Ok(prev.value + [next.value])
  }

  /** Each step of the structural chain is the predecessor step of its symbol: the value
      after position i is Lift(code[i]) of the value at i. */
  lemma {:induction false} StructuralStep(code: string, i: nat)
    requires ValidOrbitCode(code) && i < |code|
    ensures var sc := StructuralChain(code).value;
      Lift(code[i], sc[i]) == Ok(sc[i + 1])
    decreases |code|
  {
    var front := code[..|code| - 1];
    var prev := StructuralChain(front).value;
    assert StructuralChain(code).value == prev + [Lift(code[|code| - 1], prev[|prev| - 1]).value];
    if i < |front| {
      StructuralStep(front, i);
      assert front[i] == code[i];
    }
  }

  /** decode_orbit_code: the structural chain [1, ..., n], built symbol by symbol. */
  method DecodeOrbitCode(code: string) returns (r: Result<seq<int>>)
    ensures r == StructuralChain(code)
  {
    var m := 1;
    var chain := [m];
    assert code[..0] == [];
    for i := 0 to |code|
      invariant StructuralChain(code[..i]) == Ok(chain)
      invariant m == chain[|chain| - 1]
    {
      var ch := code[i];
      if ch == 'A' {
        m := (4 * m - 1) / 3;
      } else if ch == 'C' {
        m := (2 * m - 1) / 3;
      } else if ch == 'K' {
        m := 4 * m + 1;
      } else {
        return Err(InvalidSymbol);
      }
      assert code[..i + 1][..i] == code[..i];
      chain := chain + [m];
    }
    assert code[..|code|] == code;
    return Ok(chain);
  }

  /** Decoding the orbit code of an odd n rebuilds the orbit backwards and ends at n. */
  lemma {:induction false} DescendDecodesBack(cur: int, fuel: nat)
    requires cur % 2 == 1 && Descend(cur, fuel).Ok?
    ensures var code := Reverse(Descend(cur, fuel).value);
      StructuralChain(code).Ok? && StructuralChain(code).value[|code|] == cur
    decreases fuel
  {
    if cur != 1 {
      LiftUndoesS(cur);
      var next := S(cur).value;
      DescendDecodesBack(next, fuel - 1);
      var syms := Descend(cur, fuel).value;
      var rest := Descend(next, fuel - 1).value;
      assert syms == [SuccessorSymbol(cur).value] + rest;
      assert syms[1..] == rest;
      var code := Reverse(syms);
      assert code[..|code| - 1] == Reverse(rest);
    }
  }

  /** The structural chain of orbit_code_from_n(n) ends at n. */
  lemma {:induction false} StructuralChainEndsAtN(n: int, maxSteps: int)
    requires n % 2 == 1 && OrbitCodeSpec(n, maxSteps).Ok?
    ensures var code := OrbitCodeSpec(n, maxSteps).value;
      StructuralChain(code).Ok? && StructuralChain(code).value[|code|] == n
  {
    if n != 1 {
      DescendDecodesBack(n, Fuel(maxSteps));
    }
  }

  /** Position p of the structural chain survives into the accelerated chain: the first and
      the last always do, any other one exactly when the next symbol is not K (a value an A
      or C step produces right before a K, and the inside of a K-run, are dropped). */
  predicate Kept(code: string, p: int) {
    p == 0 || p == |code| || (0 < p < |code| && code[p] != 'K')
  }

  predicate Increasing(ks: seq<nat>) {
    forall j, k :: 0 <= j < k < |ks| ==> ks[j] < ks[k]
  }

  /** The kept positions below p, in increasing order. */
  function KeptUpTo(code: string, p: nat): (ks: seq<nat>)
    requires p <= |code| + 1
    ensures forall k :: 0 <= k < |ks| ==> ks[k] < p
  {
    if p == 0 then []
    else KeptUpTo(code, p - 1) + (if Kept(code, p - 1) then [p - 1] else [])
  }

  /** KeptUpTo(code, p) lists, in increasing order, exactly the kept positions below p; it
      starts at 0, and over the whole code it ends at |code|. */
  lemma {:induction false} KeptUpToLists(code: string, p: nat)
    requires p <= |code| + 1
    ensures var ks := KeptUpTo(code, p);
      && (forall k :: 0 <= k < |ks| ==> Kept(code, ks[k]))
      && (forall q :: 0 <= q < p && Kept(code, q) ==> q in ks)
      && Increasing(ks)
      && (p >= 1 ==> |ks| >= 1 && ks[0] == 0)
      && (p == |code| + 1 ==> |ks| >= 1 && ks[|ks| - 1] == |code|)
  {
    KeptUpToSound(code, p);
    KeptUpToComplete(code, p);
    KeptUpToIncreasing(code, p);
    if p >= 1 {
      KeptUpToStart(code, p);
    }
  }

  lemma {:induction false} KeptUpToSound(code: string, p: nat)
    requires p <= |code| + 1
    ensures forall k :: 0 <= k < |KeptUpTo(code, p)| ==> Kept(code, KeptUpTo(code, p)[k])
  {
    if p > 0 {
      KeptUpToSound(code, p - 1);
    }
  }

  lemma {:induction false} KeptUpToComplete(code: string, p: nat)
    requires p <= |code| + 1
    ensures forall q :: 0 <= q < p && Kept(code, q) ==> q in KeptUpTo(code, p)
  {
    if p > 0 {
      KeptUpToComplete(code, p - 1);
    }
  }

  lemma {:induction false} KeptUpToIncreasing(code: string, p: nat)
    requires p <= |code| + 1
    ensures Increasing(KeptUpTo(code, p))
  {
    if p > 0 {
      KeptUpToIncreasing(code, p - 1);
    }
  }

  lemma {:induction false} KeptUpToStart(code: string, p: nat)
    requires 1 <= p <= |code| + 1
    ensures |KeptUpTo(code, p)| >= 1 && KeptUpTo(code, p)[0] == 0
  {
    if p > 1 {
      KeptUpToStart(code, p - 1);
    }
  }

  /** The elements of s at the positions ks, in that order. */
  function Pick(s: seq<int>, ks: seq<nat>): (r: seq<int>)
    requires forall k :: 0 <= k < |ks| ==> ks[k] < |s|
    ensures |r| == |ks|
    ensures forall k :: 0 <= k < |ks| ==> r[k] == s[ks[k]]
  {
    if ks == [] then [] else Pick(s, ks[..|ks| - 1]) + [s[ks[|ks| - 1]]]
  }

  lemma {:induction false} PickAppend(s: seq<int>, ks: seq<nat>, k: nat)
    requires (forall j :: 0 <= j < |ks| ==> ks[j] < |s|) && k < |s|
    ensures Pick(s, ks + [k]) == Pick(s, ks) + [s[k]]
  {
    assert (ks + [k])[..|ks|] == ks;
  }

  /** What accelerated_predecessor_chain_from_code returns or raises. */
  function AcceleratedSpec(code: string): Result<seq<int>> {
    var sc := StructuralChain(code);
    if sc.Err? then Err(InvalidSymbol)
    else Ok(Pick(sc.value, KeptUpTo(code, |code| + 1)))
  }

  /** The state of the replay at position i: the symbols before i are valid, m is the
      structural value at i, and chain holds the structural values at the kept positions up to i. */
  ghost predicate Replayed(code: string, i: nat, m: int, chain: seq<int>) {
    i <= |code| && (forall q :: 0 <= q < i ==> IsOrbitSymbol(code[q])) &&
    (ValidOrbitCode(code) ==>
      var sc := StructuralChain(code).value;
      m == sc[i] && chain == Pick(sc, KeptUpTo(code, i + 1)))
  }

  /** The state inside a K-run that started at i0: the positions after i0 are not recorded yet. */
  ghost predicate InRun(code: string, i0: nat, i: nat, m: int, chain: seq<int>) {
    i0 < i <= |code| && (forall q :: 0 <= q < i ==> IsOrbitSymbol(code[q])) &&
    (ValidOrbitCode(code) ==>
      var sc := StructuralChain(code).value;
      m == sc[i] && chain == Pick(sc, KeptUpTo(code, i)))
  }

  /** An A or C step of the replay followed by another A or C, or by the end of the code:
      the next structural value is recorded. */
  lemma {:induction false} ReplayKept(code: string, i: nat, m: int, next: int, chain: seq<int>)
    requires Replayed(code, i, m, chain) && i < |code| && code[i] != 'K'
    requires Lift(code[i], m) == Ok(next)
    requires i + 1 == |code| || code[i + 1] != 'K'
    ensures Replayed(code, i + 1, next, chain + [next])
  {
    if ValidOrbitCode(code) {
      StructuralStep(code, i);
      PickAppend(StructuralChain(code).value, KeptUpTo(code, i + 1), i + 1);
    }
  }

  /** An A or C step followed by K: the next structural value is not recorded. */
  lemma {:induction false} ReplayDropped(code: string, i: nat, m: int, next: int, chain: seq<int>)
    requires Replayed(code, i, m, chain) && i + 1 < |code| && code[i] != 'K'
    requires Lift(code[i], m) == Ok(next)
    requires code[i + 1] == 'K'
    ensures Replayed(code, i + 1, next, chain)
  {
    if ValidOrbitCode(code) {
      StructuralStep(code, i);
    }
  }

  /** The first K of a run lifts m to 4m + 1 without recording it. */
  lemma {:induction false} ReplayRunStart(code: string, i: nat, m: int, chain: seq<int>)
    requires Replayed(code, i, m, chain) && i < |code| && code[i] == 'K'
    ensures InRun(code, i, i + 1, 4 * m + 1, chain)
  {
    if ValidOrbitCode(code) {
      StructuralStep(code, i);
    }
  }

  /** A further K of the run: position i holds a K, so it is not kept. */
  lemma {:induction false} ReplayRunStep(code: string, i0: nat, i: nat, m: int, chain: seq<int>)
    requires InRun(code, i0, i, m, chain) && i < |code| && code[i] == 'K'
    ensures InRun(code, i0, i + 1, 4 * m + 1, chain)
  {
    if ValidOrbitCode(code) {
      StructuralStep(code, i);
    }
  }

  /** The end of a K-run is kept: its value is recorded. */
  lemma {:induction false} ReplayRunEnd(code: string, i0: nat, i: nat, m: int, chain: seq<int>)
    requires InRun(code, i0, i, m, chain) && (i == |code| || code[i] != 'K')
    ensures Replayed(code, i, m, chain + [m])
  {
    if ValidOrbitCode(code) {
      PickAppend(StructuralChain(code).value, KeptUpTo(code, i), i);
    }
  }

  /** One A or C step of the replay, with the value recorded exactly when no K follows. */
  lemma {:induction false} ReplayStep(code: string, i: nat, m: int, next: int, chain: seq<int>, chain': seq<int>)
    requires Replayed(code, i, m, chain) && i < |code| && (code[i] == 'A' || code[i] == 'C')
    requires next == if code[i] == 'A' then (4 * m - 1) / 3 else (2 * m - 1) / 3
    requires chain' == if i + 1 >= |code| || code[i + 1] != 'K' then chain + [next] else chain
    ensures Replayed(code, i + 1, next, chain')
  {
    if i + 1 >= |code| || code[i + 1] != 'K' {
      ReplayKept(code, i, m, next, chain);
    } else {
      ReplayDropped(code, i, m, next, chain);
    }
  }

  /** The state of the inner loop over a K-run that started at i0. */
  ghost predicate KRun(code: string, i0: nat, i: nat, m: int, chain: seq<int>) {
    i0 <= i &&
    if i == i0 then Replayed(code, i, m, chain) && i < |code| && code[i] == 'K'
    else InRun(code, i0, i, m, chain)
  }

  lemma {:induction false} KRunStep(code: string, i0: nat, i: nat, m: int, chain: seq<int>)
    requires KRun(code, i0, i, m, chain) && i < |code| && code[i] == 'K'
    ensures KRun(code, i0, i + 1, 4 * m + 1, chain)
  {
    if i == i0 {
      ReplayRunStart(code, i, m, chain);
    } else {
      ReplayRunStep(code, i0, i, m, chain);
    }
  }

  lemma {:induction false} KRunEnd(code: string, i0: nat, i: nat, m: int, chain: seq<int>)
    requires KRun(code, i0, i, m, chain) && (i == |code| || code[i] != 'K')
    ensures i0 < i && Replayed(code, i, m, chain + [m])
  {
    if i != i0 {
      ReplayRunEnd(code, i0, i, m, chain);
    }
  }

  /** accelerated_predecessor_chain_from_code: replays the structural chain, dropping the values
      of A/C steps followed by K and recording only the last value of each K-run. */
  method AcceleratedPredecessorChainFromCode(code: string) returns (r: Result<seq<int>>)
    ensures r == AcceleratedSpec(code)
  {
    var m := 1;
    var chain := [m];
    var i := 0;
    var L := |code|;
    while i < L
      invariant Replayed(code, i, m, chain)
    {
      var ch := code[i];
      if ch == 'A' || ch == 'C' {
        ghost var m0, chain0 := m, chain;
        m := if ch == 'A' then (4 * m - 1) / 3 else (2 * m - 1) / 3;
        if i + 1 >= L || code[i + 1] != 'K' {
          chain := chain + [m];
        }
        ReplayStep(code, i, m0, m, chain0, chain);
        i := i + 1;
      } else if ch == 'K' {
        ghost var i0 := i;
        while i < L && code[i] == 'K'
          invariant KRun(code, i0, i, m, chain)
        {
          KRunStep(code, i0, i, m, chain);
          m := 4 * m + 1;
          i := i + 1;
        }
        KRunEnd(code, i0, i, m, chain);
        chain := chain + [m];
      } else {
        return Err(InvalidSymbol);
      }
    }
    return Ok(chain);
  }

  /** sub is sup with some elements left out, the rest in their original order. */
  ghost predicate IsOrderedSubsequence(sub: seq<int>, sup: seq<int>) {
    exists ks: seq<nat> :: |ks| == |sub| && Increasing(ks)
      && (forall k :: 0 <= k < |ks| ==> ks[k] < |sup| && sub[k] == sup[ks[k]])
  }

  /** The accelerated chain starts at 1, ends where the structural chain ends, and is an ordered
      subsequence of it. */
  lemma {:induction false} AcceleratedWithinStructural(code: string)
    requires ValidOrbitCode(code)
    ensures var acc := AcceleratedSpec(code).value;
      var sc := StructuralChain(code).value;
      && AcceleratedSpec(code).Ok?
      && acc[0] == 1 && acc[|acc| - 1] == sc[|code|]
      && IsOrderedSubsequence(acc, sc)
  {
    var ks := KeptUpTo(code, |code| + 1);
    KeptUpToLists(code, |code| + 1);
    assert |ks| == |AcceleratedSpec(code).value|;
  }

  /** Without a K nothing is dropped: the accelerated chain is the structural chain. */
  lemma {:induction false} AcceleratedWithoutK(code: string)
    requires ValidOrbitCode(code) && forall i :: 0 <= i < |code| ==> code[i] != 'K'
    ensures AcceleratedSpec(code) == StructuralChain(code)
  {
    AllKept(code, |code| + 1);
    PickEverything(StructuralChain(code).value, KeptUpTo(code, |code| + 1));
  }

  /** Picking every position in order gives the whole sequence back. */
  lemma {:induction false} PickEverything(s: seq<int>, ks: seq<nat>)
    requires |ks| == |s| && forall k :: 0 <= k < |ks| ==> ks[k] == k
    ensures Pick(s, ks) == s
  {
    var r := Pick(s, ks);
    forall k | 0 <= k < |s|
      ensures r[k] == s[k]
    {
      assert ks[k] == k;
    }
  }

  /** When every position is kept, the kept positions below p are 0, 1, ..., p-1. */
  lemma {:induction false} AllKept(code: string, p: nat)
    requires p <= |code| + 1 && forall i :: 0 <= i < |code| ==> code[i] != 'K'
    ensures |KeptUpTo(code, p)| == p && forall k :: 0 <= k < p ==> KeptUpTo(code, p)[k] == k
  {
    if p > 0 {
      AllKept(code, p - 1);
      assert Kept(code, p - 1);
    }
  }

  /** Every symbol in s is of one kind: all K or all A/C (a maximal block of parse_blocks). */
  predicate IsKBlock(b: string) {
    |b| > 0 && forall i :: 0 <= i < |b| ==> b[i] == 'K'
  }

  predicate IsACBlock(b: string) {
    |b| > 0 && forall i :: 0 <= i < |b| ==> b[i] == 'A' || b[i] == 'C'
  }

  function Concat(blocks: seq<string>): string {
    if blocks == [] then [] else Concat(blocks[..|blocks| - 1]) + blocks[|blocks| - 1]
  }

  /** A block ends at position p: the code ends there, or K and A/C meet there. */
  predicate IsBoundary(code: string, p: int) {
    0 < p <= |code| && (p == |code| || (code[p - 1] == 'K') != (code[p] == 'K'))
  }

  /** The block ends below p, in increasing order. */
  function BoundariesUpTo(code: string, p: nat): seq<nat>
    requires p <= |code| + 1
  {
    if p == 0 then []
    else BoundariesUpTo(code, p - 1) + (if IsBoundary(code, p - 1) then [p - 1] else [])
  }

  /** BoundariesUpTo(code, p) lists, in increasing order, exactly the block ends below p. */
  lemma {:induction false} BoundariesUpToLists(code: string, p: nat)
    requires p <= |code| + 1
    ensures var bs := BoundariesUpTo(code, p);
      && (forall k :: 0 <= k < |bs| ==> bs[k] < p && IsBoundary(code, bs[k]))
      && (forall q :: 0 <= q < p && IsBoundary(code, q) ==> q in bs)
      && Increasing(bs)
  {
    if p > 0 {
      BoundariesUpToLists(code, p - 1);
    }
  }

  /** Inside a run of one kind there is no block end. */
  lemma {:induction false} NoBoundaryInRun(code: string, i: nat, j: nat)
    requires i < j <= |code|
    requires forall q :: i < q < j ==> !IsBoundary(code, q)
    ensures BoundariesUpTo(code, j) == BoundariesUpTo(code, i + 1)
    decreases j
  {
    if j > i + 1 {
      NoBoundaryInRun(code, i, j - 1);
    }
  }

  /** All block ends: every one is at most |code|, and the last is |code| itself. */
  function Boundaries(code: string): (bs: seq<nat>)
    ensures forall k :: 0 <= k < |bs| ==> bs[k] <= |code|
    ensures |code| > 0 ==> |bs| > 0 && bs[|bs| - 1] == |code|
  {
    BoundariesUpToLists(code, |code| + 1);
    BoundariesUpTo(code, |code| + 1)
  }

  /** Where the blocks end: the running totals of their lengths. */
  function BlockEnds(blocks: seq<string>): (ends: seq<nat>)
    ensures |ends| == |blocks|
    ensures forall k :: 0 <= k < |ends| ==> ends[k] <= |Concat(blocks)|
  {
    if blocks == [] then [] else BlockEnds(blocks[..|blocks| - 1]) + [|Concat(blocks)|]
  }

  /** The state of parse_blocks once code[..i] has been split: maximal blocks of one kind each,
      whose ends are the block ends of the code up to i. */
  ghost predicate Parsed(code: string, blocks: seq<string>, i: int) {
    && 0 <= i <= |code|
    && Concat(blocks) == code[..i]
    && (forall k :: 0 <= k < |blocks| ==> IsKBlock(blocks[k]) || IsACBlock(blocks[k]))
    && (forall k :: 0 <= k < |blocks| - 1 ==> IsKBlock(blocks[k]) != IsKBlock(blocks[k + 1]))
    && (|blocks| > 0 ==> 0 < i && (IsKBlock(blocks[|blocks| - 1]) <==> code[i - 1] == 'K'))
    && (0 < i ==> IsBoundary(code, i))
    && BlockEnds(blocks) == BoundariesUpTo(code, i + 1)
  }

  /** A block of one kind: K exactly when it starts with K. */
  lemma {:induction false} BlockKind(b: string)
    requires IsKBlock(b) || IsACBlock(b)
    ensures IsKBlock(b) <==> b[0] == 'K'
    ensures IsKBlock(b) <==> b[|b| - 1] == 'K'
  {
  }

  /** Splitting off the next maximal block code[i..j] keeps the parse state. */
  lemma {:induction false} ParsedStep(code: string, blocks: seq<string>, i: nat, j: nat)
    requires Parsed(code, blocks, i) && i < j <= |code|
    requires IsKBlock(code[i..j]) || IsACBlock(code[i..j])
    requires IsBoundary(code, j)
    ensures Parsed(code, blocks + [code[i..j]], j)
  {
    var b := code[i..j];
    var bs := blocks + [b];
    assert bs[..|bs| - 1] == blocks;
    assert code[..i] + b == code[..j];
    BlockKind(b);
    assert b[0] == code[i] && b[|b| - 1] == code[j - 1];
    NoBoundaryInBlock(code, i, j);
    NoBoundaryInRun(code, i, j);
    assert BlockEnds(bs) == BlockEnds(blocks) + [j];
    assert BoundariesUpTo(code, j + 1) == BoundariesUpTo(code, j) + [j];
    assert IsKBlock(bs[|bs| - 1]) <==> code[j - 1] == 'K';
    if |blocks| > 0 {
      assert IsKBlock(blocks[|blocks| - 1]) != IsKBlock(b);
    }
    BlocksAppend(blocks, b);
  }

  /** Appending a block of one kind, of the other kind than the last block, keeps the blocks
      of one kind each and alternating. */
  lemma {:induction false} BlocksAppend(blocks: seq<string>, b: string)
    requires forall k :: 0 <= k < |blocks| ==> IsKBlock(blocks[k]) || IsACBlock(blocks[k])
    requires forall k :: 0 <= k < |blocks| - 1 ==> IsKBlock(blocks[k]) != IsKBlock(blocks[k + 1])
    requires IsKBlock(b) || IsACBlock(b)
    requires |blocks| > 0 ==> IsKBlock(blocks[|blocks| - 1]) != IsKBlock(b)
    ensures var bs := blocks + [b];
      && (forall k :: 0 <= k < |bs| ==> IsKBlock(bs[k]) || IsACBlock(bs[k]))
      && (forall k :: 0 <= k < |bs| - 1 ==> IsKBlock(bs[k]) != IsKBlock(bs[k + 1]))
  {
    var bs := blocks + [b];
    assert forall k :: 0 <= k < |blocks| ==> bs[k] == blocks[k];
  }

  /** No block end falls strictly inside a block of one kind. */
  lemma {:induction false} NoBoundaryInBlock(code: string, i: nat, j: nat)
    requires i < j <= |code|
    requires IsKBlock(code[i..j]) || IsACBlock(code[i..j])
    ensures forall q :: i < q < j ==> !IsBoundary(code, q)
  {
    var b := code[i..j];
    forall q | i < q < j
      ensures !IsBoundary(code, q)
    {
      assert code[q - 1] == b[q - 1 - i] && code[q] == b[q - i];
    }
  }

  /** parse_blocks: splits a code into maximal blocks of K and of A/C. A symbol outside
      {A, C, K} makes the source loop forever, so the code must be over that alphabet. */
  method ParseBlocks(code: string) returns (blocks: seq<string>)
    requires ValidOrbitCode(code)
    ensures Concat(blocks) == code
    ensures forall k :: 0 <= k < |blocks| ==> IsKBlock(blocks[k]) || IsACBlock(blocks[k])
    ensures forall k :: 0 <= k < |blocks| - 1 ==> IsKBlock(blocks[k]) != IsKBlock(blocks[k + 1])
    ensures BlockEnds(blocks) == Boundaries(code)
  {
    blocks := [];
    var i := 0;
    while i < |code|
      invariant Parsed(code, blocks, i)
    {
      var ch := code[i];
      var j := i;
      if ch == 'K' {
        while j < |code| && code[j] == 'K'
          invariant i <= j <= |code|
          invariant j == i ==> j < |code| && code[j] == 'K'
          invariant forall q :: i <= q < j ==> code[q] == 'K'
        {
          j := j + 1;
        }
        assert IsKBlock(code[i..j]);
      } else {
        while j < |code| && (code[j] == 'A' || code[j] == 'C')
          invariant i <= j <= |code|
          invariant j == i ==> j < |code| && (code[j] == 'A' || code[j] == 'C')
          invariant forall q :: i <= q < j ==> code[q] == 'A' || code[q] == 'C'
        {
          j := j + 1;
        }
        assert IsACBlock(code[i..j]);
      }
      ParsedStep(code, blocks, i, j);
      blocks := blocks + [code[i..j]];
      i := j;
    }
    assert code[..|code|] == code;
  }

  /** What route_skeleton_from_code returns or raises. */
  function RouteSkeletonSpec(code: string, sc: seq<int>): Result<seq<int>> {
    if |sc| != |code| + 1 then Err(LengthMismatch)
    else Ok([sc[0]] + Pick(sc, Boundaries(code)))
  }

  /** route_skeleton_from_code: the first structural value, then the value at the end of each
      maximal block. */
  method RouteSkeletonFromCode(code: string, sc: seq<int>) returns (r: Result<seq<int>>)
    requires |sc| != |code| + 1 || ValidOrbitCode(code)
    ensures r == RouteSkeletonSpec(code, sc)
  {
    if |sc| != |code| + 1 {
      return Err(LengthMismatch);
    }
    var blocks := ParseBlocks(code);
    var endpoints := [sc[0]];
    var idx := 0;
    for k := 0 to |blocks|
      invariant Skeleton(blocks, sc, k, idx, endpoints)
    {
      SkeletonStep(blocks, sc, k, idx, endpoints);
      idx := idx + |blocks[k]|;
      endpoints := endpoints + [sc[idx]];
    }
    assert blocks[..|blocks|] == blocks;
    return Ok(endpoints);
  }

  /** The state of the loop of route_skeleton_from_code after k blocks: idx is where the k-th
      block ends, and endpoints holds the first structural value and those at the k block
      ends. */
  ghost predicate Skeleton(blocks: seq<string>, sc: seq<int>, k: nat, idx: int, endpoints: seq<int>) {
    && k <= |blocks| && |Concat(blocks)| < |sc|
    && idx == |Concat(blocks[..k])| <= |Concat(blocks)|
    && endpoints == [sc[0]] + Pick(sc, BlockEnds(blocks[..k]))
  }

  /** Taking one more block moves the running index to that block's end, where the next
      structural value is recorded. */
  lemma {:induction false} SkeletonStep(blocks: seq<string>, sc: seq<int>, k: nat, idx: int, endpoints: seq<int>)
    requires Skeleton(blocks, sc, k, idx, endpoints) && k < |blocks|
    ensures 0 <= idx + |blocks[k]| < |sc|
    ensures Skeleton(blocks, sc, k + 1, idx + |blocks[k]|, endpoints + [sc[idx + |blocks[k]|]])
  {
    BlocksStep(blocks, k);
    var next := idx + |blocks[k]|;
    var picked := Pick(sc, BlockEnds(blocks[..k]));
    PickAppend(sc, BlockEnds(blocks[..k]), next);
    assert endpoints + [sc[next]] == [sc[0]] + (picked + [sc[next]]);
  }

  /** One more block adds its length to the concatenation and its end to the block ends. */
  lemma {:induction false} BlocksStep(blocks: seq<string>, k: nat)
    requires k < |blocks|
    ensures |Concat(blocks[..k + 1])| == |Concat(blocks[..k])| + |blocks[k]| <= |Concat(blocks)|
    ensures BlockEnds(blocks[..k + 1]) == BlockEnds(blocks[..k]) + [|Concat(blocks[..k + 1])|]
  {
    ConcatPrefix(blocks, k + 1);
    var front := blocks[..k + 1];
    assert front[..k] == blocks[..k];
  }

  /** The concatenation of the first k blocks is no longer than the whole. */
  lemma {:induction false} ConcatPrefix(blocks: seq<string>, k: nat)
    requires k <= |blocks|
    ensures |Concat(blocks[..k])| <= |Concat(blocks)|
    decreases |blocks|
  {
    if k < |blocks| {
      var front := blocks[..|blocks| - 1];
      assert blocks[..k] == front[..k];
      ConcatPrefix(front, k);
    } else {
      assert blocks[..k] == blocks;
    }
  }

  /** The route skeleton has one value per block plus one, starts at the first structural
      value and ends at the last. */
  lemma {:induction false} RouteSkeletonEndpoints(code: string, sc: seq<int>)
    requires |sc| == |code| + 1
    ensures var r := RouteSkeletonSpec(code, sc).value;
      && RouteSkeletonSpec(code, sc).Ok?
      && |r| == |Boundaries(code)| + 1
      && r[0] == sc[0] && r[|r| - 1] == sc[|code|]
  {
  }

  /** For the orbit code of an odd n, the structural chain, the accelerated chain and the
      route skeleton all run from 1 to n. */
  lemma {:induction false} OrbitChainsEndAtN(n: int, maxSteps: int)
    requires n % 2 == 1 && OrbitCodeSpec(n, maxSteps).Ok?
    ensures var code := OrbitCodeSpec(n, maxSteps).value;
      var sc := StructuralChain(code).value;
      var acc := AcceleratedSpec(code).value;
      var skel := RouteSkeletonSpec(code, sc).value;
      && StructuralChain(code).Ok? && AcceleratedSpec(code).Ok? && RouteSkeletonSpec(code, sc).Ok?
      && sc[0] == 1 && sc[|sc| - 1] == n
      && acc[0] == 1 && acc[|acc| - 1] == n
      && skel[0] == 1 && skel[|skel| - 1] == n
  {
    var code := OrbitCodeSpec(n, maxSteps).value;
    OrbitCodeShape(n, maxSteps);
    StructuralChainEndsAtN(n, maxSteps);
    AcceleratedWithinStructural(code);
    RouteSkeletonEndpoints(code, StructuralChain(code).value);
  }
}
