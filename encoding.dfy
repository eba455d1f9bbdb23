/** The branch code of the smallest-predecessor chain (reference/encoding.py): the seed the
    chain ends at, the mod-6 branch ("A" or "C") taken at each step, and the depth. Two
    encoders: a direct walk and one that labels the output of canonical_chain. */
module Encoding {
  import opened Common
  import opened Arithmetic
  import opened Predecessor
  import opened Canonical

  /** PredecessorChainCode: an immutable record. */
  datatype ChainCode = ChainCode(seed: int, branches: seq<string>, depth: int)

  /** The seed and labels a walk produces. */
  type Labelling = Result<(int, seq<string>)>

  /** Puts labels already recorded in front of those a later part of the walk records. */
  function Labelled(labels: seq<string>, rest: Labelling): Labelling {
    if rest.Err? then rest else Ok((rest.value.0, labels + rest.value.1))
  }

  lemma {:induction false} LabelledEmpty(rest: Labelling)
    ensures Labelled([], rest) == rest
  {
    if rest.Ok? {
      assert [] + rest.value.1 == rest.value.1;
    }
  }

  lemma {:induction false} LabelledAssociates(a: seq<string>, b: seq<string>, rest: Labelling)
    ensures Labelled(a, Labelled(b, rest)) == Labelled(a + b, rest)
  {
    if rest.Ok? {
      assert a + (b + rest.value.1) == (a + b) + rest.value.1;
    }
  }

  /** The documented reading of a code: starting at n, each "A" is taken from a value that is
      1 (mod 6) to (4n-1)/3, each "C" from a value that is 5 (mod 6) to (2n-1)/3, and the
      walk ends at the seed. */
  predicate IsBranchWalk(n: int, branches: seq<string>, seed: int)
    decreases |branches|
  {
    if branches == [] then n == seed
    else if branches[0] == "A" then n % 6 == 1 && IsBranchWalk((4 * n - 1) / 3, branches[1..], seed)
    else branches[0] == "C" && n % 6 == 5 && IsBranchWalk((2 * n - 1) / 3, branches[1..], seed)
  }

  /** What `fuel` iterations of the loop of encode_predecessor_chain produce from n. */
  function EncodeWalk(n: int, fuel: nat): Labelling
    decreases fuel
  {
    if fuel == 0 then Err(StepLimit)
    else if IsCanonicalSeed(n) then Ok((n, []))
    else
      var r := n % 6;
      if r == 1 || r == 5 then
        var branch := if r == 1 then "A" else "C";
        match SmallestPredecessor(n)
        case Terminal => Err(TerminalMarker)
        case Value(p) => Labelled([branch], EncodeWalk(p, fuel - 1))
      else if r == 3 then Ok((n, []))
      else Err(UnexpectedResidue)
  }

  /** What encode_predecessor_chain returns or raises. */
  function EncodeSpec(n0: int, maxSteps: int): Result<ChainCode> {
    if n0 <= 0 then Err(NotPositive)
    else if n0 % 2 == 0 then Err(NotOdd)
    else if n0 < 3 then Err(BelowThree)
    else
      var walk := EncodeWalk(n0, Fuel(maxSteps));
      if walk.Err? then Err(walk.error)
      else Ok(ChainCode(walk.value.0, walk.value.1, |walk.value.1|))
  }

  /** encode_predecessor_chain: the direct encoder. */
  method EncodePredecessorChain(n0: int, maxSteps: int) returns (r: Result<ChainCode>)
    ensures r == EncodeSpec(n0, maxSteps)
  {
    var positive := AssertPositive(n0);
    if positive.Fail? {
      return Err(positive.error);
    }
    var odd := AssertOdd(n0);
    if odd.Fail? {
      return Err(odd.error);
    }
    if n0 < 3 {
      return Err(BelowThree);
    }
    var fuel := Fuel(maxSteps);
    var branches: seq<string> := [];
    var n := n0;
    LabelledEmpty(EncodeWalk(n0, fuel));
    for i := 0 to fuel
      invariant EncodeWalk(n0, fuel) == Labelled(branches, EncodeWalk(n, fuel - i))
    {
      if IsCanonicalSeed(n) {
        assert branches + [] == branches;
        return Ok(ChainCode(n, branches, |branches|));
      }
      var r := n % 6;
      var branch;
      if r == 1 {
        branch := "A";
      } else if r == 5 {
        branch := "C";
      } else if r == 3 {
        assert branches + [] == branches;
        return Ok(ChainCode(n, branches, |branches|));
      } else {
        return Err(UnexpectedResidue);
      }
      var p := SmallestPredecessor(n);
      if p.Terminal? {
        return Err(TerminalMarker);
      }
      LabelledAssociates(branches, [branch], EncodeWalk(p.p, fuel - i - 1));
      branches := branches + [branch];
      n := p.p;
    }
    return Err(StepLimit);
  }

  /** One step of the walk from a positive odd n that is neither a seed nor 3 (mod 6): the
      label is "A" or "C" by n mod 6, and the walk goes on from the documented predecessor,
      which is positive, odd and never 21 (mod 24). */
  lemma {:induction false} EncodeWalkStep(n: int, fuel: nat)
    requires n > 0 && n % 2 == 1 && fuel > 0 && !IsCanonicalSeed(n) && n % 6 != 3
    ensures SmallestPredecessor(n).Value?
    ensures var p := SmallestPredecessor(n).p;
      && p > 0 && p % 2 == 1 && p % 24 != 21
      && (n % 6 == 1 ==> p == (4 * n - 1) / 3 && EncodeWalk(n, fuel) == Labelled(["A"], EncodeWalk(p, fuel - 1)))
      && (n % 6 == 5 ==> p == (2 * n - 1) / 3 && EncodeWalk(n, fuel) == Labelled(["C"], EncodeWalk(p, fuel - 1)))
  {
    PredecessorResidues(n);
  }

  /** From a positive odd n the walk only ever fails by running out of steps: the residue and
      terminal-marker errors cannot happen. */
  lemma {:induction false} EncodeWalkFailsOnlyOnLimit(n: int, fuel: nat)
    requires n > 0 && n % 2 == 1
    ensures EncodeWalk(n, fuel).Err? ==> EncodeWalk(n, fuel).error == StepLimit
    decreases fuel
  {
    OddResidues(n);
    if fuel > 0 && !IsCanonicalSeed(n) && n % 6 != 3 {
      EncodeWalkStep(n, fuel);
      EncodeWalkFailsOnlyOnLimit(SmallestPredecessor(n).p, fuel - 1);
    }
  }

  /** On success from a positive odd n the walk is a branch walk to a seed that is 3 (mod 6),
      canonical unless n itself is 21 (mod 24), with fewer labels than the fuel. */
  lemma {:induction false} EncodeWalkShape(n: int, fuel: nat)
    requires n > 0 && n % 2 == 1 && EncodeWalk(n, fuel).Ok?
    ensures var (seed, branches) := EncodeWalk(n, fuel).value;
      && IsBranchWalk(n, branches, seed)
      && seed % 6 == 3
      && (IsCanonicalSeed(seed) || (branches == [] && seed == n && n % 24 == 21))
      && |branches| < fuel
    decreases fuel
  {
    OddResidues(n);
    if !IsCanonicalSeed(n) && n % 6 != 3 {
      EncodeWalkStep(n, fuel);
      var p := SmallestPredecessor(n).p;
      EncodeWalkShape(p, fuel - 1);
      var (seed, rest) := EncodeWalk(p, fuel - 1).value;
      var branch := if n % 6 == 1 then "A" else "C";
      assert EncodeWalk(n, fuel) == Ok((seed, [branch] + rest));
      BranchWalkCons(n, p, branch, rest, seed);
    }
  }

  /** One A or C label in front of a branch walk from the matching predecessor. */
  lemma {:induction false} BranchWalkCons(n: int, p: int, branch: string, rest: seq<string>, seed: int)
    requires (branch == "A" && n % 6 == 1 && p == (4 * n - 1) / 3)
          || (branch == "C" && n % 6 == 5 && p == (2 * n - 1) / 3)
    requires IsBranchWalk(p, rest, seed)
    ensures IsBranchWalk(n, [branch] + rest, seed)
  {
    assert ([branch] + rest)[1..] == rest;
  }

  /** The properties of encode_predecessor_chain's result, for every input. */
  lemma {:induction false} EncodeSpecShape(n0: int, maxSteps: int)
    ensures n0 <= 0 ==> EncodeSpec(n0, maxSteps) == Err(NotPositive)
    ensures n0 > 0 && n0 % 2 == 0 ==> EncodeSpec(n0, maxSteps) == Err(NotOdd)
    ensures n0 == 1 ==> EncodeSpec(n0, maxSteps) == Err(BelowThree)
    ensures n0 >= 3 && n0 % 2 == 1 && EncodeSpec(n0, maxSteps).Err? ==>
      EncodeSpec(n0, maxSteps).error == StepLimit
    ensures EncodeSpec(n0, maxSteps).Ok? ==>
      var code := EncodeSpec(n0, maxSteps).value;
      && code.depth == |code.branches| < maxSteps
      && (forall i :: 0 <= i < |code.branches| ==> code.branches[i] == "A" || code.branches[i] == "C")
      && IsBranchWalk(n0, code.branches, code.seed)
      && code.seed % 6 == 3
      && (IsCanonicalSeed(code.seed) || (code.branches == [] && code.seed == n0 && n0 % 24 == 21))
  {
    if n0 >= 3 && n0 % 2 == 1 {
      EncodeWalkFailsOnlyOnLimit(n0, Fuel(maxSteps));
      if EncodeSpec(n0, maxSteps).Ok? {
        EncodeWalkShape(n0, Fuel(maxSteps));
        var code := EncodeSpec(n0, maxSteps).value;
        BranchWalkLabels(n0, code.branches, code.seed);
      }
    }
  }

  /** A branch walk only uses the labels "A" and "C". */
  lemma {:induction false} BranchWalkLabels(n: int, branches: seq<string>, seed: int)
    requires IsBranchWalk(n, branches, seed)
    ensures forall i :: 0 <= i < |branches| ==> branches[i] == "A" || branches[i] == "C"
    decreases |branches|
  {
    if branches != [] {
      var next := if branches[0] == "A" then (4 * n - 1) / 3 else (2 * n - 1) / 3;
      BranchWalkLabels(next, branches[1..], seed);
      forall i | 0 <= i < |branches|
        ensures branches[i] == "A" || branches[i] == "C"
      {
        if i > 0 {
          assert branches[i] == branches[1..][i - 1];
        }
      }
    }
  }

  /** The labelling loop of encode_predecessor_chain_via_chain over the chain without its last
      element `last`; the r == 3 exit ends the scan early with that value as the seed. */
  function ScanLabels(ns: seq<int>, last: int): Labelling
    decreases |ns|
  {
    if |ns| == 0 then Ok((last, []))
    else
      var r := ns[0] % 6;
      if r == 1 then Labelled(["A"], ScanLabels(ns[1..], last))
      else if r == 5 then Labelled(["C"], ScanLabels(ns[1..], last))
      else if r == 3 then Ok((ns[0], []))
      else Err(UnexpectedResidue)
  }

  /** What encode_predecessor_chain_via_chain returns or raises. */
  function ViaChainSpec(n0: int, maxSteps: int): Result<ChainCode> {
    var chain := CanonicalChainSpec(n0, maxSteps);
    if chain.Err? then Err(chain.error)
    else
      var c := chain.value;
      var scan := ScanLabels(c[..|c| - 1], c[|c| - 1]);
      if scan.Err? then Err(scan.error)
      else Ok(ChainCode(scan.value.0, scan.value.1, |scan.value.1|))
  }

  /** encode_predecessor_chain_via_chain: labels the chain canonical_chain returns. */
  method EncodeViaChain(n0: int, maxSteps: int) returns (r: Result<ChainCode>)
    ensures r == ViaChainSpec(n0, maxSteps)
  {
    var chain :- CanonicalChain(n0, maxSteps);
    var seed := chain[|chain| - 1];
    var body := chain[..|chain| - 1];
    var branches: seq<string> := [];
    LabelledEmpty(ScanLabels(body, seed));
    for k := 0 to |body|
      invariant ScanLabels(body, seed) == Labelled(branches, ScanLabels(body[k..], seed))
    {
      var n := body[k];
      var r := n % 6;
      assert body[k..][1..] == body[k + 1..];
      if r == 1 {
        LabelledAssociates(branches, ["A"], ScanLabels(body[k + 1..], seed));
        branches := branches + ["A"];
      } else if r == 5 {
        LabelledAssociates(branches, ["C"], ScanLabels(body[k + 1..], seed));
        branches := branches + ["C"];
      } else if r == 3 {
        assert branches + [] == branches;
        return Ok(ChainCode(n, branches, |branches|));
      } else {
        return Err(UnexpectedResidue);
      }
    }
    assert body[|body|..] == [];
    assert branches + [] == branches;
    return Ok(ChainCode(seed, branches, |branches|));
  }

  /** Labelling a successful descent gives what the direct walk gives. */
  lemma {:induction false} DescentLabelsAgree(n: int, fuel: nat)
    requires n > 0 && n % 2 == 1 && Descent(n, fuel).Ok?
    ensures var c := Descent(n, fuel).value;
      ScanLabels(c[..|c| - 1], c[|c| - 1]) == EncodeWalk(n, fuel)
    decreases fuel
  {
    var c := Descent(n, fuel).value;
    if !IsCanonicalSeed(n) {
      OddResidues(n);
      PredecessorResidues(n);
      var p := SmallestPredecessor(n).p;
      DescentLabelsAgree(p, fuel - 1);
      var rest := Descent(p, fuel - 1).value;
      assert c == [n] + rest;
      ScanCons(n, rest);
    }
  }

  /** Scanning a chain with n in front labels n first, then scans the rest. */
  lemma {:induction false} ScanCons(n: int, rest: seq<int>)
    requires |rest| >= 1 && (n % 6 == 1 || n % 6 == 5)
    ensures var c := [n] + rest;
      ScanLabels(c[..|c| - 1], c[|c| - 1])
        == Labelled([if n % 6 == 1 then "A" else "C"], ScanLabels(rest[..|rest| - 1], rest[|rest| - 1]))
  {
    var c, front := [n] + rest, rest[..|rest| - 1];
    assert c[..|c| - 1] == [n] + front;
    assert ([n] + front)[1..] == front;
  }

  /** The two encoders agree whenever canonical_chain succeeds; the r == 3 exit of the second
      one is then never taken, because no element before the seed is 3 (mod 6). */
  lemma {:induction false} ViaChainAgrees(n0: int, maxSteps: int)
    requires CanonicalChainSpec(n0, maxSteps).Ok?
    ensures ViaChainSpec(n0, maxSteps) == EncodeSpec(n0, maxSteps)
  {
    if n0 == 1 {
      DescentFromOneRunsOut(Fuel(maxSteps));
    }
    DescentLabelsAgree(n0, Fuel(maxSteps));
  }

  /** Where they disagree: from an n0 that is 21 (mod 24) the direct encoder returns n0 itself as
      a depth-0 seed, while canonical_chain, and so the second encoder, meets the marker. */
  lemma {:induction false} EncodersDisagreeOnTwentyOne(n0: int, maxSteps: int)
    requires n0 > 0 && n0 % 24 == 21 && maxSteps >= 1
    ensures EncodeSpec(n0, maxSteps) == Ok(ChainCode(n0, [], 0))
    ensures ViaChainSpec(n0, maxSteps) == Err(TerminalMarker)
  {
    assert SmallestPredecessor(n0) == Terminal;
  }
}
