/** Decoding a branch code (reference/decoding.py): start at the seed and undo the recorded
    predecessor steps last to first with the guarded A' and C'. */
module Decoding {
  import opened Common
  import opened Arithmetic
  import opened Steps
  import opened Encoding

  /** One decoding step: "A" applies A', "C" applies C', any other label is rejected. An "A"
      step succeeds exactly on n = 1 or 5 (mod 8) and gives r with 4r = 3n+1; a "C" step
      succeeds exactly on odd n and gives r with 2r = 3n+1. */
  function DecodeStep(branch: string, n: int): (r: Result<int>)
    ensures branch == "A" ==> (r.Ok? <==> n % 8 == 1 || n % 8 == 5)
    ensures branch == "A" && r.Ok? ==> 4 * r.value == 3 * n + 1
    ensures branch == "A" && (n % 8 == 3 || n % 8 == 7) ==> r == Err(NotDivisible)
    ensures branch == "C" ==> (r.Ok? <==> n % 2 == 1)
    ensures branch == "C" && r.Ok? ==> 2 * r.value == 3 * n + 1
    ensures (branch == "A" || branch == "C") && n % 2 == 0 ==> r == Err(NotOdd)
    ensures branch != "A" && branch != "C" ==> r == Err(UnknownLabel)
  {
    if branch == "A" then APrime(n)
    else if branch == "C" then CPrime(n)
    else Err(UnknownLabel)
  }

  /** Each decoding step inverts one predecessor step: "A" maps the A-predecessor (4p-1)/3 of
      a p = 1 (mod 6) back to p, "C" maps the C-predecessor (2p-1)/3 of a p = 5 (mod 6) back
      to p. */
  lemma {:induction false} DecodeStepUndoesPredecessor(p: int)
    ensures p % 6 == 1 ==> DecodeStep("A", (4 * p - 1) / 3) == Ok(p)
    ensures p % 6 == 5 ==> DecodeStep("C", (2 * p - 1) / 3) == Ok(p)
  {
    StepsInvertPredecessors(p);
  }

  /** The value obtained by decoding `branches` from `seed`: the last branch is undone first,
      so the first branch is undone last; the first failing step, counted from the end, is the
      error. A successful decoding used only the labels "A" and "C". */
  function DecodeBranches(seed: int, branches: seq<string>): (r: Result<int>)
    ensures r.Ok? ==> forall i :: 0 <= i < |branches| ==> branches[i] == "A" || branches[i] == "C"
    decreases |branches|
  {
    if branches == [] then Ok(seed)
    else
      var inner := DecodeBranches(seed, branches[1..]);
      if inner.Err? then inner
      else
        var r := DecodeStep(branches[0], inner.value);
        assert r.Ok? ==> forall i :: 1 <= i < |branches| ==> branches[i] == branches[1..][i - 1];
        r
  }

  /** What decode_predecessor_chain returns or raises. */
  function DecodeSpec(code: ChainCode): Result<int> {
    if code.depth != |code.branches| then Err(DepthMismatch)
    else DecodeBranches(code.seed, code.branches)
  }

  /** A failure while undoing the suffix from j on is the failure of the whole decoding. */
  lemma {:induction false} DecodeFailurePropagates(seed: int, branches: seq<string>, j: nat)
    requires j <= |branches| && DecodeBranches(seed, branches[j..]).Err?
    ensures DecodeBranches(seed, branches) == DecodeBranches(seed, branches[j..])
    decreases j
  {
    if j > 0 {
      assert branches[1..][j - 1..] == branches[j..];
      DecodeFailurePropagates(seed, branches[1..], j - 1);
    }
  }

  /** decode_predecessor_chain: checks the depth, then walks the branches in reverse. */
  method DecodePredecessorChain(code: ChainCode) returns (r: Result<int>)
    ensures r == DecodeSpec(code)
  {
    if code.depth != |code.branches| {
      return Err(DepthMismatch);
    }
    var branches := code.branches;
    var n := code.seed;
    var i := |branches|;
    assert branches[i..] == [];
    while i > 0
      invariant 0 <= i <= |branches|
      invariant DecodeBranches(code.seed, branches[i..]) == Ok(n)
    {
      var b := branches[i - 1];
      assert branches[i - 1..][1..] == branches[i..];
      var step: Result<int>;
      if b == "A" {
        step := APrime(n);
      } else if b == "C" {
        step := CPrime(n);
      } else {
        step := Err(UnknownLabel);
      }
      if step.Err? {
        DecodeFailurePropagates(code.seed, branches, i - 1);
        return Err(step.error);
      }
      n := step.value;
      i := i - 1;
    }
    return Ok(n);
  }

  /** Decoding undoes a branch walk: each decoding step inverts one predecessor step. */
  lemma {:induction false} DecodeUndoesBranchWalk(n: int, branches: seq<string>, seed: int)
    requires IsBranchWalk(n, branches, seed)
    ensures DecodeBranches(seed, branches) == Ok(n)
    decreases |branches|
  {
    if branches != [] {
      if branches[0] == "A" {
        DecodeUndoesBranchWalk((4 * n - 1) / 3, branches[1..], seed);
      } else {
        DecodeUndoesBranchWalk((2 * n - 1) / 3, branches[1..], seed);
      }
      DecodeStepUndoesPredecessor(n);
    }
  }

  /** The round trip: decoding what encode_predecessor_chain returns gives back n0. */
  lemma {:induction false} DecodeEncodeRoundTrip(n0: int, maxSteps: int)
    requires EncodeSpec(n0, maxSteps).Ok?
    ensures DecodeSpec(EncodeSpec(n0, maxSteps).value) == Ok(n0)
  {
    EncodeSpecShape(n0, maxSteps);
    var code := EncodeSpec(n0, maxSteps).value;
    DecodeUndoesBranchWalk(n0, code.branches, code.seed);
  }

  /** A hand-built code whose last label is "A", over a seed that is 3 (mod 4), fails inside A''s
      guard: 3 * seed + 1 is then not a multiple of 4. */
  lemma {:induction false} ALabelOnThreeModFourFails(seed: int, branches: seq<string>)
    requires seed % 4 == 3 && |branches| > 0 && branches[|branches| - 1] == "A"
    ensures DecodeSpec(ChainCode(seed, branches, |branches|)) == Err(NotDivisible)
  {
    var j := |branches| - 1;
    assert branches[j..] == ["A"];
    assert ["A"][1..] == [];
    DecodeFailurePropagates(seed, branches, j);
  }
}
