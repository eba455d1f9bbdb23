/** Shared result types of the engine: every exception the Python code raises becomes an
    `Err` carrying the kind of error (the message text is not modelled). */
module Common {

  /** Which error a computation raised. */
  datatype Error =
    | ZeroInput          // nu2 / strip_twos called on 0
    | NotPositive        // assert_positive failed
    | NotOdd             // assert_odd failed, or a step map got an even value
    | NotDivisible       // a guarded step map got an odd value outside its residue class
    | BelowThree         // the direct encoder is only defined for n0 >= 3
    | TerminalMarker     // smallest predecessor returned the -1 marker before a seed was reached
    | StepLimit          // max_steps iterations ran out
    | UnexpectedResidue  // an internal "unreachable" RuntimeError
    | DepthMismatch      // a branch code whose depth is not the number of its branches
    | UnknownLabel       // a branch label other than "A" or "C"
    | InvalidSymbol      // an orbit-code symbol other than 'A', 'C' or 'K'
    | LengthMismatch     // a structural chain whose length is not |code| + 1

  datatype Result<+T> = Ok(value: T) | Err(error: Error) {
    predicate IsFailure() { Err? }
    function PropagateFailure<U>(): Result<U> requires Err? { Err(error) }
    function Extract(): T requires Ok? { value }
  }

  /** Outcome of a guard that returns nothing or raises. */
  datatype Outcome = Pass | Fail(error: Error)

  datatype Option<+T> = None | Some(value: T)

  /** Number of iterations `for _ in range(max_steps)` performs. */
  function Fuel(maxSteps: int): nat {
    if maxSteps < 0 then 0 else maxSteps
  }

  /** Puts a known prefix in front of the sequence a later part of a loop produces; a failure
      passes through unchanged. */
  function Prefixed<T>(prefix: seq<T>, rest: Result<seq<T>>): Result<seq<T>> {
    if rest.Err? then rest else Ok(prefix + rest.value)
  }

  lemma {:induction false} PrefixedEmpty<T>(rest: Result<seq<T>>)
    ensures Prefixed([], rest) == rest
  {
    if rest.Ok? {
      assert [] + rest.value == rest.value;
    }
  }

  lemma {:induction false} PrefixedAssociates<T>(a: seq<T>, b: seq<T>, rest: Result<seq<T>>)
    ensures Prefixed(a, Prefixed(b, rest)) == Prefixed(a + b, rest)
  {
    if rest.Ok? {
      assert a + (b + rest.value) == (a + b) + rest.value;
    }
  }
}
