# Accelerated Collatz map engine, modelled in Dafny

This project models the exact-integer core of an accelerated Collatz map engine in Dafny. The model has two halves, kept apart as in the original code.

* **The predecessor / branch-code engine** (`reference/`):
  * the 2-adic valuation `nu2` and `strip_twos`, plus the parity and positivity guards;
  * the guarded step maps A′ = (3n+1)/4, C′ = (3n+1)/2 and K′ = (n−1)/4;
  * `accelerated_successor`;
  * the bounded brute-force search `odd_predecessors` and its minimum;
  * the canonical reduction `canonical_chain`, which follows smallest predecessors to a seed that is 3, 9 or 15 (mod 24);
  * the branch-code encoders (a direct one and one via `canonical_chain`) and the decoder.
* **The orbit-code engine** (`scripts/route_skeleton.py`, without the Graphviz part):
  * the three-symbol successor transform `s` with its own unguarded A′/C′/K′;
  * the orbit code ω(n) over {A, C, K};
  * its decoding into the structural chain;
  * the accelerated chain;
  * the maximal-block partition and the route-skeleton endpoints.

Each source module is one Dafny module: `Arithmetic`, `Steps`, `Successor`, `Predecessor`, `Canonical`, `Encoding`, `Decoding` and `RouteSkeleton`. `Common` holds the shared `Result`/`Error` types. Every exception the Python code raises is an `Err` naming the kind of error. The frozen record `PredecessorChainCode` (reference/encoding.py:21-40) is the datatype `Encoding.ChainCode`; as in the source, building one checks nothing, and `decode_predecessor_chain` checks its depth. `max_steps` becomes fuel: `Fuel(maxSteps)` is the number of iterations `range(max_steps)` performs.

**How loops are modelled.** Each loop in the source is a `method` with a loop, proved against a specification. The specifications are the recursive functions `Descent`, `EncodeWalk`, `ScanLabels`, `DecodeBranches`, `Descend`, `StructuralChain`, `KeptUpTo`/`Pick` and `Boundaries`, and in two cases something else:
* `Arithmetic.Nu2` is proved against the recursive valuation `Valuation`.
* `Predecessor.OddPredecessors` carries the non-recursive loop invariant `SearchInvariant`, and its ensures state soundness, completeness and increasing order outright.

The properties the source promises are then lemmas about those functions. The pure helpers are functions.

**`smallest_predecessor`.** Its only definition is at scripts/route_skeleton.py:575-579, although `reference/canonical.py` and `reference/encoding.py` import it from `reference/predecessor.py`. It is modelled once, as `Predecessor.SmallestPredecessor`, which `Canonical` and `Encoding` use. In the orbit-code script it is called only by `predecessor_chain` (scripts/route_skeleton.py:582-589), which is not modelled. The formula is taken as written with Python's floor operators, which agree with Dafny's on a positive divisor. Its −1 result is reported as `Terminal`.

**Facts about the code that its comments do not state:**

* **K′'s guard.** The guard of `Kprime` is `(n - 1) % 4 == 0` on odd n, so it admits every n ≡ 1 (mod 4) (reference/steps.py:50-56). That is wider than the class n ≡ 5 (mod 8) its docstring names at reference/steps.py:49: `Steps.KPrimeAcceptsOneModEight`.
* **The two encoders.** `encode_predecessor_chain` and `encode_predecessor_chain_via_chain` return the same code whenever `canonical_chain` succeeds (`Encoding.ViaChainAgrees`). They differ on n0 ≡ 21 (mod 24). There the direct encoder returns n0 as a depth-0 seed (reference/encoding.py:68-72), while `canonical_chain` raises at the terminal marker (reference/canonical.py:48-53): `Encoding.EncodersDisagreeOnTwentyOne`.
* **Where the terminal marker can occur.** The comment at reference/canonical.py:48-49 calls the terminal marker an inconsistency. It can only be met at n0 itself, and only when n0 ≡ 21 (mod 24) (`Canonical.DescentTerminalExactly`, `Canonical.DescentNeverTerminalAfterFirst`). A-predecessors are 1 (mod 8), C-predecessors are 3 (mod 4), and neither is 21 (mod 24) (`Predecessor.PredecessorResidues`).

## Model

| member | source | states |
|---|---|---|
| Arithmetic.Nu2 | reference/arithmetic.py:12-25 | fails with ZeroInput on 0; otherwise returns k with 2^k dividing n and 2^(k+1) not dividing n, which is the valuation ν2(n) |
| Arithmetic.ValuationCharacterization | reference/arithmetic.py:12-17 | for n ≠ 0, k is ν2(n) if and only if 2^k divides n and 2^(k+1) does not |
| Arithmetic.ValuationOfNegation | reference/arithmetic.py:20 | ν2(−n) = ν2(n): the sign is ignored |
| Arithmetic.StripTwos | reference/arithmetic.py:28-38 | fails exactly on 0; otherwise (z, m) with z = ν2(n), n = 2^z·m, m odd, and m positive exactly when n is |
| Arithmetic.StripTwosOfOdd | reference/arithmetic.py:36-37 | an odd n has valuation 0 and strip_twos(n) = (0, n) |
| Arithmetic.IsOdd | reference/arithmetic.py:41-43 | is_odd(n) holds exactly when n mod 2 = 1 |
| Arithmetic.AssertOdd | reference/arithmetic.py:46-49 | passes exactly on odd n, otherwise fails with NotOdd |
| Arithmetic.AssertPositive | reference/arithmetic.py:52-55 | passes exactly on n > 0, otherwise fails with NotPositive |
| Steps.APrime | reference/steps.py:18-30 | NotOdd on even n; on odd n defined exactly when n mod 8 ∈ {1, 5}, NotDivisible when 4 does not divide 3n+1; on success 4·A′(n) = 3n+1 |
| Steps.CPrime | reference/steps.py:33-41 | defined exactly on odd n (NotOdd otherwise), and then 2·C′(n) = 3n+1 |
| Steps.KPrime | reference/steps.py:44-56 | NotOdd on even n; defined exactly when n ≡ 1 (mod 4), NotDivisible on other odd n; on success 4·K′(n)+1 = n |
| Steps.KPrimeAcceptsOneModEight | reference/steps.py:49-56 | the guard admits 9, which is not 5 (mod 8): K′(9) = 2 |
| Steps.StepsInvertPredecessors | reference/decoding.py:9-15 | for n ≡ 1 (mod 6), (4n−1)/3 is exact and A′ maps it back to n; for n ≡ 5 (mod 6), (2n−1)/3 is exact and C′ maps it back to n |
| Successor.AcceleratedSuccessor | reference/successor.py:18-48 | succeeds exactly on positive n (NotPositive otherwise), so the unexpected-residue error is unreachable; the result is positive and odd |
| Successor.SuccessorExponent | reference/successor.py:31-48 | for positive n with odd part m, 3m+1 = 2^k · successor(n) for some k ≥ 1 |
| Successor.SuccessorCharacterization | reference/successor.py:31-48 | for positive odd m and any z: if 3m+1 = 2^k·y with y odd, the successor of 2^z·m is y |
| Successor.SuccessorIgnoresTwos | reference/successor.py:32 | the successor depends only on the odd part: successor(2^z·m) = successor(m) |
| Successor.SuccessorOfOdd | reference/successor.py:35-48 | for positive odd q with successor n: 3q+1 = 2n when q ≡ 3 (mod 4), 3q+1 ≥ 4n when q ≡ 1 (mod 4), and n is not a multiple of 3 |
| Predecessor.SmallestPredecessor | scripts/route_skeleton.py:575-579 | on a positive odd n: Terminal exactly when n ≡ 3 (mod 6); 3p = 4n−1 when n ≡ 1 (mod 6); 3p = 2n−1 when n ≡ 5 (mod 6) |
| Predecessor.SmallestPredecessorAsWritten | scripts/route_skeleton.py:579 | for every integer n the model is the floor formula (((n−3) mod 6)·n − 1) div 3, with −1 reported as Terminal |
| Predecessor.PredecessorResidues | scripts/route_skeleton.py:575-579 | the smallest predecessor of a positive odd n is positive and odd, 1 (mod 8) on the A-branch, 3 (mod 4) on the C-branch, and never 21 (mod 24) |
| Predecessor.PredecessorIsSound | scripts/route_skeleton.py:575-579 | the accelerated successor of the smallest predecessor of n is n |
| Predecessor.PredecessorIsLeast | scripts/route_skeleton.py:575-579 | every positive odd q whose successor is n is at least the smallest predecessor, which therefore exists (an n ≡ 3 (mod 6) has no predecessor) |
| Predecessor.OddPredecessors | reference/predecessor.py:19-45 | NotPositive / NotOdd on bad n; otherwise the list holds exactly the odd p in [1, search_limit] with successor n, in strictly increasing order |
| Predecessor.ClosedFormAgreesWithSearch | reference/predecessor.py:48-53 | the closed form cut off at the bound is None exactly when the search range holds no odd predecessor, and otherwise is the least one found |
| Predecessor.MinOddPredecessor | reference/predecessor.py:48-53 | NotPositive / NotOdd on bad n; None exactly when nothing is found; otherwise the least found predecessor, equal to the closed-form smallest predecessor |
| Canonical.IsCanonicalSeed | reference/canonical.py:19-26 | a seed is odd and 3 (mod 6); a value that is 3 (mod 6) is a seed exactly when it is not 21 (mod 24) |
| Canonical.Descent | reference/canonical.py:39-58 | a successful descent starts at n, ends at a seed and has at most fuel elements; it can fail only by running out of steps or at the terminal marker |
| Canonical.CanonicalChain | reference/canonical.py:29-58 | returns the descent with Fuel(max_steps) iterations; NotPositive / NotOdd on bad n0; on success chain[0] = n0, the last element is a seed and the length is at most max_steps |
| Canonical.DescentLinks | reference/canonical.py:42-56 | in a successful chain every element but the last is not a seed, and each next element is the smallest predecessor of the one before |
| Canonical.DescentStaysOdd | reference/canonical.py:39-56 | every element of a descent from a positive odd n0 is positive and odd |
| Canonical.DescentTerminalExactly | reference/canonical.py:48-53 | from a positive odd n0 with at least one step, the terminal-marker error happens exactly when n0 ≡ 21 (mod 24) |
| Canonical.DescentNeverTerminalAfterFirst | reference/canonical.py:48-53 | from a positive odd value that is not 21 (mod 24), the descent never meets the terminal marker |
| Canonical.DescentFromOneRunsOut | reference/canonical.py:42-58 | 1 is its own smallest predecessor and not a seed, so canonical_chain(1) always runs out of steps |
| Canonical.DescentReachesSeed | reference/canonical.py:39-56 | the last element of a successful chain is reached from n0 by len(chain) − 1 smallest-predecessor steps |
| Canonical.CanonicalSeed | reference/canonical.py:61-65 | fails exactly as canonical_chain does; otherwise returns a seed reached from n0 by fewer than max_steps smallest-predecessor steps |
| Canonical.CanonicalSignature | reference/canonical.py:68-78 | fails exactly as canonical_chain does; otherwise (seed, depth) with depth < max_steps, the seed reached by depth predecessor steps, and depth = 0 exactly when n0 is itself a seed |
| Encoding.EncodePredecessorChain | reference/encoding.py:43-82 | returns exactly what the fuel-bounded walk specifies; EncodeSpecShape states what that is |
| Encoding.EncodeSpecShape | reference/encoding.py:49-82 | NotPositive, NotOdd or BelowThree on bad n0, otherwise only StepLimit; on success depth = len(branches) < max_steps, labels are A/C, applying (4n−1)/3 per A on n ≡ 1 (mod 6) and (2n−1)/3 per C on n ≡ 5 (mod 6) leads from n0 to the seed, seed ≡ 3 (mod 6), and the seed is canonical unless it is n0 itself at depth 0 with n0 ≡ 21 (mod 24) |
| Encoding.EncodeWalkFailsOnlyOnLimit | reference/encoding.py:73-82 | from a positive odd n the unexpected-residue and terminal-marker errors are unreachable: the walk fails only by running out of steps |
| Encoding.EncodeWalkShape | reference/encoding.py:55-80 | a successful walk is a branch walk from n to its seed, with seed ≡ 3 (mod 6), fewer branches than steps, and a canonical seed unless it stopped at once at n ≡ 21 (mod 24) |
| Encoding.EncodeViaChain | reference/encoding.py:85-108 | returns exactly the labelling of the chain canonical_chain produces, as specified by ScanLabels |
| Encoding.DescentLabelsAgree | reference/encoding.py:93-108 | labelling a successful descent gives what the direct walk gives |
| Encoding.ViaChainAgrees | reference/encoding.py:85-108 | whenever canonical_chain succeeds, the two encoders return the same code |
| Encoding.EncodersDisagreeOnTwentyOne | reference/encoding.py:68-72 | for n0 ≡ 21 (mod 24) the direct encoder returns (n0, [], 0) while the chain-based one fails with the terminal marker |
| Decoding.DecodeStep | reference/decoding.py:41-46 | an "A" step succeeds exactly on n ≡ 1 or 5 (mod 8), giving r with 4r = 3n+1, and fails with NotDivisible on n ≡ 3 or 7 (mod 8); a "C" step succeeds exactly on odd n, giving r with 2r = 3n+1; either fails with NotOdd on even n; any other label fails with UnknownLabel |
| Decoding.DecodeStepUndoesPredecessor | reference/decoding.py:9-15 | "A" maps the A-predecessor (4p−1)/3 of p ≡ 1 (mod 6) back to p, and "C" maps the C-predecessor (2p−1)/3 of p ≡ 5 (mod 6) back to p |
| Decoding.DecodeBranches | reference/decoding.py:39-47 | a successful decoding used only the labels "A" and "C" |
| Decoding.DecodePredecessorChain | reference/decoding.py:24-47 | DepthMismatch when depth ≠ len(branches); otherwise undoes the branches last to first from the seed, returning the first failure met |
| Decoding.DecodeFailurePropagates | reference/decoding.py:40-46 | a failure while undoing a suffix of the branches is the result of the whole decoding |
| Decoding.DecodeUndoesBranchWalk | reference/decoding.py:9-15 | decoding a branch walk from n to seed gives back n: each decoding step inverts one predecessor step |
| Decoding.DecodeEncodeRoundTrip | reference/decoding.py:24-47 | decode(encode(n0)) = n0 for every n0 the encoder accepts |
| Decoding.ALabelOnThreeModFourFails | reference/decoding.py:41-42 | a code whose last label is "A" over a seed ≡ 3 (mod 4) fails inside A′'s guard with NotDivisible |
| RouteSkeleton.SuccessorSymbol | scripts/route_skeleton.py:44-62 | fails exactly on even n; A for n ≡ 1, C for n ≡ 3 or 7, K for n ≡ 5 (mod 8), so the final raise is unreachable |
| RouteSkeleton.APrime | scripts/route_skeleton.py:65-67 | the floor quotient: 4r ≤ 3n+1 < 4r+4 |
| RouteSkeleton.CPrime | scripts/route_skeleton.py:70-72 | the floor quotient: 2r ≤ 3n+1 < 2r+2 |
| RouteSkeleton.KPrime | scripts/route_skeleton.py:75-77 | the floor quotient: 4r ≤ n−1 < 4r+4 |
| RouteSkeleton.S | scripts/route_skeleton.py:80-94 | fails exactly on even n, so the "unreachable" raise never happens |
| RouteSkeleton.LiftUndoesS | scripts/route_skeleton.py:80-94 | for odd n, s(n) is odd and the decode step of n's symbol maps s(n) back to n: (4s−1)/3 for A, (2s−1)/3 for C, 4s+1 for K |
| RouteSkeleton.Lift | scripts/route_skeleton.py:148-156 | succeeds exactly on the symbols A, C, K; any other symbol is InvalidSymbol |
| RouteSkeleton.Descend | scripts/route_skeleton.py:111-120 | a successful run records fewer symbols than iterations, all from {A, C, K} |
| RouteSkeleton.OrbitCodeFromN | scripts/route_skeleton.py:101-123 | returns exactly the reversed fuel-bounded descent, with NotOdd on even n and "" for n = 1 |
| RouteSkeleton.OrbitCodeShape | scripts/route_skeleton.py:101-123 | "" for n = 1; codes are over {A, C, K}; for n ≠ 1, len(code) < max_steps; the only failure on odd n is StepLimit |
| RouteSkeleton.DescendFailsOnlyOnLimit | scripts/route_skeleton.py:111-120 | from an odd value the descent can only fail by running out of steps |
| RouteSkeleton.StructuralChain | scripts/route_skeleton.py:138-158 | succeeds exactly on codes over {A, C, K} (InvalidSymbol otherwise) and then has len(code)+1 values starting at 1 |
| RouteSkeleton.StructuralStep | scripts/route_skeleton.py:148-157 | each value of the structural chain is the decode step of its symbol applied to the value before |
| RouteSkeleton.DecodeOrbitCode | scripts/route_skeleton.py:138-158 | returns exactly the structural chain of the code |
| RouteSkeleton.DescendDecodesBack | scripts/route_skeleton.py:138-158 | decoding the reversed symbols of a descent from cur ends at cur |
| RouteSkeleton.StructuralChainEndsAtN | scripts/route_skeleton.py:138-158 | the structural chain of ω(n) ends at n |
| RouteSkeleton.KeptUpToLists | scripts/route_skeleton.py:172-194 | the recorded positions are, in increasing order, exactly 0, the end, and each position followed by a symbol other than K |
| RouteSkeleton.AcceleratedPredecessorChainFromCode | scripts/route_skeleton.py:161-198 | returns exactly the structural values at the recorded positions, or InvalidSymbol |
| RouteSkeleton.AcceleratedWithinStructural | scripts/route_skeleton.py:161-198 | on a valid code the accelerated chain starts at 1, ends where the structural chain ends, and is an order-preserving subsequence of it |
| RouteSkeleton.AcceleratedWithoutK | scripts/route_skeleton.py:175-187 | on a code without K the accelerated chain is the structural chain |
| RouteSkeleton.BoundariesUpToLists | scripts/route_skeleton.py:213-226 | the block ends below p are listed in increasing order, each a boundary between K and A/C or the end of the code, and all of them |
| RouteSkeleton.ParseBlocks | scripts/route_skeleton.py:205-227 | the blocks concatenate to the code, each is non-empty and all-K or all-A/C, adjacent blocks differ in kind, and they end exactly at the block ends of the code |
| RouteSkeleton.RouteSkeletonFromCode | scripts/route_skeleton.py:230-242 | LengthMismatch unless len(structural_chain) = len(code)+1; otherwise the first structural value followed by the values at the block ends |
| RouteSkeleton.RouteSkeletonEndpoints | scripts/route_skeleton.py:230-242 | on matching lengths there are len(blocks)+1 endpoints, the first structural_chain[0] and the last structural_chain[len(code)] |
| RouteSkeleton.OrbitChainsEndAtN | scripts/route_skeleton.py:138-242 | for ω(n), the structural chain, the accelerated chain and the route skeleton all start at 1 and end at n |

## Left out

- `make_route_dot` (scripts/route_skeleton.py:249-554) and `render_svg`: Graphviz text formatting and a subprocess call, with no arithmetic content.
- The command-line entry points and the demonstration notebook: argument parsing and printing only.
- `predecessor_chain` (scripts/route_skeleton.py:582-589): an unbounded loop used only for drawing level indicators.
- Termination of descents and orbits is the open Collatz question. Every loop bounded by `max_steps` is modelled with fuel, and running out is the `StepLimit` error.
- Default arguments: every Python keyword default is a required parameter here. These are `max_steps=100_000` (reference/canonical.py:29, 61 and 68, reference/encoding.py:43 and 85, scripts/route_skeleton.py:101 and 126) and `search_limit=1_000_000` (reference/predecessor.py:19 and 48).
- Error-message text and the `name=` keyword of the guards: only the kind of error is modelled.
- `orbit_code` (scripts/route_skeleton.py:126-131) only forwards to `orbit_code_from_n` and has no member of its own.
- `smallest_predecessor` is imported from `reference/predecessor.py` by `reference/canonical.py` and `reference/encoding.py`, but that file does not define it. The definition at scripts/route_skeleton.py:575-579 is used for both.
- RouteSkeleton.ParseBlocks: requires a code over {A, C, K}. On any other symbol the source loop never advances and never ends, which a terminating method cannot express.
- RouteSkeleton.RouteSkeletonFromCode: requires a code over {A, C, K} whenever the lengths match, because it calls `parse_blocks`.
- Arithmetic.Nu2, Canonical.CanonicalChain, Encoding.EncodePredecessorChain and the other loops: Python integers are unbounded, as Dafny's `int` is, so no overflow is modelled.
