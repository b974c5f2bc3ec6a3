# Root finder iteration engine, modelled in Dafny

This project models the iteration engine of a root-finding calculator
(`script/mathematics.js`). The engine offers four methods for a real function
of one variable: bisection, false position, the secant method and Newton's
method. Each method runs a counted loop. Every iteration hands one trace row
to a callback and then asks a termination checker whether to stop. The run
ends with an answer and one of five termination reasons, or it fails.

The model covers the control logic:

- the order in which the two termination checkers test their conditions;
- each method's sign guard and exact-zero shortcut;
- which endpoint the bracketed methods replace;
- how the secant window and Newton's point move;
- how many rows are emitted, in what order, and what each exit path returns.

How the model is built:

- The function under study, its derivative and `math.round` are parameters:
  `f: real -> real`, `df: real -> real` and `round: (real, nat) -> real`.
  Nothing is assumed about them except that they are total and deterministic.
- The callback becomes the `rows` out-parameter. The loop appends one row per
  iteration, before the termination check, as the source does.
- The five numeric reason constants become the datatype `Reasons.Reason`. The
  checkers' `null` becomes `None`.
- The exception thrown on a same-sign bracket becomes
  `Failure(SameSignBracket)`.

Modules:

- `Basics`: `Option`, `Abs` and the two sign tests.
- `Reasons`: the reason constants.
- `Termination`: the two checkers.
- `Engine`: settings, outcomes, rows and the chord formula.
- `Bracketed`: bisection and false position.
- `Secant`: the secant method.
- `Newton`: Newton's method.

Each of the four source functions is an imperative `method` whose loop mirrors
the source's `for` loop. Each method is proved equal to a recursive
specification function: `BracketRun`, `SecantRun` or `NewtonRun`, built from
`BracketLoop`, `SecantLoop` or `NewtonLoop`. Lemmas about those functions then
describe the whole trace:

- rows are numbered 1, 2, …, k with k ≤ maxIter;
- each row is what its iteration computes at its own endpoints;
- each row starts where the previous row's update left the state;
- no row but the last triggers the checker;
- the outcome is the one the last row reports.

Several details of the code are easy to misread. The model follows the code as written:

- The open checker reports a consecutive-distance stop under the constant
  `B_MINUS_A`, not under a reason of its own.
- The exact-zero shortcut tests `f` at the caller's unrounded inputs but
  returns the rounded endpoint.
- Every quantity is rounded to `precision + 1` digits. The bisection midpoint
  is first rounded to `precision + 2` digits.
- The source has no guard against a zero denominator. How the model handles
  that case is described under "Left out".

## Model

| member | source | states |
|---|---|---|
| `Reasons.Code` | script/mathematics.js:3-7 | each reason maps to the source's constant 0..4, and decoding that constant gives the reason back |
| `Reasons.CodeFromCode` | script/mathematics.js:3-7 | every constant 0..4 names a reason, so the five constants are distinct |
| `Basics.SignsTrichotomy` | script/mathematics.js:37 | the bracket guard and the replacement test are exclusive, and both fail exactly when one of the values is zero |
| `Termination.CheckBracketed` | script/mathematics.js:12-18 | the verdict is ROOT_FOUND iff f(p) is 0. Otherwise it is B_MINUS_A iff abs(b-a) < tol. Otherwise MIDPOINT_INTERVAL iff abs(p-prevp) < tol. Otherwise F_P_LESS iff abs(fp) < tol. It is null iff no test holds, and it is never MAX_ITER_COUNT_HIT |
| `Termination.CheckOpen` | script/mathematics.js:21-26 | the verdict is ROOT_FOUND iff f(p) is 0. Otherwise it is B_MINUS_A iff abs(p-prevp) < tol. Otherwise F_P_LESS iff abs(fp) < tol. It is null iff none holds, and it is never MIDPOINT_INTERVAL |
| `Termination.OpenIsBracketedWithoutWidthTest` | script/mathematics.js:12-26 | on a bracket at least tol wide, the open checker agrees with the bracketed one once its distance verdict is renamed MIDPOINT_INTERVAL |
| `Termination.CheckersStopIffATestHolds` | script/mathematics.js:12-26 | each checker stops exactly when at least one of its tests holds |
| `Engine.ChordZero` | script/mathematics.js:96 | the returned point lies on the line through (a, fa) and (b, fb): (r - a)(fb - fa) = -fa(b - a). The secant method uses the same formula at line 137 |
| `Engine.Chord` | script/mathematics.js:96 | the chord point is missing exactly when fb equals fa. It serves line 96 for false position and line 137 for the secant method |
| `Bracketed.NextPoint` | script/mathematics.js:53 | only false position can lack a next point, and only when fb equals fa. The midpoint always exists |
| `Bracketed.BracketRow` | script/mathematics.js:50-54 | one iteration at [a, b] (also lines 93-97): the row is missing exactly when false position's rounded f(a) and f(b) are equal. Otherwise the row carries its index and bracket, the rounded f(a) and f(b), and the rounded f at its own p |
| `Bracketed.Narrow` | script/mathematics.js:64-65 | exactly one endpoint moves to p (also lines 107-108): b when fa and fp have strictly opposite signs, a otherwise |
| `Bracketed.BracketLoop` | script/mathematics.js:49-68 | specification of the loop. Its own contract says only that it never ends on the sign-guard failure. Its behaviour is stated by `BracketLoopRows`, `BracketLoopChained` and `BracketLoopEnds`, and the methods' loop invariants tie it to the code |
| `Bracketed.BracketLoopStep` | script/mathematics.js:56-66 | one iteration either stops with its row and that row's p, or appends its row and continues on the narrowed bracket with p as the previous point |
| `Bracketed.BracketRun` | script/mathematics.js:35-46 | fails iff f(a0) and f(b0) are both strictly negative or both strictly positive, and then emits no row. If f(a0) is 0, answers round(a0) with ROOT_FOUND and no rows. Otherwise, if f(b0) is 0, answers round(b0) the same way |
| `Bracketed.Bisection` | script/mathematics.js:32-69 | the outcome and the emitted rows are exactly those of `BracketRun` with the midpoint rule |
| `Bracketed.FalsePosition` | script/mathematics.js:75-112 | the outcome and the emitted rows are exactly those of `BracketRun` with the chord rule |
| `Bracketed.BracketLoopRows` | script/mathematics.js:49-56 | the loop emits at most the remaining iterations' rows, numbered consecutively, each computed at its own bracket |
| `Bracketed.BracketLoopChained` | script/mathematics.js:59-66 | the first row is at the starting bracket. Each later row is at the bracket its predecessor narrowed to: b := p when fa and fp have strictly opposite signs, a := p otherwise. No row but the last stopped |
| `Bracketed.BracketLoopEnds` | script/mathematics.js:59-68 | MAX_ITER_COUNT_HIT comes after all remaining iterations, with the last p (previousMid) as answer. Any other reason is the last row's verdict, with that row's p as answer. A failure means the next chord is horizontal |
| `Bracketed.BracketRunTrace` | script/mathematics.js:40-68 | after the guard and the shortcut: at most maxiter rows numbered 1.., chained from the rounded a0 and b0, with the rounded b0 as the first previousMid, ending as the last row reports |
| `Bracketed.BracketAnswerIsLastPoint` | script/mathematics.js:45-68 | with maxiter ≥ 1, a row-less answer is the ROOT_FOUND shortcut's endpoint. Otherwise the answer is the last row's p. MAX_ITER_COUNT_HIT comes after exactly maxiter rows. Only false position can hit a zero denominator |
| `Bracketed.SignChangeKept` | script/mathematics.js:64-66 | in a bracketed run, if a row's rounded f(a) and f(b) have strictly opposite signs, so do those of every later row |
| `Bracketed.BracketStopsAtFirstHit` | script/mathematics.js:59-61 | a row on which any checker test holds is the last row, and its p is the answer |
| `Secant.SecantRow` | script/mathematics.js:134-138 | one iteration at window (a, b): the row is missing exactly when the rounded f(a) and f(b) are equal. Otherwise the row carries its index and window, the rounded f(a) and f(b), and the rounded f at its own p |
| `Secant.SecantLoop` | script/mathematics.js:133-150 | specification of the loop. Its own contract says only that it never ends on the sign-guard failure. Its behaviour is stated by `SecantLoopRows`, `SecantLoopChained` and `SecantLoopEnds`, and `SecantMethod`'s loop invariant ties it to the code |
| `Secant.SecantLoopStep` | script/mathematics.js:140-148 | one iteration either stops with its row and p, or appends its row and continues with the window (b, p) |
| `Secant.SecantRun` | script/mathematics.js:122-130 | there is no sign guard. If f(a0) is 0, answers round(a0) with ROOT_FOUND and no rows. Otherwise, if f(b0) is 0, answers round(b0) |
| `Secant.SecantMethod` | script/mathematics.js:119-151 | the outcome and the emitted rows are exactly those of `SecantRun` |
| `Secant.SecantLoopRows` | script/mathematics.js:133-140 | at most the remaining iterations' rows, numbered consecutively, each computed at its own window |
| `Secant.SecantLoopChained` | script/mathematics.js:143-148 | the first row is at the starting window, each later window is (b, p) of its predecessor, and no row but the last stopped |
| `Secant.SecantLoopEnds` | script/mathematics.js:143-150 | MAX_ITER_COUNT_HIT comes after all remaining iterations, with b (the last p) as answer. Any other reason is the last row's verdict on (b, p, fp), with p as answer. A failure means the next chord is horizontal |
| `Secant.SecantRunTrace` | script/mathematics.js:125-150 | after the shortcut: at most maxiter rows numbered 1.., shifted from the rounded a0 and b0, ending as the last row reports |
| `Secant.SecantAnswerIsLastPoint` | script/mathematics.js:129-150 | with maxiter ≥ 1, a row-less answer is the shortcut's endpoint. Otherwise the answer is the last row's p. MAX_ITER_COUNT_HIT comes after exactly maxiter rows |
| `Secant.SecantStopsAtFirstSmallStep` | script/mathematics.js:143-145 | a row whose p is within tol of b is the last row, answered with p under ROOT_FOUND or B_MINUS_A |
| `Newton.TangentZero` | script/mathematics.js:170 | the returned point lies on the tangent at (a, fa) with slope dfa: fa + dfa(r - a) = 0 |
| `Newton.NewtonStep` | script/mathematics.js:168-171 | an iteration has no row exactly when the rounded derivative at its point is 0 |
| `Newton.NewtonLoop` | script/mathematics.js:167-183 | specification of the loop. Its own contract says only that it never ends on the sign-guard failure. Its behaviour is stated by `NewtonLoopRows`, `NewtonLoopChained` and `NewtonLoopEnds`, and `NewtonMethod`'s loop invariant ties it to the code |
| `Newton.NewtonLoopStep` | script/mathematics.js:173-181 | one iteration either stops with its row and round(p), or appends its row and continues from p |
| `Newton.NewtonRun` | script/mathematics.js:160-162 | if f(a0) is 0, answers round(a0) with ROOT_FOUND and no rows. There is no sign guard |
| `Newton.NewtonMethod` | script/mathematics.js:157-184 | the outcome and the emitted rows are exactly those of `NewtonRun` |
| `Newton.NewtonLoopRows` | script/mathematics.js:167-173 | at most the remaining iterations' rows, numbered consecutively, each computed at its own point |
| `Newton.NewtonLoopChained` | script/mathematics.js:176-181 | the first row is at the starting point, each later row is at its predecessor's p, and no row but the last stopped |
| `Newton.NewtonLoopEnds` | script/mathematics.js:176-183 | MAX_ITER_COUNT_HIT comes after all remaining iterations, with the last p unrounded. Any other reason is the last row's verdict on (a, p, fp), answered with round(p). A failure means the derivative at the next point rounds to 0 |
| `Newton.NewtonRunTrace` | script/mathematics.js:161-183 | after the shortcut: at most maxiter rows numbered 1.., chained from the rounded a0, ending as the last row reports |
| `Newton.NewtonAnswerIsLastPoint` | script/mathematics.js:162-183 | with maxiter ≥ 1, a row-less answer is round(a0) with ROOT_FOUND. An early stop answers the last p rounded once more. MAX_ITER_COUNT_HIT comes after exactly maxiter rows and answers the last p as it is |
| `Newton.NewtonStopsAtFirstSmallStep` | script/mathematics.js:176-178 | a row whose p is within tol of its point is the last row, and the run ends under ROOT_FOUND or B_MINUS_A |

## Left out

- The user interface in `script.js` is not part of this model. That covers the
  page, the rendering, the animated row queue, the alert dialogs and the
  mapping from reasons to labels. Its input checks (script.js:185-202:
  precision 0..12, tolerance ≥ 0, 1..1000 iterations) are not modelled
  either. The methods accept any settings. The only assumption is in the
  three lemmas `BracketAnswerIsLastPoint`, `SecantAnswerIsLastPoint` and
  `NewtonAnswerIsLastPoint`, which require a budget of at least one
  iteration. Nothing else depends on those ranges.
- `correctPrecision` in `script.js` is not modelled. It is a floating-point
  default for the tolerance field.
- Expression parsing and evaluation, symbolic differentiation and the check
  that the function is univariate are not modelled. Those are calls into the
  math library. The function and its derivative are total parameters, so an
  evaluator error cannot occur in the model.
- `math.round` is an uninterpreted parameter. Nothing about it is assumed:
  not idempotence, not closeness to its argument, not preservation of sign.
  For that reason the model makes no accuracy or convergence claims.
- Floating-point behaviour is not modelled. Values are mathematical reals,
  with no NaN, no Infinity and no overflow.
- Division by zero: the source has no guard for a horizontal chord
  (script/mathematics.js:96, 137) or a zero rounded derivative
  (script/mathematics.js:170). JavaScript then continues with Infinity or NaN
  values. The model instead stops with `Failure(ZeroDenominator)` before that
  iteration's row. The rows of earlier iterations are kept.
- `Bracketed.SignChangeKept`: the sign change is proved only from a row whose
  rounded f(a) and f(b) already differ in sign. Rounding the inputs can lose
  the sign change of the unrounded f(a0) and f(b0), so no first row is
  guaranteed to have one.
- The test helper `t()` (script/mathematics.js:192-203) is not modelled. It
  only prints to the console.
- The callback is modelled as a sequence that is returned at the end. When
  the rows are shown, and any throttling of their display, is not modelled.
