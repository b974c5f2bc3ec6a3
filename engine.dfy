/** What the four methods share: their settings, their results, the rows they
    emit and the chord formula of false position and the secant method. */
module Engine {
  import opened Basics
  import opened Reasons

  /** Tolerance, decimal precision and iteration budget of one run. */
  datatype Settings = Settings(tol: real, precision: nat, maxIter: nat)
  {
    /** The number of decimal places every iterated quantity is rounded to. */
    function Digits(): nat
    {
      precision + 1
    }
  }

  /** Why a run produced no answer. */
  datatype Fault =
    | SameSignBracket   // f(a) and f(b) are both strictly negative or both strictly positive
    | ZeroDenominator   // a chord with fb == fa, or Newton's step with f'(x) == 0

  /** The result of one run: an answer with its termination reason, or a fault. */
  datatype Outcome = Answer(ans: real, end: Reason) | Failure(fault: Fault)

  /** One row of a bracketed or secant trace: [i, a, b, f(a), f(b), p, f(p)]. */
  datatype Row = Row(i: nat, a: real, b: real, fa: real, fb: real, p: real, fp: real)

  /** One row of a Newton trace: [i, x, f(x), f'(x), p, f(p)]. */
  datatype NewtonRow = NewtonRow(i: nat, a: real, fa: real, dfa: real, p: real, fp: real)

  /** Rows numbered i, i + 1, ... in the order they were emitted, where
      `index` reads a row's number. */
  predicate NumberedFrom<R>(rows: seq<R>, index: R -> nat, i: nat)
  {
    forall k :: 0 <= k < |rows| ==> index(rows[k]) == i + k
  }

  /** The number of a bracketed or secant row. */
  function RowIndex(row: Row): nat
  {
    row.i
  }

  /** The number of a Newton row. */
  function NewtonRowIndex(row: NewtonRow): nat
  {
    row.i
  }

  /** A run's outcome together with the rows it handed to the callback, in order. */
  datatype Run<R> = Run(outcome: Outcome, rows: seq<R>)

  /** A run whose first rows were emitted before `rest` began. */
  function Prepend<R>(rows: seq<R>, rest: Run<R>): Run<R>
  {
    Run(rest.outcome, rows + rest.rows)
  }

  /** The point where the chord through (a, fa) and (b, fb) meets the axis,
      rounded; `None` when the chord is horizontal. */
  function Chord(round: (real, nat) -> real, d: nat,
                 a: real, b: real, fa: real, fb: real): (r: Option<real>)
    ensures r.None? <==> fb == fa
  {
    if fb - fa == 0.0 then None else Some(round(ChordZero(a, b, fa, fb), d))
  }

  /** Where the line through (a, fa) and (b, fb) crosses zero. */
  function ChordZero(a: real, b: real, fa: real, fb: real): (r: real)
    requires fb != fa
    ensures (r - a) * (fb - fa) == -fa * (b - a)
  {
    (a * fb - b * fa) / (fb - fa)
  }
}
