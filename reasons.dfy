/** The five termination reasons, which the source keeps as numeric constants. */
module Reasons {

  /** Why a run stopped. */
  datatype Reason =
    | MaxIterCountHit   // the iteration budget ran out
    | RootFound         // f(p) is exactly zero
    | BMinusA           // the interval width (or, for open methods, the step) is below tolerance
    | MidpointInterval  // two successive bracketed points are closer than the tolerance
    | FPLess            // |f(p)| is below tolerance

  /** The numeric constant the source uses for each reason. */
  function Code(r: Reason): (c: nat)
    ensures c < 5
    ensures FromCode(c) == r
  {
    match r
    case MaxIterCountHit => 0
    case RootFound => 1
    case BMinusA => 2
    case MidpointInterval => 3
    case FPLess => 4
  }

  /** The reason a constant stands for; every code below 5 names one. */
  function FromCode(c: nat): (r: Reason)
    requires c < 5
  {
    if c == 0 then MaxIterCountHit
    else if c == 1 then RootFound
    else if c == 2 then BMinusA
    else if c == 3 then MidpointInterval
    else FPLess
  }

  /** Decoding a constant and encoding the reason gives the constant back, so
      the five constants are distinct and cover 0..4. */
  lemma CodeFromCode(c: nat)
    requires c < 5
    ensures Code(FromCode(c)) == c
  {
  }
}
