/** Small value helpers shared by the termination checkers and the four methods. */
module Basics {

  /** A value or nothing; the checkers' `null` verdict is `None`. */
  datatype Option<+T> = None | Some(value: T)

  /** Absolute value of a real, as `Math.abs` computes it. */
  function Abs(x: real): (r: real)
    ensures r >= 0.0
    ensures r == x || r == -x
  {
    if x < 0.0 then -x else x
  }

  /** Both values strictly negative or both strictly positive: the case the
      bracketed methods refuse before they start. A zero never counts. */
  predicate SameSigns(x: real, y: real)
  {
    (x < 0.0 && y < 0.0) || (x > 0.0 && y > 0.0)
  }

  /** One value strictly negative and the other strictly positive: the test
      that decides which endpoint of a bracket is replaced. */
  predicate OppositeSigns(x: real, y: real)
  {
    (x < 0.0 && y > 0.0) || (x > 0.0 && y < 0.0)
  }

  /** Neither test holds exactly when one of the two values is zero. */
  lemma SignsTrichotomy(x: real, y: real)
    ensures !SameSigns(x, y) && !OppositeSigns(x, y) <==> x == 0.0 || y == 0.0
    ensures !(SameSigns(x, y) && OppositeSigns(x, y))
  {
  }
}
