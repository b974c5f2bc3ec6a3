/** The two termination checkers: pure chains of comparisons where the first
    test that holds decides the verdict and `None` means "keep iterating". */
module Termination {
  import opened Basics
  import opened Reasons

  /** Checker for the bracketed methods. Tests, in order: f(p) is zero, the
      bracket is narrower than the tolerance, p moved less than the tolerance
      since the previous point, |f(p)| is below the tolerance. `fa` and `fb`
      are accepted and never consulted. */
  function CheckBracketed(a: real, b: real, prevp: real, p: real,
                          fa: real, fb: real, fp: real, tol: real): (r: Option<Reason>)
    ensures r == Some(RootFound) <==> fp == 0.0
    ensures r == Some(BMinusA) <==> fp != 0.0 && Abs(b - a) < tol
    ensures r == Some(MidpointInterval) <==>
              fp != 0.0 && Abs(b - a) >= tol && Abs(p - prevp) < tol
    ensures r == Some(FPLess) <==>
              fp != 0.0 && Abs(b - a) >= tol && Abs(p - prevp) >= tol && Abs(fp) < tol
    ensures r == None <==>
              fp != 0.0 && Abs(b - a) >= tol && Abs(p - prevp) >= tol && Abs(fp) >= tol
    ensures r != Some(MaxIterCountHit)
  {
    if fp == 0.0 then Some(RootFound)
    else if Abs(b - a) < tol then Some(BMinusA)
    else if Abs(p - prevp) < tol then Some(MidpointInterval)
    else if Abs(fp) < tol then Some(FPLess)
    else None
  }

  /** Checker for the open methods. Tests, in order: f(p) is zero, p moved
      less than the tolerance, |f(p)| is below the tolerance. The distance
      verdict is reported under the interval-width constant, so this checker
      never answers `MidpointInterval`. */
  function CheckOpen(prevp: real, p: real, fp: real, tol: real): (r: Option<Reason>)
    ensures r == Some(RootFound) <==> fp == 0.0
    ensures r == Some(BMinusA) <==> fp != 0.0 && Abs(p - prevp) < tol
    ensures r == Some(FPLess) <==> fp != 0.0 && Abs(p - prevp) >= tol && Abs(fp) < tol
    ensures r == None <==> fp != 0.0 && Abs(p - prevp) >= tol && Abs(fp) >= tol
    ensures r != Some(MidpointInterval) && r != Some(MaxIterCountHit)
  {
    if fp == 0.0 then Some(RootFound)
    else if Abs(p - prevp) < tol then Some(BMinusA)
    else if Abs(fp) < tol then Some(FPLess)
    else None
  }

  /** The open checker's verdict with its distance verdict named as the
      bracketed checker names it. */
  function AsBracketedName(r: Option<Reason>): Option<Reason>
  {
    if r == Some(BMinusA) then Some(MidpointInterval) else r
  }

  /** The open checker is the bracketed checker with the interval-width test
      never firing: on any bracket at least as wide as the tolerance the two
      agree, up to the name of the distance verdict. */
  lemma OpenIsBracketedWithoutWidthTest(a: real, b: real, prevp: real, p: real,
                                        fa: real, fb: real, fp: real, tol: real)
    requires Abs(b - a) >= tol
    ensures AsBracketedName(CheckOpen(prevp, p, fp, tol))
         == CheckBracketed(a, b, prevp, p, fa, fb, fp, tol)
  {
  }

  /** Both checkers stop exactly when one of their tests holds. */
  lemma CheckersStopIffATestHolds(a: real, b: real, prevp: real, p: real,
                                  fa: real, fb: real, fp: real, tol: real)
    ensures CheckBracketed(a, b, prevp, p, fa, fb, fp, tol).Some?
        <==> fp == 0.0 || Abs(b - a) < tol || Abs(p - prevp) < tol || Abs(fp) < tol
    ensures CheckOpen(prevp, p, fp, tol).Some?
        <==> fp == 0.0 || Abs(p - prevp) < tol || Abs(fp) < tol
  {
  }
}
