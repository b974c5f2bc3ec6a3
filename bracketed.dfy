/** Bisection and false position: the two methods that keep a bracket [a, b]
    and replace one endpoint per iteration. */
module Bracketed {
  import opened Basics
  import opened Reasons
  import opened Termination
  import opened Engine

  /** How a bracketed method picks its next point. */
  datatype PointRule = Midpoint | FalsePositionChord

  /** The next point at bracket [a, b]: the midpoint, rounded first to one
      more digit and then to `d` digits, or the chord's zero. */
  function NextPoint(rule: PointRule, round: (real, nat) -> real, d: nat,
                     a: real, b: real, fa: real, fb: real): (r: Option<real>)
    ensures r.None? <==> rule == FalsePositionChord && fb == fa
  {
    match rule
    case Midpoint => Some(round(round((a + b) / 2.0, d + 1), d))
    case FalsePositionChord => Chord(round, d, a, b, fa, fb)
  }

  /** The row iteration `i` emits at bracket [a, b], or `None` when its next
      point cannot be computed. */
  function BracketRow(rule: PointRule, f: real -> real, round: (real, nat) -> real,
                      d: nat, i: nat, a: real, b: real): (r: Option<Row>)
    ensures r.None? <==> rule == FalsePositionChord && round(f(a), d) == round(f(b), d)
    ensures r.Some? ==> r.value.i == i && r.value.a == a && r.value.b == b
    ensures r.Some? ==> r.value.fa == round(f(a), d) && r.value.fb == round(f(b), d)
                        && r.value.fp == round(f(r.value.p), d)
  {
    var fa := round(f(a), d);
    var fb := round(f(b), d);
    match NextPoint(rule, round, d, a, b, fa, fb)
    case None => None
    case Some(p) => Some(Row(i, a, b, fa, fb, p, round(f(p), d)))
  }

  /** The checker's verdict on a row, given the previous point. */
  function Verdict(row: Row, prevMid: real, tol: real): Option<Reason>
  {
    CheckBracketed(row.a, row.b, prevMid, row.p, row.fa, row.fb, row.fp, tol)
  }

  /** The bracket after a row that did not stop the loop: `b` moves to `p`
      when f(a) and f(p) have strictly opposite signs, otherwise `a` does. */
  function Narrow(row: Row): (r: (real, real))
    ensures (r.0 == row.a && r.1 == row.p) || (r.0 == row.p && r.1 == row.b)
    ensures OppositeSigns(row.fa, row.fp) ==> r.1 == row.p
    ensures !OppositeSigns(row.fa, row.fp) ==> r.0 == row.p
  {
    if OppositeSigns(row.fa, row.fp) then (row.a, row.p) else (row.p, row.b)
  }

  /** Iterations `i` to `s.maxIter`, starting at bracket [a, b] with
      `prevMid` as the previous point. */
  function BracketLoop(rule: PointRule, f: real -> real, round: (real, nat) -> real,
                       s: Settings, a: real, b: real, prevMid: real, i: nat): (r: Run<Row>)
    ensures r.outcome != Failure(SameSignBracket)
    decreases s.maxIter + 1 - i
  {
    if i > s.maxIter then Run(Answer(prevMid, MaxIterCountHit), [])
    else
      match BracketRow(rule, f, round, s.Digits(), i, a, b)
      case None => Run(Failure(ZeroDenominator), [])
      case Some(row) =>
        match Verdict(row, prevMid, s.tol)
        case Some(reason) => Run(Answer(row.p, reason), [row])
        case None =>
          var (a', b') := Narrow(row);
          Prepend([row], BracketLoop(rule, f, round, s, a', b', row.p, i + 1))
  }

  /** One unfolding of the loop at an iteration that produced `row`, seen
      after the rows `done` that earlier iterations emitted. */
  lemma BracketLoopStep(rule: PointRule, f: real -> real, round: (real, nat) -> real,
                        s: Settings, a: real, b: real, prevMid: real, i: nat,
                        row: Row, done: seq<Row>)
    requires i <= s.maxIter
    requires BracketRow(rule, f, round, s.Digits(), i, a, b) == Some(row)
    ensures Verdict(row, prevMid, s.tol).Some? ==>
              Prepend(done, BracketLoop(rule, f, round, s, a, b, prevMid, i))
              == Run(Answer(row.p, Verdict(row, prevMid, s.tol).value), done + [row])
    ensures Verdict(row, prevMid, s.tol).None? ==>
              Prepend(done, BracketLoop(rule, f, round, s, a, b, prevMid, i))
              == Prepend(done + [row], BracketLoop(rule, f, round, s, Narrow(row).0, Narrow(row).1, row.p, i + 1))
  {
    var rest := BracketLoop(rule, f, round, s, Narrow(row).0, Narrow(row).1, row.p, i + 1);
    assert done + ([row] + rest.rows) == done + [row] + rest.rows;
  }

  /** A whole bracketed run from the caller's a0 and b0: the sign guard on
      the unrounded inputs, the exact-zero shortcut, then the loop with the
      rounded b as the first previous point. */
  function BracketRun(rule: PointRule, f: real -> real, round: (real, nat) -> real,
                      s: Settings, a0: real, b0: real): (r: Run<Row>)
    ensures r.outcome == Failure(SameSignBracket) <==> SameSigns(f(a0), f(b0))
    ensures SameSigns(f(a0), f(b0)) ==> r.rows == []
    ensures f(a0) == 0.0 ==> r == Run(Answer(round(a0, s.Digits()), RootFound), [])
    ensures f(a0) != 0.0 && f(b0) == 0.0 ==>
              r == Run(Answer(round(b0, s.Digits()), RootFound), [])
  {
    var e1 := f(a0);
    var e2 := f(b0);
    if SameSigns(e1, e2) then Run(Failure(SameSignBracket), [])
    else
      var a := round(a0, s.Digits());
      var b := round(b0, s.Digits());
      if e1 == 0.0 then Run(Answer(a, RootFound), [])
      else if e2 == 0.0 then Run(Answer(b, RootFound), [])
      else BracketLoop(rule, f, round, s, a, b, b, 1)
  }

  /** bisection: every emitted row is appended to `rows`, in order. */
  method Bisection(f: real -> real, round: (real, nat) -> real, s: Settings,
                   a0: real, b0: real) returns (outcome: Outcome, rows: seq<Row>)
    ensures Run(outcome, rows) == BracketRun(Midpoint, f, round, s, a0, b0)
  {
    rows := [];
    var e1 := f(a0);
    var e2 := f(b0);
    if (e1 < 0.0 && e2 < 0.0) || (e1 > 0.0 && e2 > 0.0) {
      return Failure(SameSignBracket), rows;
    }
    var d := s.precision + 1;
    var a := round(a0, d);
    var b := round(b0, d);
    var previousMid := b;
    if e1 == 0.0 {
      return Answer(a, RootFound), rows;
    } else if e2 == 0.0 {
      return Answer(b, RootFound), rows;
    }
    for i := 1 to s.maxIter + 1
      invariant Prepend(rows, BracketLoop(Midpoint, f, round, s, a, b, previousMid, i))
             == BracketRun(Midpoint, f, round, s, a0, b0)
    {
      var fa := round(f(a), d);
      var fb := round(f(b), d);
      var p := round(round((a + b) / 2.0, d + 1), d);
      var fp := round(f(p), d);
      var row := Row(i, a, b, fa, fb, p, fp);
      BracketLoopStep(Midpoint, f, round, s, a, b, previousMid, i, row, rows);
      rows := rows + [row];
      var verdict := CheckBracketed(a, b, previousMid, p, fa, fb, fp, s.tol);
      if verdict.Some? {
        return Answer(p, verdict.value), rows;
      }
      if (fa < 0.0 && fp > 0.0) || (fa > 0.0 && fp < 0.0) {
        b := p;
      } else {
        a := p;
      }
      previousMid := p;
    }
    return Answer(previousMid, MaxIterCountHit), rows;
  }

  /** falsePosition: as bisection, with the chord's zero as the next point.
      A horizontal chord stops the run before that iteration's row. */
  method FalsePosition(f: real -> real, round: (real, nat) -> real, s: Settings,
                   a0: real, b0: real) returns (outcome: Outcome, rows: seq<Row>)
    ensures Run(outcome, rows) == BracketRun(FalsePositionChord, f, round, s, a0, b0)
  {
    rows := [];
    var e1 := f(a0);
    var e2 := f(b0);
    if (e1 < 0.0 && e2 < 0.0) || (e1 > 0.0 && e2 > 0.0) {
      return Failure(SameSignBracket), rows;
    }
    var d := s.precision + 1;
    var a := round(a0, d);
    var b := round(b0, d);
    var previousMid := b;
    if e1 == 0.0 {
      return Answer(a, RootFound), rows;
    } else if e2 == 0.0 {
      return Answer(b, RootFound), rows;
    }
    for i := 1 to s.maxIter + 1
      invariant Prepend(rows, BracketLoop(FalsePositionChord, f, round, s, a, b, previousMid, i))
             == BracketRun(FalsePositionChord, f, round, s, a0, b0)
    {
      var fa := round(f(a), d);
      var fb := round(f(b), d);
      if fb - fa == 0.0 {
        return Failure(ZeroDenominator), rows;
      }
      var p := round(ChordZero(a, b, fa, fb), d);
      var fp := round(f(p), d);
      var row := Row(i, a, b, fa, fb, p, fp);
      BracketLoopStep(FalsePositionChord, f, round, s, a, b, previousMid, i, row, rows);
      rows := rows + [row];
      var verdict := CheckBracketed(a, b, previousMid, p, fa, fb, fp, s.tol);
      if verdict.Some? {
        return Answer(p, verdict.value), rows;
      }
      if (fa < 0.0 && fp > 0.0) || (fa > 0.0 && fp < 0.0) {
        b := p;
      } else {
        a := p;
      }
      previousMid := p;
    }
    return Answer(previousMid, MaxIterCountHit), rows;
  }

  /* ---------- What a bracketed trace looks like ---------- */

  /** Every row is what its own iteration computes at the row's bracket. */
  ghost predicate Computed(rule: PointRule, f: real -> real, round: (real, nat) -> real,
                           d: nat, rows: seq<Row>)
  {
    forall k :: 0 <= k < |rows| ==>
      BracketRow(rule, f, round, d, rows[k].i, rows[k].a, rows[k].b) == Some(rows[k])
  }

  /** The previous point row k was checked against: `first` for the first
      row, the point of the row before it otherwise. */
  function PrevMid(first: real, rows: seq<Row>, k: nat): real
    requires k < |rows|
  {
    if k == 0 then first else rows[k - 1].p
  }

  /** The first row is at [a, b], each later row is at the bracket its
      predecessor narrowed to, and no row but the last stopped the loop. */
  ghost predicate Chained(tol: real, a: real, b: real, first: real, rows: seq<Row>)
  {
    && (rows != [] ==> rows[0].a == a && rows[0].b == b)
    && (forall k :: 0 <= k < |rows| - 1 ==> (rows[k + 1].a, rows[k + 1].b) == Narrow(rows[k]))
    && (forall k :: 0 <= k < |rows| - 1 ==> Verdict(rows[k], PrevMid(first, rows, k), tol) == None)
  }

  /** The bracket the iteration after the last row works on. */
  function NextBracket(a: real, b: real, rows: seq<Row>): (real, real)
  {
    if rows == [] then (a, b) else Narrow(rows[|rows| - 1])
  }

  /** How a loop started at iteration i ended, read off its last row: the
      budget ran out after exactly the remaining iterations, none of which
      stopped, with the last point as answer; or the last row's verdict
      stopped it with that row's point as answer; or the next chord was
      horizontal. */
  ghost predicate EndsAsReported(rule: PointRule, f: real -> real, round: (real, nat) -> real,
                                 s: Settings, a: real, b: real, first: real, i: nat, r: Run<Row>)
  {
    var n := |r.rows|;
    match r.outcome
    case Answer(ans, MaxIterCountHit) =>
      && i + n == s.maxIter + 1
      && ans == (if n == 0 then first else r.rows[n - 1].p)
      && (n > 0 ==> Verdict(r.rows[n - 1], PrevMid(first, r.rows, n - 1), s.tol) == None)
    case Answer(ans, reason) =>
      && n > 0
      && ans == r.rows[n - 1].p
      && Verdict(r.rows[n - 1], PrevMid(first, r.rows, n - 1), s.tol) == Some(reason)
    case Failure(fault) =>
      && fault == ZeroDenominator
      && i + n <= s.maxIter
      && (n > 0 ==> Verdict(r.rows[n - 1], PrevMid(first, r.rows, n - 1), s.tol) == None)
      && BracketRow(rule, f, round, s.Digits(), i + n,
                    NextBracket(a, b, r.rows).0, NextBracket(a, b, r.rows).1) == None
  }

  /** The loop emits at most the remaining iterations' rows, numbered from
      i, each computed at its own bracket. */
  lemma {:induction false} BracketLoopRows(rule: PointRule, f: real -> real,
                                           round: (real, nat) -> real, s: Settings,
                                           a: real, b: real, first: real, i: nat)
    requires i <= s.maxIter + 1
    ensures var r := BracketLoop(rule, f, round, s, a, b, first, i);
      && i + |r.rows| <= s.maxIter + 1
      && NumberedFrom(r.rows, RowIndex, i)
      && Computed(rule, f, round, s.Digits(), r.rows)
    decreases s.maxIter + 1 - i
  {
    if i <= s.maxIter {
      match BracketRow(rule, f, round, s.Digits(), i, a, b)
      case None =>
      case Some(row) =>
        if Verdict(row, first, s.tol).None? {
          var (a', b') := Narrow(row);
          var rest := BracketLoop(rule, f, round, s, a', b', row.p, i + 1);
          BracketLoopRows(rule, f, round, s, a', b', row.p, i + 1);
          var rows := [row] + rest.rows;
          assert BracketLoop(rule, f, round, s, a, b, first, i) == Run(rest.outcome, rows);
          forall k | 1 <= k < |rows|
            ensures rows[k] == rest.rows[k - 1]
          {
          }
        }
    }
  }

  /** The loop's rows form a chain from [a, b]: each starts where its
      predecessor's narrowing left the bracket, and only the last stopped. */
  lemma {:induction false} BracketLoopChained(rule: PointRule, f: real -> real,
                                              round: (real, nat) -> real, s: Settings,
                                              a: real, b: real, first: real, i: nat)
    requires i <= s.maxIter + 1
    ensures Chained(s.tol, a, b, first, BracketLoop(rule, f, round, s, a, b, first, i).rows)
    decreases s.maxIter + 1 - i
  {
    if i <= s.maxIter {
      match BracketRow(rule, f, round, s.Digits(), i, a, b)
      case None =>
      case Some(row) =>
        if Verdict(row, first, s.tol).None? {
          var (a', b') := Narrow(row);
          var rest := BracketLoop(rule, f, round, s, a', b', row.p, i + 1);
          BracketLoopChained(rule, f, round, s, a', b', row.p, i + 1);
          var rows := [row] + rest.rows;
          assert BracketLoop(rule, f, round, s, a, b, first, i) == Run(rest.outcome, rows);
          forall k | 0 <= k < |rows| - 1
            ensures (rows[k + 1].a, rows[k + 1].b) == Narrow(rows[k])
          {
            if k > 0 {
              assert rows[k] == rest.rows[k - 1] && rows[k + 1] == rest.rows[k];
            }
          }
          forall k | 0 <= k < |rows| - 1
            ensures Verdict(rows[k], PrevMid(first, rows, k), s.tol) == None
          {
            if k > 0 {
              assert rows[k] == rest.rows[k - 1];
              assert PrevMid(first, rows, k) == PrevMid(row.p, rest.rows, k - 1);
            }
          }
        }
    }
  }

  /** The loop's outcome is the one its last row reports. */
  lemma {:induction false} BracketLoopEnds(rule: PointRule, f: real -> real,
                                           round: (real, nat) -> real, s: Settings,
                                           a: real, b: real, first: real, i: nat)
    requires i <= s.maxIter + 1
    ensures EndsAsReported(rule, f, round, s, a, b, first, i,
                           BracketLoop(rule, f, round, s, a, b, first, i))
    decreases s.maxIter + 1 - i
  {
    if i <= s.maxIter {
      match BracketRow(rule, f, round, s.Digits(), i, a, b)
      case None =>
      case Some(row) =>
        if Verdict(row, first, s.tol).None? {
          var (a', b') := Narrow(row);
          var rest := BracketLoop(rule, f, round, s, a', b', row.p, i + 1);
          BracketLoopEnds(rule, f, round, s, a', b', row.p, i + 1);
          var rows := [row] + rest.rows;
          assert BracketLoop(rule, f, round, s, a, b, first, i) == Run(rest.outcome, rows);
          var n := |rows|;
          assert n > 1 ==> (rows[n - 1] == rest.rows[n - 2]
                            && PrevMid(first, rows, n - 1) == PrevMid(row.p, rest.rows, n - 2));
          assert NextBracket(a, b, rows) == NextBracket(a', b', rest.rows);
        }
    }
  }

  /** A whole run that passed the sign guard and the shortcut: at most
      maxIter rows numbered 1, 2, ..., each computed at its own bracket,
      chained from the rounded [a0, b0] with the rounded b0 as the first
      previous point, and ending as its last row reports. */
  lemma BracketRunTrace(rule: PointRule, f: real -> real, round: (real, nat) -> real,
                        s: Settings, a0: real, b0: real)
    requires !SameSigns(f(a0), f(b0)) && f(a0) != 0.0 && f(b0) != 0.0
    ensures var r := BracketRun(rule, f, round, s, a0, b0);
            var a := round(a0, s.Digits());
            var b := round(b0, s.Digits());
      && |r.rows| <= s.maxIter
      && NumberedFrom(r.rows, RowIndex, 1)
      && Computed(rule, f, round, s.Digits(), r.rows)
      && Chained(s.tol, a, b, b, r.rows)
      && EndsAsReported(rule, f, round, s, a, b, b, 1, r)
  {
    var a := round(a0, s.Digits());
    var b := round(b0, s.Digits());
    BracketLoopRows(rule, f, round, s, a, b, b, 1);
    BracketLoopChained(rule, f, round, s, a, b, b, 1);
    BracketLoopEnds(rule, f, round, s, a, b, b, 1);
  }

  /** With a budget of at least one iteration (as the form demands): an
      answer without rows comes only from the exact-zero shortcut; otherwise
      the answer is the point of the last row, also when the budget ran out,
      and that happens only after exactly maxIter rows. Only false position
      can stop on a zero denominator. */
  lemma BracketAnswerIsLastPoint(rule: PointRule, f: real -> real, round: (real, nat) -> real,
                                 s: Settings, a0: real, b0: real)
    requires s.maxIter >= 1
    ensures var r := BracketRun(rule, f, round, s, a0, b0);
      && (r.outcome.Answer? && r.rows == [] ==>
            r.outcome.end == RootFound
            && (r.outcome.ans == round(a0, s.Digits()) || r.outcome.ans == round(b0, s.Digits())))
      && (r.outcome.Answer? && r.rows != [] ==> r.outcome.ans == r.rows[|r.rows| - 1].p)
      && (r.outcome.Answer? && r.outcome.end == MaxIterCountHit ==> |r.rows| == s.maxIter)
      && (r.outcome == Failure(ZeroDenominator) ==> rule == FalsePositionChord)
  {
    if !SameSigns(f(a0), f(b0)) && f(a0) != 0.0 && f(b0) != 0.0 {
      BracketRunTrace(rule, f, round, s, a0, b0);
    }
  }

  /** Once a row's rounded f(a) and f(b) have strictly opposite signs, the
      next row's do too: the endpoint that moves to p is the one whose sign
      p shares, and p's value is never zero on a row that did not stop. */
  lemma SignChangeStep(rule: PointRule, f: real -> real, round: (real, nat) -> real,
                       d: nat, tol: real, a: real, b: real, first: real,
                       rows: seq<Row>, k: nat)
    requires Computed(rule, f, round, d, rows) && Chained(tol, a, b, first, rows)
    requires k < |rows| - 1 && OppositeSigns(rows[k].fa, rows[k].fb)
    ensures OppositeSigns(rows[k + 1].fa, rows[k + 1].fb)
  {
    var row, next := rows[k], rows[k + 1];
    assert BracketRow(rule, f, round, d, row.i, row.a, row.b) == Some(row);
    assert BracketRow(rule, f, round, d, next.i, next.a, next.b) == Some(next);
    assert Verdict(row, PrevMid(first, rows, k), tol) == None;
    assert (next.a, next.b) == Narrow(row);
  }

  /** In a bracketed run, once a row's rounded f(a) and f(b) have strictly
      opposite signs, so do those of every later row: the bracket is never
      lost once held. */
  lemma SignChangeKept(rule: PointRule, f: real -> real, round: (real, nat) -> real,
                       s: Settings, a0: real, b0: real, k: nat, j: nat)
    requires k <= j < |BracketRun(rule, f, round, s, a0, b0).rows|
    requires OppositeSigns(BracketRun(rule, f, round, s, a0, b0).rows[k].fa,
                           BracketRun(rule, f, round, s, a0, b0).rows[k].fb)
    ensures OppositeSigns(BracketRun(rule, f, round, s, a0, b0).rows[j].fa,
                          BracketRun(rule, f, round, s, a0, b0).rows[j].fb)
  {
    BracketRunTrace(rule, f, round, s, a0, b0);
    var rows := BracketRun(rule, f, round, s, a0, b0).rows;
    var first := round(b0, s.Digits());
    SignChangeFrom(rule, f, round, s.Digits(), s.tol, round(a0, s.Digits()), first, first, rows, k, j);
  }

  /** The same over any chained trace, by induction on the later row. */
  lemma {:induction false} SignChangeFrom(rule: PointRule, f: real -> real,
                                          round: (real, nat) -> real, d: nat, tol: real,
                                          a: real, b: real, first: real,
                                          rows: seq<Row>, k: nat, j: nat)
    requires Computed(rule, f, round, d, rows) && Chained(tol, a, b, first, rows)
    requires k <= j < |rows| && OppositeSigns(rows[k].fa, rows[k].fb)
    ensures OppositeSigns(rows[j].fa, rows[j].fb)
    decreases j
  {
    if j > k {
      SignChangeFrom(rule, f, round, d, tol, a, b, first, rows, k, j - 1);
      SignChangeStep(rule, f, round, d, tol, a, b, first, rows, j - 1);
    }
  }

  /** A row on which any of the four tests holds is the last row: the run
      stops right there, with that row's point as answer and a reason other
      than the exhausted budget. */
  lemma BracketStopsAtFirstHit(rule: PointRule, f: real -> real, round: (real, nat) -> real,
                               s: Settings, a0: real, b0: real, k: nat)
    requires k < |BracketRun(rule, f, round, s, a0, b0).rows|
    requires var row := BracketRun(rule, f, round, s, a0, b0).rows[k];
             var prev := PrevMid(round(b0, s.Digits()), BracketRun(rule, f, round, s, a0, b0).rows, k);
             row.fp == 0.0 || Abs(row.b - row.a) < s.tol || Abs(row.p - prev) < s.tol || Abs(row.fp) < s.tol
    ensures var r := BracketRun(rule, f, round, s, a0, b0);
      && k == |r.rows| - 1
      && r.outcome.Answer? && r.outcome.ans == r.rows[k].p && r.outcome.end != MaxIterCountHit
  {
    BracketRunTrace(rule, f, round, s, a0, b0);
  }
}
