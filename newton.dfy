/** Newton's method: an open method that keeps a single point and moves it
    along the tangent. */
module Newton {
  import opened Basics
  import opened Reasons
  import opened Termination
  import opened Engine

  /** Where the tangent at (a, fa) with slope dfa crosses zero. */
  function TangentZero(a: real, fa: real, dfa: real): (r: real)
    requires dfa != 0.0
    ensures fa + dfa * (r - a) == 0.0
  {
    a - fa / dfa
  }

  /** The row iteration `i` emits at point a, or `None` when the rounded
      derivative there is zero. */
  function NewtonStep(f: real -> real, df: real -> real, round: (real, nat) -> real,
                      d: nat, i: nat, a: real): (r: Option<NewtonRow>)
    ensures r.None? <==> round(df(a), d) == 0.0
  {
    var fa := round(f(a), d);
    var dfa := round(df(a), d);
    if dfa == 0.0 then None
    else
      var p := round(TangentZero(a, fa, dfa), d);
      Some(NewtonRow(i, a, fa, dfa, p, round(f(p), d)))
  }

  /** The open checker's verdict on a row: the new point against the old. */
  function OpenVerdict(row: NewtonRow, tol: real): Option<Reason>
  {
    CheckOpen(row.a, row.p, row.fp, tol)
  }

  /** Iterations `i` to `s.maxIter`, starting at point a. An early stop
      rounds the answer once more. */
  function NewtonLoop(f: real -> real, df: real -> real, round: (real, nat) -> real,
                      s: Settings, a: real, i: nat): (r: Run<NewtonRow>)
    ensures r.outcome != Failure(SameSignBracket)
    decreases s.maxIter + 1 - i
  {
    if i > s.maxIter then Run(Answer(a, MaxIterCountHit), [])
    else
      match NewtonStep(f, df, round, s.Digits(), i, a)
      case None => Run(Failure(ZeroDenominator), [])
      case Some(row) =>
        match OpenVerdict(row, s.tol)
        case Some(reason) => Run(Answer(round(row.p, s.Digits()), reason), [row])
        case None => Prepend([row], NewtonLoop(f, df, round, s, row.p, i + 1))
  }

  /** One unfolding of the loop at an iteration that produced `row`, seen
      after the rows `done` that earlier iterations emitted. */
  lemma NewtonLoopStep(f: real -> real, df: real -> real, round: (real, nat) -> real,
                       s: Settings, a: real, i: nat, row: NewtonRow, done: seq<NewtonRow>)
    requires i <= s.maxIter
    requires NewtonStep(f, df, round, s.Digits(), i, a) == Some(row)
    ensures OpenVerdict(row, s.tol).Some? ==>
              Prepend(done, NewtonLoop(f, df, round, s, a, i))
              == Run(Answer(round(row.p, s.Digits()), OpenVerdict(row, s.tol).value), done + [row])
    ensures OpenVerdict(row, s.tol).None? ==>
              Prepend(done, NewtonLoop(f, df, round, s, a, i))
              == Prepend(done + [row], NewtonLoop(f, df, round, s, row.p, i + 1))
  {
    var rest := NewtonLoop(f, df, round, s, row.p, i + 1);
    assert done + ([row] + rest.rows) == done + [row] + rest.rows;
  }

  /** A whole Newton run: the exact-zero shortcut on the unrounded input,
      then the loop from the rounded point. */
  function NewtonRun(f: real -> real, df: real -> real, round: (real, nat) -> real,
                     s: Settings, a0: real): (r: Run<NewtonRow>)
    ensures r.outcome != Failure(SameSignBracket)
    ensures f(a0) == 0.0 ==> r == Run(Answer(round(a0, s.Digits()), RootFound), [])
  {
    var a := round(a0, s.Digits());
    if f(a0) == 0.0 then Run(Answer(a, RootFound), [])
    else NewtonLoop(f, df, round, s, a, 1)
  }

  /** newton: every emitted row is appended to `rows`, in order. A zero
      rounded derivative stops the run before that iteration's row. */
  method NewtonMethod(f: real -> real, df: real -> real, round: (real, nat) -> real,
                      s: Settings, a0: real) returns (outcome: Outcome, rows: seq<NewtonRow>)
    ensures Run(outcome, rows) == NewtonRun(f, df, round, s, a0)
  {
    rows := [];
    var e1 := f(a0);
    var d := s.precision + 1;
    var a := round(a0, d);
    if e1 == 0.0 {
      return Answer(a, RootFound), rows;
    }
    for i := 1 to s.maxIter + 1
      invariant Prepend(rows, NewtonLoop(f, df, round, s, a, i)) == NewtonRun(f, df, round, s, a0)
    {
      var fa := round(f(a), d);
      var fprimea := round(df(a), d);
      if fprimea == 0.0 {
        return Failure(ZeroDenominator), rows;
      }
      var p := round(TangentZero(a, fa, fprimea), d);
      var fp := round(f(p), d);
      var row := NewtonRow(i, a, fa, fprimea, p, fp);
      NewtonLoopStep(f, df, round, s, a, i, row, rows);
      rows := rows + [row];
      var verdict := CheckOpen(a, p, fp, s.tol);
      if verdict.Some? {
        return Answer(round(p, d), verdict.value), rows;
      }
      a := p;
    }
    return Answer(a, MaxIterCountHit), rows;
  }

  /* ---------- What a Newton trace looks like ---------- */

  /** Every row is what its own iteration computes at the row's point. */
  ghost predicate Computed(f: real -> real, df: real -> real, round: (real, nat) -> real,
                           d: nat, rows: seq<NewtonRow>)
  {
    forall k :: 0 <= k < |rows| ==>
      NewtonStep(f, df, round, d, rows[k].i, rows[k].a) == Some(rows[k])
  }

  /** The first row is at a, each later row is at its predecessor's new
      point, and no row but the last stopped the loop. */
  ghost predicate Chained(tol: real, a: real, rows: seq<NewtonRow>)
  {
    && (rows != [] ==> rows[0].a == a)
    && (forall k :: 0 <= k < |rows| - 1 ==> rows[k + 1].a == rows[k].p)
    && (forall k :: 0 <= k < |rows| - 1 ==> OpenVerdict(rows[k], tol) == None)
  }

  /** The point the iteration after the last row works on. */
  function NextStart(a: real, rows: seq<NewtonRow>): real
  {
    if rows == [] then a else rows[|rows| - 1].p
  }

  /** How a loop started at iteration i ended, read off its last row: an
      early stop answers the last point rounded once more, an exhausted
      budget answers it as it is. */
  ghost predicate EndsAsReported(f: real -> real, df: real -> real, round: (real, nat) -> real,
                                 s: Settings, a: real, i: nat, r: Run<NewtonRow>)
  {
    var n := |r.rows|;
    match r.outcome
    case Answer(ans, MaxIterCountHit) =>
      && i + n == s.maxIter + 1
      && ans == NextStart(a, r.rows)
      && (n > 0 ==> OpenVerdict(r.rows[n - 1], s.tol) == None)
    case Answer(ans, reason) =>
      && n > 0
      && ans == round(r.rows[n - 1].p, s.Digits())
      && OpenVerdict(r.rows[n - 1], s.tol) == Some(reason)
    case Failure(fault) =>
      && fault == ZeroDenominator
      && i + n <= s.maxIter
      && (n > 0 ==> OpenVerdict(r.rows[n - 1], s.tol) == None)
      && round(df(NextStart(a, r.rows)), s.Digits()) == 0.0
  }

  /** The loop emits at most the remaining iterations' rows, numbered from
      i, each computed at its own point. */
  lemma {:induction false} NewtonLoopRows(f: real -> real, df: real -> real,
                                          round: (real, nat) -> real,
                                          s: Settings, a: real, i: nat)
    requires i <= s.maxIter + 1
    ensures var r := NewtonLoop(f, df, round, s, a, i);
      && i + |r.rows| <= s.maxIter + 1
      && NumberedFrom(r.rows, NewtonRowIndex, i)
      && Computed(f, df, round, s.Digits(), r.rows)
    decreases s.maxIter + 1 - i
  {
    if i <= s.maxIter {
      match NewtonStep(f, df, round, s.Digits(), i, a)
      case None =>
      case Some(row) =>
        if OpenVerdict(row, s.tol).None? {
          var rest := NewtonLoop(f, df, round, s, row.p, i + 1);
          NewtonLoopRows(f, df, round, s, row.p, i + 1);
          var rows := [row] + rest.rows;
          assert NewtonLoop(f, df, round, s, a, i) == Run(rest.outcome, rows);
          forall k | 1 <= k < |rows|
            ensures rows[k] == rest.rows[k - 1]
          {
          }
        }
    }
  }

  /** The loop's rows form a chain of points from a. */
  lemma {:induction false} NewtonLoopChained(f: real -> real, df: real -> real,
                                             round: (real, nat) -> real,
                                             s: Settings, a: real, i: nat)
    requires i <= s.maxIter + 1
    ensures Chained(s.tol, a, NewtonLoop(f, df, round, s, a, i).rows)
    decreases s.maxIter + 1 - i
  {
    if i <= s.maxIter {
      match NewtonStep(f, df, round, s.Digits(), i, a)
      case None =>
      case Some(row) =>
        if OpenVerdict(row, s.tol).None? {
          var rest := NewtonLoop(f, df, round, s, row.p, i + 1);
          NewtonLoopChained(f, df, round, s, row.p, i + 1);
          var rows := [row] + rest.rows;
          assert NewtonLoop(f, df, round, s, a, i) == Run(rest.outcome, rows);
          forall k | 0 <= k < |rows| - 1
            ensures rows[k + 1].a == rows[k].p
          {
            if k > 0 {
              assert rows[k] == rest.rows[k - 1] && rows[k + 1] == rest.rows[k];
            }
          }
          forall k | 0 <= k < |rows| - 1
            ensures OpenVerdict(rows[k], s.tol) == None
          {
            if k > 0 {
              assert rows[k] == rest.rows[k - 1];
            }
          }
        }
    }
  }

  /** The loop's outcome is the one its last row reports. */
  lemma {:induction false} NewtonLoopEnds(f: real -> real, df: real -> real,
                                          round: (real, nat) -> real,
                                          s: Settings, a: real, i: nat)
    requires i <= s.maxIter + 1
    ensures EndsAsReported(f, df, round, s, a, i, NewtonLoop(f, df, round, s, a, i))
    decreases s.maxIter + 1 - i
  {
    if i <= s.maxIter {
      match NewtonStep(f, df, round, s.Digits(), i, a)
      case None =>
      case Some(row) =>
        if OpenVerdict(row, s.tol).None? {
          var rest := NewtonLoop(f, df, round, s, row.p, i + 1);
          NewtonLoopEnds(f, df, round, s, row.p, i + 1);
          var rows := [row] + rest.rows;
          assert NewtonLoop(f, df, round, s, a, i) == Run(rest.outcome, rows);
          var n := |rows|;
          assert n > 1 ==> rows[n - 1] == rest.rows[n - 2];
          assert NextStart(a, rows) == NextStart(row.p, rest.rows);
        }
    }
  }

  /** A whole run that did not take the shortcut: at most maxIter rows
      numbered 1, 2, ..., each computed at its own point, chained from the
      rounded a0, and ending as its last row reports. */
  lemma NewtonRunTrace(f: real -> real, df: real -> real, round: (real, nat) -> real,
                       s: Settings, a0: real)
    requires f(a0) != 0.0
    ensures var r := NewtonRun(f, df, round, s, a0);
            var a := round(a0, s.Digits());
      && |r.rows| <= s.maxIter
      && NumberedFrom(r.rows, NewtonRowIndex, 1)
      && Computed(f, df, round, s.Digits(), r.rows)
      && Chained(s.tol, a, r.rows)
      && EndsAsReported(f, df, round, s, a, 1, r)
  {
    var a := round(a0, s.Digits());
    NewtonLoopRows(f, df, round, s, a, 1);
    NewtonLoopChained(f, df, round, s, a, 1);
    NewtonLoopEnds(f, df, round, s, a, 1);
  }

  /** With a budget of at least one iteration: an answer without rows comes
      only from the exact-zero shortcut; an early stop answers the last
      row's point rounded once more; an exhausted budget answers the last
      row's point as it is, after exactly maxIter rows. */
  lemma NewtonAnswerIsLastPoint(f: real -> real, df: real -> real, round: (real, nat) -> real,
                                s: Settings, a0: real)
    requires s.maxIter >= 1
    ensures var r := NewtonRun(f, df, round, s, a0);
            var n := |r.rows|;
      && (r.outcome.Answer? && n == 0 ==>
            r.outcome == Answer(round(a0, s.Digits()), RootFound))
      && (r.outcome.Answer? && r.outcome.end != MaxIterCountHit && n > 0 ==>
            r.outcome.ans == round(r.rows[n - 1].p, s.Digits()))
      && (r.outcome.Answer? && r.outcome.end == MaxIterCountHit ==>
            n == s.maxIter && r.outcome.ans == r.rows[n - 1].p)
  {
    if f(a0) != 0.0 {
      NewtonRunTrace(f, df, round, s, a0);
    }
  }

  /** A row whose new point lies within the tolerance of its old point is
      the last row: the run stops right there, as an exact root or under
      the distance verdict. */
  lemma NewtonStopsAtFirstSmallStep(f: real -> real, df: real -> real, round: (real, nat) -> real,
                                    s: Settings, a0: real, k: nat)
    requires k < |NewtonRun(f, df, round, s, a0).rows|
    requires Abs(NewtonRun(f, df, round, s, a0).rows[k].p - NewtonRun(f, df, round, s, a0).rows[k].a) < s.tol
    ensures var r := NewtonRun(f, df, round, s, a0);
      && k == |r.rows| - 1
      && (r.outcome.Answer? && (r.outcome.end == RootFound || r.outcome.end == BMinusA))
  {
    NewtonRunTrace(f, df, round, s, a0);
  }
}
