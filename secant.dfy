/** The secant method: an open method that keeps a window of the two latest
    points and shifts it by one point per iteration. */
module Secant {
  import opened Basics
  import opened Reasons
  import opened Termination
  import opened Engine

  /** The row iteration `i` emits for the window (a, b), or `None` when the
      chord through the two points is horizontal. */
  function SecantRow(f: real -> real, round: (real, nat) -> real,
                     d: nat, i: nat, a: real, b: real): (r: Option<Row>)
    ensures r.None? <==> round(f(a), d) == round(f(b), d)
    ensures r.Some? ==> r.value.i == i && r.value.a == a && r.value.b == b
    ensures r.Some? ==> r.value.fa == round(f(a), d) && r.value.fb == round(f(b), d)
                        && r.value.fp == round(f(r.value.p), d)
  {
    var fa := round(f(a), d);
    var fb := round(f(b), d);
    match Chord(round, d, a, b, fa, fb)
    case None => None
    case Some(p) => Some(Row(i, a, b, fa, fb, p, round(f(p), d)))
  }

  /** The open checker's verdict on a row: the new point against the newer
      point of the window. */
  function OpenVerdict(row: Row, tol: real): Option<Reason>
  {
    CheckOpen(row.b, row.p, row.fp, tol)
  }

  /** Iterations `i` to `s.maxIter`, starting with the window (a, b). */
  function SecantLoop(f: real -> real, round: (real, nat) -> real,
                      s: Settings, a: real, b: real, i: nat): (r: Run<Row>)
    ensures r.outcome != Failure(SameSignBracket)
    decreases s.maxIter + 1 - i
  {
    if i > s.maxIter then Run(Answer(b, MaxIterCountHit), [])
    else
      match SecantRow(f, round, s.Digits(), i, a, b)
      case None => Run(Failure(ZeroDenominator), [])
      case Some(row) =>
        match OpenVerdict(row, s.tol)
        case Some(reason) => Run(Answer(row.p, reason), [row])
        case None => Prepend([row], SecantLoop(f, round, s, row.b, row.p, i + 1))
  }

  /** One unfolding of the loop at an iteration that produced `row`, seen
      after the rows `done` that earlier iterations emitted. */
  lemma SecantLoopStep(f: real -> real, round: (real, nat) -> real, s: Settings,
                       a: real, b: real, i: nat, row: Row, done: seq<Row>)
    requires i <= s.maxIter
    requires SecantRow(f, round, s.Digits(), i, a, b) == Some(row)
    ensures OpenVerdict(row, s.tol).Some? ==>
              Prepend(done, SecantLoop(f, round, s, a, b, i))
              == Run(Answer(row.p, OpenVerdict(row, s.tol).value), done + [row])
    ensures OpenVerdict(row, s.tol).None? ==>
              Prepend(done, SecantLoop(f, round, s, a, b, i))
              == Prepend(done + [row], SecantLoop(f, round, s, row.b, row.p, i + 1))
  {
    var rest := SecantLoop(f, round, s, row.b, row.p, i + 1);
    assert done + ([row] + rest.rows) == done + [row] + rest.rows;
  }

  /** A whole secant run: no sign guard, the exact-zero shortcut on the
      unrounded inputs (a0 before b0), then the loop on the rounded window. */
  function SecantRun(f: real -> real, round: (real, nat) -> real,
                     s: Settings, a0: real, b0: real): (r: Run<Row>)
    ensures r.outcome != Failure(SameSignBracket)
    ensures f(a0) == 0.0 ==> r == Run(Answer(round(a0, s.Digits()), RootFound), [])
    ensures f(a0) != 0.0 && f(b0) == 0.0 ==>
              r == Run(Answer(round(b0, s.Digits()), RootFound), [])
  {
    var e1 := f(a0);
    var e2 := f(b0);
    var a := round(a0, s.Digits());
    var b := round(b0, s.Digits());
    if e1 == 0.0 then Run(Answer(a, RootFound), [])
    else if e2 == 0.0 then Run(Answer(b, RootFound), [])
    else SecantLoop(f, round, s, a, b, 1)
  }

  /** secantMethod: every emitted row is appended to `rows`, in order. A
      horizontal chord stops the run before that iteration's row. */
  method SecantMethod(f: real -> real, round: (real, nat) -> real, s: Settings,
                      a0: real, b0: real) returns (outcome: Outcome, rows: seq<Row>)
    ensures Run(outcome, rows) == SecantRun(f, round, s, a0, b0)
  {
    rows := [];
    var e1 := f(a0);
    var e2 := f(b0);
    var d := s.precision + 1;
    var a := round(a0, d);
    var b := round(b0, d);
    if e1 == 0.0 {
      return Answer(a, RootFound), rows;
    } else if e2 == 0.0 {
      return Answer(b, RootFound), rows;
    }
    for i := 1 to s.maxIter + 1
      invariant Prepend(rows, SecantLoop(f, round, s, a, b, i)) == SecantRun(f, round, s, a0, b0)
    {
      var fa := round(f(a), d);
      var fb := round(f(b), d);
      if fb - fa == 0.0 {
        return Failure(ZeroDenominator), rows;
      }
      var p := round(ChordZero(a, b, fa, fb), d);
      var fp := round(f(p), d);
      var row := Row(i, a, b, fa, fb, p, fp);
      SecantLoopStep(f, round, s, a, b, i, row, rows);
      rows := rows + [row];
      var verdict := CheckOpen(b, p, fp, s.tol);
      if verdict.Some? {
        return Answer(p, verdict.value), rows;
      }
      a := b;
      b := p;
    }
    return Answer(b, MaxIterCountHit), rows;
  }

  /* ---------- What a secant trace looks like ---------- */

  /** Every row is what its own iteration computes at the row's window. */
  ghost predicate Computed(f: real -> real, round: (real, nat) -> real, d: nat, rows: seq<Row>)
  {
    forall k :: 0 <= k < |rows| ==>
      SecantRow(f, round, d, rows[k].i, rows[k].a, rows[k].b) == Some(rows[k])
  }

  /** The first row is at (a, b), each later row's window is its
      predecessor's window shifted by the new point, and no row but the last
      stopped the loop. */
  ghost predicate Chained(tol: real, a: real, b: real, rows: seq<Row>)
  {
    && (rows != [] ==> rows[0].a == a && rows[0].b == b)
    && (forall k :: 0 <= k < |rows| - 1 ==> rows[k + 1].a == rows[k].b && rows[k + 1].b == rows[k].p)
    && (forall k :: 0 <= k < |rows| - 1 ==> OpenVerdict(rows[k], tol) == None)
  }

  /** The window the iteration after the last row works on. */
  function NextWindow(a: real, b: real, rows: seq<Row>): (real, real)
  {
    if rows == [] then (a, b) else (rows[|rows| - 1].b, rows[|rows| - 1].p)
  }

  /** How a loop started at iteration i ended, read off its last row. */
  ghost predicate EndsAsReported(f: real -> real, round: (real, nat) -> real,
                                 s: Settings, a: real, b: real, i: nat, r: Run<Row>)
  {
    var n := |r.rows|;
    match r.outcome
    case Answer(ans, MaxIterCountHit) =>
      && i + n == s.maxIter + 1
      && ans == (if n == 0 then b else r.rows[n - 1].p)
      && (n > 0 ==> OpenVerdict(r.rows[n - 1], s.tol) == None)
    case Answer(ans, reason) =>
      && n > 0
      && ans == r.rows[n - 1].p
      && OpenVerdict(r.rows[n - 1], s.tol) == Some(reason)
    case Failure(fault) =>
      && fault == ZeroDenominator
      && i + n <= s.maxIter
      && (n > 0 ==> OpenVerdict(r.rows[n - 1], s.tol) == None)
      && SecantRow(f, round, s.Digits(), i + n,
                   NextWindow(a, b, r.rows).0, NextWindow(a, b, r.rows).1) == None
  }

  /** The loop emits at most the remaining iterations' rows, numbered from
      i, each computed at its own window. */
  lemma {:induction false} SecantLoopRows(f: real -> real, round: (real, nat) -> real,
                                          s: Settings, a: real, b: real, i: nat)
    requires i <= s.maxIter + 1
    ensures var r := SecantLoop(f, round, s, a, b, i);
      && i + |r.rows| <= s.maxIter + 1
      && NumberedFrom(r.rows, RowIndex, i)
      && Computed(f, round, s.Digits(), r.rows)
    decreases s.maxIter + 1 - i
  {
    if i <= s.maxIter {
      match SecantRow(f, round, s.Digits(), i, a, b)
      case None =>
      case Some(row) =>
        if OpenVerdict(row, s.tol).None? {
          var rest := SecantLoop(f, round, s, row.b, row.p, i + 1);
          SecantLoopRows(f, round, s, row.b, row.p, i + 1);
          var rows := [row] + rest.rows;
          assert SecantLoop(f, round, s, a, b, i) == Run(rest.outcome, rows);
          forall k | 1 <= k < |rows|
            ensures rows[k] == rest.rows[k - 1]
          {
          }
        }
    }
  }

  /** The loop's rows form a chain of shifted windows from (a, b). */
  lemma {:induction false} SecantLoopChained(f: real -> real, round: (real, nat) -> real,
                                             s: Settings, a: real, b: real, i: nat)
    requires i <= s.maxIter + 1
    ensures Chained(s.tol, a, b, SecantLoop(f, round, s, a, b, i).rows)
    decreases s.maxIter + 1 - i
  {
    if i <= s.maxIter {
      match SecantRow(f, round, s.Digits(), i, a, b)
      case None =>
      case Some(row) =>
        if OpenVerdict(row, s.tol).None? {
          var rest := SecantLoop(f, round, s, row.b, row.p, i + 1);
          SecantLoopChained(f, round, s, row.b, row.p, i + 1);
          var rows := [row] + rest.rows;
          assert SecantLoop(f, round, s, a, b, i) == Run(rest.outcome, rows);
          forall k | 0 <= k < |rows| - 1
            ensures rows[k + 1].a == rows[k].b && rows[k + 1].b == rows[k].p
          {
            if k > 0 {
              assert rows[k] == rest.rows[k - 1] && rows[k + 1] == rest.rows[k];
            }
          }
          forall k | 0 <= k < |rows| - 1
            ensures OpenVerdict(rows[k], s.tol) == None
          {
            if k > 0 {
              assert rows[k] == rest.rows[k - 1];
            }
          }
        }
    }
  }

  /** The loop's outcome is the one its last row reports. */
  lemma {:induction false} SecantLoopEnds(f: real -> real, round: (real, nat) -> real,
                                          s: Settings, a: real, b: real, i: nat)
    requires i <= s.maxIter + 1
    ensures EndsAsReported(f, round, s, a, b, i, SecantLoop(f, round, s, a, b, i))
    decreases s.maxIter + 1 - i
  {
    if i <= s.maxIter {
      match SecantRow(f, round, s.Digits(), i, a, b)
      case None =>
      case Some(row) =>
        if OpenVerdict(row, s.tol).None? {
          var rest := SecantLoop(f, round, s, row.b, row.p, i + 1);
          SecantLoopEnds(f, round, s, row.b, row.p, i + 1);
          var rows := [row] + rest.rows;
          assert SecantLoop(f, round, s, a, b, i) == Run(rest.outcome, rows);
          var n := |rows|;
          assert n > 1 ==> rows[n - 1] == rest.rows[n - 2];
          assert NextWindow(a, b, rows) == NextWindow(row.b, row.p, rest.rows);
        }
    }
  }

  /** A whole run that did not take the shortcut: at most maxIter rows
      numbered 1, 2, ..., each computed at its own window, shifted from the
      rounded (a0, b0), and ending as its last row reports. */
  lemma SecantRunTrace(f: real -> real, round: (real, nat) -> real,
                       s: Settings, a0: real, b0: real)
    requires f(a0) != 0.0 && f(b0) != 0.0
    ensures var r := SecantRun(f, round, s, a0, b0);
            var a := round(a0, s.Digits());
            var b := round(b0, s.Digits());
      && |r.rows| <= s.maxIter
      && NumberedFrom(r.rows, RowIndex, 1)
      && Computed(f, round, s.Digits(), r.rows)
      && Chained(s.tol, a, b, r.rows)
      && EndsAsReported(f, round, s, a, b, 1, r)
  {
    var a := round(a0, s.Digits());
    var b := round(b0, s.Digits());
    SecantLoopRows(f, round, s, a, b, 1);
    SecantLoopChained(f, round, s, a, b, 1);
    SecantLoopEnds(f, round, s, a, b, 1);
  }

  /** With a budget of at least one iteration: an answer without rows comes
      only from the exact-zero shortcut; otherwise the answer is the point
      of the last row, also when the budget ran out, and that happens only
      after exactly maxIter rows. */
  lemma SecantAnswerIsLastPoint(f: real -> real, round: (real, nat) -> real,
                                s: Settings, a0: real, b0: real)
    requires s.maxIter >= 1
    ensures var r := SecantRun(f, round, s, a0, b0);
      && (r.outcome.Answer? && r.rows == [] ==>
            r.outcome.end == RootFound
            && (r.outcome.ans == round(a0, s.Digits()) || r.outcome.ans == round(b0, s.Digits())))
      && (r.outcome.Answer? && r.rows != [] ==> r.outcome.ans == r.rows[|r.rows| - 1].p)
      && (r.outcome.Answer? && r.outcome.end == MaxIterCountHit ==> |r.rows| == s.maxIter)
  {
    if f(a0) != 0.0 && f(b0) != 0.0 {
      SecantRunTrace(f, round, s, a0, b0);
    }
  }

  /** A row whose new point lies within the tolerance of the window's newer
      point is the last row: the run stops right there, with that point as
      answer, as an exact root or under the distance verdict. */
  lemma SecantStopsAtFirstSmallStep(f: real -> real, round: (real, nat) -> real,
                                    s: Settings, a0: real, b0: real, k: nat)
    requires k < |SecantRun(f, round, s, a0, b0).rows|
    requires Abs(SecantRun(f, round, s, a0, b0).rows[k].p - SecantRun(f, round, s, a0, b0).rows[k].b) < s.tol
    ensures var r := SecantRun(f, round, s, a0, b0);
      && k == |r.rows| - 1
      && (r.outcome == Answer(r.rows[k].p, RootFound) || r.outcome == Answer(r.rows[k].p, BMinusA))
  {
    SecantRunTrace(f, round, s, a0, b0);
  }
}
