/**
 * The solution enumerator: it asks the solver for a model, reports the
 * deployed devices and the allowed traffic, and, until it has found
 * MAX_NUM_SOLUTION models, blocks the one just found with a clause over
 * the device placement and the isolation measures before asking again.
 * The solver is an oracle over the clauses added so far.
 */
module Enumeration {
  import opened Constraints

  /** How many models the enumerator reports. */
  const MAX_NUM_SOLUTION: nat := 1

  /**
   * The negation of one model's decisions: a literal (l, d, b) for the
   * placement variable of device d on link l, and a literal (i, j, v) for
   * the isolation measure of the flow from i to j.
   */
  datatype Clause = Clause(placement: seq<(int, int, bool)>, measures: seq<(int, int, int)>)

  /** The answer of one solver check. */
  datatype Verdict = Sat(model: Assignment) | Unsat | Unknown

  /** A blocking clause holds on B when B differs from one of its literals. */
  predicate Holds(c: Clause, B: Assignment)
  {
    || (exists k :: 0 <= k < |c.placement| && B.devInLink(c.placement[k].0, c.placement[k].1) != c.placement[k].2)
    || (exists k :: 0 <= k < |c.measures| && B.flowIsoMsr(c.measures[k].0, c.measures[k].1) != c.measures[k].2)
  }

  /** A and B place the same devices on every link and measure every flow alike. */
  ghost predicate SameDecisions(P: Params, A: Assignment, B: Assignment)
  {
    && (forall l, d :: 1 <= l <= P.nLink && 1 <= d <= P.nDev ==> A.devInLink(l, d) == B.devInLink(l, d))
    && (forall i, j :: 1 <= i <= P.nHost && 1 <= j <= P.nHost ==> A.flowIsoMsr(i, j) == B.flowIsoMsr(i, j))
  }

  // ---------------------------------------------------------------------
  // Counting over a grid rows x cols, numbered from 1
  // ---------------------------------------------------------------------

  /** The number of cells (r, 1..cols) where p holds. */
  function RowCount(r: int, cols: int, p: (int, int) -> bool): nat
    decreases cols
  {
    if cols <= 0 then 0 else RowCount(r, cols - 1, p) + (if p(r, cols) then 1 else 0)
  }

  /** The number of cells (1..rows, 1..cols) where p holds. */
  function GridCount(rows: int, cols: int, p: (int, int) -> bool): nat
    decreases rows
  {
    if rows <= 0 then 0 else GridCount(rows - 1, cols, p) + RowCount(rows, cols, p)
  }

  /** The cells (r, 1..cols) where p holds. */
  ghost function RowSet(r: int, cols: int, p: (int, int) -> bool): set<(int, int)>
  {
    set c | 1 <= c <= cols && p(r, c) :: (r, c)
  }

  /** The cells (1..rows, 1..cols) where p holds. */
  ghost function GridSet(rows: int, cols: int, p: (int, int) -> bool): set<(int, int)>
  {
    set r, c | 1 <= r <= rows && 1 <= c <= cols && p(r, c) :: (r, c)
  }

  lemma {:induction false} RowCountSize(r: int, cols: int, p: (int, int) -> bool)
    ensures RowCount(r, cols, p) == |RowSet(r, cols, p)|
    decreases cols
  {
    if cols <= 0 {
      assert RowSet(r, cols, p) == {};
    } else {
      RowCountSize(r, cols - 1, p);
      if p(r, cols) {
        assert RowSet(r, cols, p) == RowSet(r, cols - 1, p) + {(r, cols)};
      } else {
        assert RowSet(r, cols, p) == RowSet(r, cols - 1, p);
      }
    }
  }

  /** The grid count is the number of cells where p holds. */
  lemma {:induction false} GridCountSize(rows: int, cols: int, p: (int, int) -> bool)
    ensures GridCount(rows, cols, p) == |GridSet(rows, cols, p)|
    decreases rows
  {
    if rows <= 0 {
      assert GridSet(rows, cols, p) == {};
    } else {
      GridCountSize(rows - 1, cols, p);
      RowCountSize(rows, cols, p);
      assert GridSet(rows, cols, p) == GridSet(rows - 1, cols, p) + RowSet(rows, cols, p);
      assert GridSet(rows - 1, cols, p) !! RowSet(rows, cols, p);
    }
  }

  // ---------------------------------------------------------------------
  // Building the blocking clause
  // ---------------------------------------------------------------------

  /** lits holds exactly the literals (r, c, value(r, c)) of the cells of the grid. */
  ghost predicate Covers<T>(lits: seq<(int, int, T)>, rows: int, cols: int, value: (int, int) -> T)
  {
    && (forall k :: 0 <= k < |lits| ==>
          1 <= lits[k].0 <= rows && 1 <= lits[k].1 <= cols && lits[k].2 == value(lits[k].0, lits[k].1))
    && (forall r, c :: 1 <= r <= rows && 1 <= c <= cols ==> (r, c, value(r, c)) in lits)
  }

  /** c blocks exactly the decisions of A: its literals are A's placement and measures. */
  ghost predicate Blocking(P: Params, A: Assignment, c: Clause)
  {
    Covers(c.placement, P.nLink, P.nDev, A.devInLink) && Covers(c.measures, P.nHost, P.nHost, A.flowIsoMsr)
  }

  /** The flows the report lists as allowed: their isolation measure has a non-zero usability. */
  function Allowed(P: Params, A: Assignment): (int, int) -> bool
  {
    (i, j) => IsoUsaAt(P, A.flowIsoMsr(i, j)) != 0
  }

  /** One literal per cell, row by row, and the number of cells where counted holds. */
  method Literals<T(==)>(rows: int, cols: int, value: (int, int) -> T, counted: (int, int) -> bool)
    returns (lits: seq<(int, int, T)>, count: nat)
    ensures Covers(lits, rows, cols, value)
    ensures count == |GridSet(rows, cols, counted)|
  {
    lits := [];
    count := 0;
    var i := 1;
    while i <= rows
      invariant 1 <= i <= if rows < 1 then 1 else rows + 1
      invariant forall k :: 0 <= k < |lits| ==>
                  1 <= lits[k].0 < i && 1 <= lits[k].1 <= cols && lits[k].2 == value(lits[k].0, lits[k].1)
      invariant forall r, c :: 1 <= r < i && 1 <= c <= cols ==> (r, c, value(r, c)) in lits
      invariant count == GridCount(i - 1, cols, counted)
    {
      var j := 1;
      while j <= cols
        invariant 1 <= j <= if cols < 1 then 1 else cols + 1
        invariant forall k :: 0 <= k < |lits| ==>
                    1 <= lits[k].0 <= i && 1 <= lits[k].1 <= cols && lits[k].2 == value(lits[k].0, lits[k].1)
        invariant forall r, c :: 1 <= r < i && 1 <= c <= cols ==> (r, c, value(r, c)) in lits
        invariant forall c :: 1 <= c < j ==> (i, c, value(i, c)) in lits
        invariant count == GridCount(i - 1, cols, counted) + RowCount(i, j - 1, counted)
      {
        lits := lits + [(i, j, value(i, j))];
        if counted(i, j) {
          count := count + 1;
        }
        j := j + 1;
      }
      assert RowCount(i, j - 1, counted) == RowCount(i, cols, counted);
      i := i + 1;
    }
    assert GridCount(i - 1, cols, counted) == GridCount(rows, cols, counted);
    GridCountSize(rows, cols, counted);
  }

  /**
   * The clause that blocks model A, with the number of deployed devices and
   * the number of allowed flows the report prints.
   */
  method BuildBlockingClause(P: Params, A: Assignment) returns (c: Clause, deployed: nat, allowed: nat)
    ensures Blocking(P, A, c)
    ensures deployed == |GridSet(P.nLink, P.nDev, A.devInLink)|
    ensures allowed == |GridSet(P.nHost, P.nHost, Allowed(P, A))|
  {
    var placement, measures;
    placement, deployed := Literals(P.nLink, P.nDev, A.devInLink, A.devInLink);
    measures, allowed := Literals(P.nHost, P.nHost, A.flowIsoMsr, Allowed(P, A));
    c := Clause(placement, measures);
  }

  /**
   * A blocking clause for A holds on B exactly when B differs from A on the
   * placement of some device or the measure of some flow; the OS and
   * service choices play no part.
   */
  lemma BlockingExact(P: Params, A: Assignment, c: Clause, B: Assignment)
    requires Blocking(P, A, c)
    ensures Holds(c, B) <==> !SameDecisions(P, A, B)
  {
    if !SameDecisions(P, A, B) {
      if l, d :| 1 <= l <= P.nLink && 1 <= d <= P.nDev && A.devInLink(l, d) != B.devInLink(l, d) {
        var k :| 0 <= k < |c.placement| && c.placement[k] == (l, d, A.devInLink(l, d));
        assert B.devInLink(c.placement[k].0, c.placement[k].1) != c.placement[k].2;
      } else {
        var i, j :| 1 <= i <= P.nHost && 1 <= j <= P.nHost && A.flowIsoMsr(i, j) != B.flowIsoMsr(i, j);
        var k :| 0 <= k < |c.measures| && c.measures[k] == (i, j, A.flowIsoMsr(i, j));
        assert B.flowIsoMsr(c.measures[k].0, c.measures[k].1) != c.measures[k].2;
      }
    }
  }

  // ---------------------------------------------------------------------
  // The enumeration loop
  // ---------------------------------------------------------------------

  /** The solver only answers with a model of the constraints on which every clause so far holds. */
  ghost predicate SoundSolver(P: Params, solve: seq<Clause> -> Verdict)
    requires ValidParams(P)
  {
    forall cs :: solve(cs).Sat? ==> Satisfies(P, solve(cs).model) && forall c :: c in cs ==> Holds(c, solve(cs).model)
  }

  /** Model n is the solver's answer to the first n clauses, and clause n blocks it. */
  ghost predicate Recorded(P: Params, solve: seq<Clause> -> Verdict, solutions: seq<Assignment>, clauses: seq<Clause>)
  {
    && |solutions| <= |clauses| + 1
    && (forall n :: 0 <= n < |solutions| ==> solve(clauses[..n]) == Sat(solutions[n]))
    && (forall n :: 0 <= n < |clauses| && n < |solutions| ==> Blocking(P, solutions[n], clauses[n]))
  }

  /** Recording the solver's answer to all clauses so far. */
  lemma RecordModel(P: Params, solve: seq<Clause> -> Verdict, solutions: seq<Assignment>, clauses: seq<Clause>)
    requires Recorded(P, solve, solutions, clauses) && |solutions| == |clauses| && solve(clauses).Sat?
    ensures Recorded(P, solve, solutions + [solve(clauses).model], clauses)
  {
    assert clauses[..|solutions|] == clauses;
  }

  /** Recording the clause that blocks the last model. */
  lemma RecordClause(P: Params, solve: seq<Clause> -> Verdict, solutions: seq<Assignment>, clauses: seq<Clause>, c: Clause)
    requires Recorded(P, solve, solutions, clauses) && |solutions| == |clauses| + 1
    requires Blocking(P, solutions[|clauses|], c)
    ensures Recorded(P, solve, solutions, clauses + [c])
  {
    forall n | 0 <= n < |solutions|
      ensures (clauses + [c])[..n] == clauses[..n]
    {
    }
  }

  /** Every recorded model is a model of the constraints, and no two make the same decisions. */
  lemma RecordedModels(P: Params, solve: seq<Clause> -> Verdict, solutions: seq<Assignment>, clauses: seq<Clause>)
    requires ValidParams(P) && SoundSolver(P, solve)
    requires Recorded(P, solve, solutions, clauses)
    ensures forall n :: 0 <= n < |solutions| ==> Satisfies(P, solutions[n])
    ensures forall n, m :: 0 <= n < m < |solutions| ==> !SameDecisions(P, solutions[n], solutions[m])
  {
    forall n | 0 <= n < |solutions|
      ensures Satisfies(P, solutions[n])
    {
      assert solve(clauses[..n]) == Sat(solutions[n]);
    }
    forall n, m | 0 <= n < m < |solutions|
      ensures !SameDecisions(P, solutions[n], solutions[m])
    {
      assert solve(clauses[..m]) == Sat(solutions[m]);
      assert clauses[n] in clauses[..m];
      BlockingExact(P, solutions[n], clauses[n], solutions[m]);
    }
  }

  /**
   * Ask for models until the solver has none or maxSolutions are found;
   * after every model but the last, add the clause that blocks it.
   */
  method Enumerate(P: Params, solve: seq<Clause> -> Verdict, maxSolutions: nat)
    returns (solutions: seq<Assignment>, clauses: seq<Clause>, found: bool)
    requires ValidParams(P) && SoundSolver(P, solve)
    requires maxSolutions >= 1
    ensures found <==> |solutions| > 0
    ensures |solutions| <= maxSolutions
    ensures |clauses| == if |solutions| == maxSolutions then |solutions| - 1 else |solutions|
    ensures Recorded(P, solve, solutions, clauses)
    ensures forall n :: 0 <= n < |solutions| ==> Satisfies(P, solutions[n])
    ensures forall n, m :: 0 <= n < m < |solutions| ==> !SameDecisions(P, solutions[n], solutions[m])
    ensures |solutions| < maxSolutions ==> !solve(clauses).Sat?
  {
    solutions := [];
    clauses := [];
    found := false;
    var searching := true;
    while searching
      invariant |solutions| <= maxSolutions
      invariant |clauses| == if |solutions| == maxSolutions then |solutions| - 1 else |solutions|
      invariant searching ==> |solutions| < maxSolutions
      invariant found <==> |solutions| > 0
      invariant Recorded(P, solve, solutions, clauses)
      invariant !searching && |solutions| < maxSolutions ==> !solve(clauses).Sat?
      decreases maxSolutions - |solutions|, searching
    {
      var verdict := solve(clauses);
      if !verdict.Sat? {
        searching := false;
      } else {
        RecordModel(P, solve, solutions, clauses);
        found := true;
        solutions := solutions + [verdict.model];
        if |solutions| == maxSolutions {
          searching := false;
        } else {
          var c, deployed, allowed := BuildBlockingClause(P, verdict.model);
          RecordClause(P, solve, solutions, clauses, c);
          clauses := clauses + [c];
        }
      }
    }
    RecordedModels(P, solve, solutions, clauses);
  }

  /**
   * The enumerator as the compiler runs it, with MAX_NUM_SOLUTION models:
   * one check, no blocking clause, and a model exactly when the solver
   * finds one.
   */
  method FindSolutions(P: Params, solve: seq<Clause> -> Verdict)
    returns (solutions: seq<Assignment>, found: bool)
    requires ValidParams(P) && SoundSolver(P, solve)
    ensures found <==> solve([]).Sat?
    ensures found ==> solutions == [solve([]).model] && Satisfies(P, solutions[0])
    ensures !found ==> solutions == []
  {
    var clauses;
    solutions, clauses, found := Enumerate(P, solve, MAX_NUM_SOLUTION);
    if found {
      assert clauses == [] && clauses[..0] == [];
    }
  }
}
