/**
 * The constraint model the gate engine posts to its CP solver, and what any
 * conforming solver promises about its answer. Flights and gates are numbered
 * by their position in the flight table and in the gate list.
 */
module GateModel {

  datatype CpModel = CpModel(
    flightCount: nat,
    gateCount: nat,
    /** Pairs (i, k), i < k, of flights whose windows conflict: never on the same gate. */
    conflicts: seq<(nat, nat)>,
    /** Indices of the gates no flight may use. */
    closed: seq<nat>,
    /** cost[i][j]: the distance from flight i's original gate to gate j. */
    cost: seq<seq<int>>)

  predicate WellFormed(m: CpModel)
  {
    |m.cost| == m.flightCount && forall i :: 0 <= i < |m.cost| ==> |m.cost[i]| == m.gateCount
  }

  /** One gate index in range per flight: the integer variables `gate_i` of the model. */
  predicate OneGateEach(m: CpModel, a: seq<int>)
  {
    |a| == m.flightCount && forall i :: 0 <= i < |a| ==> 0 <= a[i] < m.gateCount
  }

  /** An answer meets every posted constraint. */
  predicate Satisfies(m: CpModel, a: seq<int>)
  {
    && OneGateEach(m, a)
    && (forall p :: p in m.conflicts && p.0 < |a| && p.1 < |a| ==> a[p.0] != a[p.1])
    && (forall i :: 0 <= i < |a| ==> a[i] !in m.closed)
  }

  /** Total relocation cost of an answer: the sum over flights of cost[i][a[i]]. */
  function Cost(m: CpModel, a: seq<int>): int
    requires WellFormed(m) && OneGateEach(m, a)
  {
    CostUpTo(m, a, |a|)
  }

  function CostUpTo(m: CpModel, a: seq<int>, n: nat): int
    requires WellFormed(m) && OneGateEach(m, a) && n <= |a|
  {
    if n == 0 then 0 else CostUpTo(m, a, n - 1) + m.cost[n - 1][a[n - 1]]
  }

  // ---------------------------------------------------------------------------
  // The model as the source posts it: 0/1 variables assigned[i, j]
  // ---------------------------------------------------------------------------

  function Indicator(b: bool): nat { if b then 1 else 0 }

  /** The 0/1 variable assigned[i, j]: whether answer a puts flight i on gate j. */
  function Assigned(a: seq<int>, i: nat, j: int): nat
    requires i < |a|
  {
    Indicator(a[i] == j)
  }

  /** sum(assigned[i, j] for j in range(n)) when flight i is on gate x. */
  function AssignedCount(x: int, n: nat): nat
  {
    if n == 0 then 0 else AssignedCount(x, n - 1) + Indicator(x == n - 1)
  }

  lemma {:induction false} AssignedCountIsOneInRange(x: int, n: nat)
    ensures AssignedCount(x, n) == if 0 <= x < n then 1 else 0
  {
    if n > 0 {
      AssignedCountIsOneInRange(x, n - 1);
    }
  }

  /**
   * The posted constraints: "sum of assigned[i, j] over j == 1" for every flight;
   * "assigned[i, j] + assigned[k, j] <= 1" for every conflicting pair and every gate j;
   * "assigned[i, j] == 0" for every flight and every closed gate j.
   */
  predicate PostedConstraintsHold(m: CpModel, a: seq<int>)
  {
    && |a| == m.flightCount
    && (forall i :: 0 <= i < |a| ==> AssignedCount(a[i], m.gateCount) == 1)
    && (forall p, j :: p in m.conflicts && p.0 < |a| && p.1 < |a| && 0 <= j < m.gateCount ==>
          Assigned(a, p.0, j) + Assigned(a, p.1, j) <= 1)
    && (forall i, j :: 0 <= i < |a| && j in m.closed ==> Assigned(a, i, j) == 0)
  }

  /** The 0/1 formulation the source posts accepts exactly the answers `Satisfies` accepts. */
  lemma PostedIffSatisfies(m: CpModel, a: seq<int>)
    ensures PostedConstraintsHold(m, a) <==> Satisfies(m, a)
  {
    forall i | 0 <= i < |a| {
      AssignedCountIsOneInRange(a[i], m.gateCount);
    }
    if PostedConstraintsHold(m, a) {
      forall p | p in m.conflicts && p.0 < |a| && p.1 < |a|
        ensures a[p.0] != a[p.1]
      {
        assert Assigned(a, p.0, a[p.0]) == 1;
      }
      forall i | 0 <= i < |a|
        ensures a[i] !in m.closed
      {
        assert Assigned(a, i, a[i]) == 1;
      }
    }
  }

  /** sum(cost_row[j] * assigned[i, j] for j in range(n)) when flight i is on gate x. */
  function RowTerm(row: seq<int>, x: int, n: nat): int
    requires n <= |row|
  {
    if n == 0 then 0 else RowTerm(row, x, n - 1) + row[n - 1] * Indicator(x == n - 1)
  }

  lemma {:induction false} RowTermPicks(row: seq<int>, x: int, n: nat)
    requires n <= |row|
    ensures RowTerm(row, x, n) == if 0 <= x < n then row[x] else 0
  {
    if n > 0 {
      RowTermPicks(row, x, n - 1);
    }
  }

  /** The objective exactly as posted: every cost term times its 0/1 variable, summed over flights and gates. */
  function PostedObjective(m: CpModel, a: seq<int>, n: nat): int
    requires WellFormed(m) && n <= |a| == m.flightCount
  {
    if n == 0 then 0 else PostedObjective(m, a, n - 1) + RowTerm(m.cost[n - 1], a[n - 1], m.gateCount)
  }

  /** The posted objective is the total relocation cost of the answer. */
  lemma {:induction false} PostedObjectiveIsCost(m: CpModel, a: seq<int>, n: nat)
    requires WellFormed(m) && OneGateEach(m, a) && n <= |a|
    ensures PostedObjective(m, a, n) == CostUpTo(m, a, n)
  {
    if n > 0 {
      PostedObjectiveIsCost(m, a, n - 1);
      RowTermPicks(m.cost[n - 1], a[n - 1], m.gateCount);
    }
  }

  // ---------------------------------------------------------------------------
  // The solver, seen from outside
  // ---------------------------------------------------------------------------

  datatype SolveStatus = Optimal | Feasible | Infeasible | ModelInvalid | Unknown

  /** What `solver.Solve(model)` reports: a status, the value of each `gate_i`, and the objective. */
  datatype SolverOutcome = SolverOutcome(status: SolveStatus, values: seq<int>, objective: int)

  predicate Solved(out: SolverOutcome) { out.status == Optimal || out.status == Feasible }

  /**
   * The contract of a conforming CP solver for model m: a solution meets every
   * posted constraint and reports its cost; an optimal one costs no more than any
   * other solution; "infeasible" means no solution exists.
   */
  ghost predicate SoundFor(m: CpModel, out: SolverOutcome)
  {
    && (Solved(out) ==> WellFormed(m) && Satisfies(m, out.values) && out.objective == Cost(m, out.values))
    && (out.status == Optimal ==> forall b :: Satisfies(m, b) ==> out.objective <= Cost(m, b))
    && (out.status == Infeasible ==> forall b :: !Satisfies(m, b))
  }
}
