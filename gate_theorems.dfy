/**
 * What one reassignment guarantees, stated over `ReassignSpec`: quiet events
 * keep every gate, a sound solver answer comes back unrepaired with one record
 * per flight, an optimal one moves flights the least total distance, an
 * infeasible verdict means no admissible assignment exists, and the flight list
 * shown after a commit agrees with the committed table.
 */
module GateTheorems {
  import opened Outcomes
  import opened GateTimes
  import opened GateFlights
  import opened GateModel
  import opened GatePlanning
  import opened GateEngine

  /** No two rows on the same gate clash. */
  predicate ClashFree(fs: seq<Flight>)
  {
    forall i, k :: 0 <= i < k < |fs| && fs[i].gate == fs[k].gate ==> !Clash(fs[i], fs[k])
  }

  lemma {:induction false} RowPairsEmpty(fs: seq<Flight>, g: string, i: nat, j: nat)
    requires ClashFree(fs) && i < |fs| && j <= |fs|
    ensures RowPairs(fs, Some(g), i, j) == []
  {
    if j > i + 1 {
      RowPairsEmpty(fs, g, i, j - 1);
    }
  }

  lemma {:induction false} PairsBeforeEmpty(fs: seq<Flight>, g: string, i: nat)
    requires ClashFree(fs) && i <= |fs|
    ensures PairsBefore(fs, Some(g), i) == []
  {
    if i > 0 {
      PairsBeforeEmpty(fs, g, i - 1);
      RowPairsEmpty(fs, g, i - 1, |fs|);
    }
  }

  /** A table without clashes on any gate makes the conflict scan list nothing. */
  lemma {:induction false} ConflictTableEmpty(fs: seq<Flight>, names: seq<string>)
    requires ClashFree(fs)
    ensures ConflictTable(fs, names) == []
  {
    if |names| > 0 {
      ConflictTableEmpty(fs, names[..|names| - 1]);
      PairsBeforeEmpty(fs, names[|names| - 1], |fs|);
    }
  }

  /**
   * An event with no closure and no delay, on a table without clashes, returns
   * every flight on its own gate and commits nothing.
   */
  lemma QuietEventKeepsGates(flights: seq<Flight>, names: seq<string>, distance: seq<seq<int>>, force: bool,
                             solve: CpModel -> SolverOutcome)
    requires Square(distance, |names|) && ClashFree(flights)
    ensures ReassignSpec(flights, names, distance, Event([], [], force), solve) == Plan(Unchanged(IdentityRecords(flights)), None)
  {
    ConflictTableEmpty(flights, names);
  }

  /**
   * Closures that no flight sits on, without delays and without force, return
   * every flight on its own gate and commit nothing, whether or not the closed
   * names are known gates.
   */
  lemma IdleClosuresKeepGates(flights: seq<Flight>, names: seq<string>, distance: seq<seq<int>>, closed: seq<string>,
                              solve: CpModel -> SolverOutcome)
    requires Square(distance, |names|) && |closed| > 0
    requires forall k :: 0 <= k < |flights| ==> flights[k].gate !in closed
    ensures ReassignSpec(flights, names, distance, Event(closed, [], false), solve) == Plan(Unchanged(IdentityRecords(flights)), None)
  {
    var u := KnownGates(closed, names);
    assert forall k :: 0 <= k < |flights| ==> flights[k].gate !in u;
  }

  /** The reassignment reaches the solver, and the model it posts is m. */
  predicate ReachesSolver(flights: seq<Flight>, names: seq<string>, distance: seq<seq<int>>, event: Event, work: seq<Flight>, m: CpModel)
    requires Square(distance, |names|)
  {
    && ApplyDelays(flights, event.delayedFlights) == Ok(work)
    && !TakesShortcut(event, Unavailable(event, names, work), work)
    && ModelOf(work, names, distance, Unavailable(event, names, work)) == Ok(m)
  }

  /**
   * A solved answer from a solver that keeps its contract needs no repair: every
   * flight gets exactly one record, in table order, with the gate the solver chose;
   * that gate is not unavailable; two flights whose windows clash never end up on
   * the same gate; the state is committed exactly when some gate changed.
   */
  lemma ReassignSound(flights: seq<Flight>, names: seq<string>, distance: seq<seq<int>>, event: Event,
                      solve: CpModel -> SolverOutcome, work: seq<Flight>, m: CpModel)
    requires Square(distance, |names|) && Distinct(names)
    requires ReachesSolver(flights, names, distance, event, work, m)
    requires Solved(solve(m)) && SoundFor(m, solve(m))
    ensures var plan := ReassignSpec(flights, names, distance, event, solve);
            var out := solve(m);
            var u := Unavailable(event, names, work);
            && plan.outcome.Reassigned?
            && plan.outcome.objective == ReportedObjective(out.objective)
            && |plan.outcome.assignment| == |work|
            && (forall k :: 0 <= k < |work| ==>
                  && plan.outcome.assignment[k] == Record(work[k].no, work[k].gate, names[out.values[k]], work[k].deptime)
                  && plan.outcome.assignment[k].newGate !in u)
            && (forall i, k :: 0 <= i < k < |work| && Clash(work[i], work[k]) ==>
                  plan.outcome.assignment[i].newGate != plan.outcome.assignment[k].newGate)
            && (plan.commit.Some? <==> AnyChange(plan.outcome.assignment))
  {
    var out := solve(m);
    var u := Unavailable(event, names, work);
    SolvedPlan(flights, names, distance, event, solve, work, m);
    ModelOfMeaning(work, names, distance, u, out.values);
    ProjectFaithful(work, out.values, names, u, |work|);
    var recs := Project(work, out.values, names, u, |work|).records;
    forall i, k | 0 <= i < k < |work| && Clash(work[i], work[k])
      ensures recs[i].newGate != recs[k].newGate
    {
      assert recs[i] == Placed(work, out.values, names, i) && recs[k] == Placed(work, out.values, names, k);
      assert out.values[i] != out.values[k];
    }
  }

  /**
   * An optimal answer from a solver that keeps its contract moves the flights the
   * least total distance: no admissible assignment relocates them less.
   */
  lemma ReassignOptimal(flights: seq<Flight>, names: seq<string>, distance: seq<seq<int>>, event: Event,
                        solve: CpModel -> SolverOutcome, work: seq<Flight>, m: CpModel, a: seq<int>)
    requires Square(distance, |names|) && Distinct(names)
    requires ReachesSolver(flights, names, distance, event, work, m)
    requires solve(m).status == Optimal && SoundFor(m, solve(m))
    requires Admissible(work, names, Unavailable(event, names, work), a)
    ensures Admissible(work, names, Unavailable(event, names, work), solve(m).values)
    ensures Relocation(work, names, distance, solve(m).values, |work|) <= Relocation(work, names, distance, a, |work|)
  {
    var out := solve(m);
    var u := Unavailable(event, names, work);
    ModelOfMeaning(work, names, distance, u, out.values);
    ModelOfMeaning(work, names, distance, u, a);
    CostIsRelocation(work, names, distance, u, out.values, |work|);
    CostIsRelocation(work, names, distance, u, a, |work|);
  }

  /**
   * An "infeasible" verdict from a solver that keeps its contract fails the
   * reassignment, commits nothing, and means no admissible assignment exists.
   */
  lemma ReassignInfeasible(flights: seq<Flight>, names: seq<string>, distance: seq<seq<int>>, event: Event,
                           solve: CpModel -> SolverOutcome, work: seq<Flight>, m: CpModel, a: seq<int>)
    requires Square(distance, |names|) && Distinct(names)
    requires ReachesSolver(flights, names, distance, event, work, m)
    requires solve(m).status == Infeasible && SoundFor(m, solve(m))
    ensures ReassignSpec(flights, names, distance, event, solve) == Plan(Failed(NotSolved(Infeasible)), None)
    ensures !Admissible(work, names, Unavailable(event, names, work), a)
  {
    ModelOfMeaning(work, names, distance, Unavailable(event, names, work), a);
  }

  /** Past the shortcut and the model, a solved answer is projected, and committed when some gate changed. */
  lemma SolvedPlan(flights: seq<Flight>, names: seq<string>, distance: seq<seq<int>>, event: Event,
                   solve: CpModel -> SolverOutcome, work: seq<Flight>, m: CpModel)
    requires Square(distance, |names|)
    requires ReachesSolver(flights, names, distance, event, work, m) && Solved(solve(m))
    ensures var p := Project(work, solve(m).values, names, Unavailable(event, names, work), |work|);
            ReassignSpec(flights, names, distance, event, solve)
              == Plan(Reassigned(p.records, ReportedObjective(solve(m).objective)), if AnyChange(p.records) then Some(p) else None)
  {
  }

  /**
   * After a commit of a sound answer, on a table whose flight numbers are unique,
   * the flight list shows every flight on the gate the committed table holds.
   */
  lemma OverlayAfterCommit(flights: seq<Flight>, names: seq<string>, distance: seq<seq<int>>, event: Event,
                           solve: CpModel -> SolverOutcome, work: seq<Flight>, m: CpModel)
    requires Square(distance, |names|) && Distinct(names) && UniqueNumbers(flights)
    requires ReachesSolver(flights, names, distance, event, work, m)
    requires Solved(solve(m)) && SoundFor(m, solve(m))
    requires ReassignSpec(flights, names, distance, event, solve).commit.Some?
    ensures var c := ReassignSpec(flights, names, distance, event, solve).commit.value;
            forall k :: 0 <= k < |c.work| ==> Overlay(c.work, Some(c.records))[k].gate == c.work[k].gate
  {
    var out := solve(m);
    var u := Unavailable(event, names, work);
    SolvedPlan(flights, names, distance, event, solve, work, m);
    ModelOfMeaning(work, names, distance, u, out.values);
    ApplyDelaysKeepUnique(flights, event.delayedFlights, work);
    ProjectOverlay(work, out.values, names, u);
  }

  /** On unique flight numbers, the projection's records laid over its table show the table's gates. */
  lemma ProjectOverlay(work: seq<Flight>, values: seq<int>, names: seq<string>, u: seq<string>)
    requires UniqueNumbers(work) && |values| == |work|
    requires forall i :: 0 <= i < |values| ==> 0 <= values[i] < |names| && names[values[i]] !in u
    ensures var c := Project(work, values, names, u, |work|);
            forall k :: 0 <= k < |c.work| ==> Overlay(c.work, Some(c.records))[k].gate == c.work[k].gate
  {
    ProjectFaithful(work, values, names, u, |work|);
    var c := Project(work, values, names, u, |work|);
    forall k | 0 <= k < |c.work|
      ensures Overlay(c.work, Some(c.records))[k].gate == c.work[k].gate
    {
      forall j | k < j < |c.records|
        ensures c.records[j].flight != c.work[k].no
      {
        assert c.records[j].flight == work[j].no;
      }
      OverlayGateLast(c.work[k].gate, c.work[k].no, c.records, k);
    }
  }

  /** Delays keep the rows' numbers, so unique numbers stay unique. */
  lemma {:induction false} ApplyDelaysKeepUnique(flights: seq<Flight>, ds: seq<Delay>, work: seq<Flight>)
    requires ApplyDelays(flights, ds) == Ok(work) && UniqueNumbers(flights)
    ensures UniqueNumbers(work)
  {
    if |ds| > 0 {
      var prefix := ApplyDelays(flights, ds[..|ds| - 1]).value;
      ApplyDelaysKeepUnique(flights, ds[..|ds| - 1], prefix);
      ApplyDelayKeepsNumbers(prefix, ds[|ds| - 1], work);
    }
  }

  lemma ApplyDelayKeepsNumbers(fs: seq<Flight>, d: Delay, w: seq<Flight>)
    requires ApplyDelay(fs, d) == Ok(w)
    ensures |w| == |fs| && forall k :: 0 <= k < |fs| ==> w[k].no == fs[k].no
  {
  }
}
