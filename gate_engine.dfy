/**
 * The gate reassignment engine: its state (the committed flight table and the
 * latest assignment), one reassignment for a perturbation event, and the view
 * of the flights with the latest assignment laid over them.
 *
 * The CP solver is a parameter: any function from a model to an outcome. The
 * engine is proved against that parameter as it stands; the theorems that need
 * the solver to keep its promises assume `SoundFor` of the model it was given.
 */
module GateEngine {
  import opened Outcomes
  import opened GateTimes
  import opened GateFlights
  import opened GateModel
  import opened GatePlanning

  /** A perturbation: closed gates, delayed flights, and the `_force_reassign` flag. */
  datatype Event = Event(closedGates: seq<string>, delayedFlights: seq<Delay>, forceReassign: bool)

  datatype Failure =
    | BadDelayTime(time: string)
    | UnknownOriginalGate(gate: string)
    | NotSolved(status: SolveStatus)

  /** The result dictionary: the identity answer of the shortcut, a solved answer, or status "failed". */
  datatype Outcome =
    | Unchanged(assignment: seq<Record>)
    | Reassigned(assignment: seq<Record>, objective: Option<int>)
    | Failed(reason: Failure)

  /** What one reassignment returns, and the table and records it commits, if any. */
  datatype Plan = Plan(outcome: Outcome, commit: Option<Projection>)

  /**
   * The unavailable gates: the requested closures that name known gates; when
   * no closure was requested, the gates the conflict scan lists.
   */
  function Unavailable(event: Event, names: seq<string>, work: seq<Flight>): (u: seq<string>)
    ensures forall g :: g in u ==> g in names
    ensures |event.closedGates| > 0 ==> forall g :: g in u <==> g in event.closedGates && g in names
    ensures |event.closedGates| == 0 ==> forall g :: g in u <==> g in names && |ClashPairs(work, Some(g))| > 0
  {
    if |event.closedGates| > 0 then KnownGates(event.closedGates, names)
    else GatesOf(ConflictTable(work, names))
  }

  /** Nothing to do: no unavailable gate and no delay, or no flight on an unavailable gate and no force. */
  predicate TakesShortcut(event: Event, unavailable: seq<string>, work: seq<Flight>)
    ensures TakesShortcut(event, unavailable, work) ==>
              (forall k :: 0 <= k < |work| ==> work[k].gate !in unavailable) || |event.delayedFlights| == 0
    ensures !TakesShortcut(event, unavailable, work) ==> |unavailable| > 0 || |event.delayedFlights| > 0
    ensures |unavailable| > 0 && event.forceReassign ==> !TakesShortcut(event, unavailable, work)
  {
    || (|unavailable| == 0 && |event.delayedFlights| == 0)
    || (|unavailable| > 0 && |FlightsOn(work, unavailable)| == 0 && !event.forceReassign)
  }

  /** One record per flight that keeps it on its gate. */
  function IdentityRecords(work: seq<Flight>): (rs: seq<Record>)
    ensures |rs| == |work|
    ensures forall k :: 0 <= k < |work| ==>
              && rs[k].flight == work[k].no && rs[k].time == work[k].deptime
              && rs[k].originalGate == work[k].gate && rs[k].newGate == work[k].gate
    ensures !AnyChange(rs)
  {
    seq(|work|, k requires 0 <= k < |work| => Record(work[k].no, work[k].gate, work[k].gate, work[k].deptime))
  }

  /** The reported objective: a zero objective is falsy and reported as None. */
  function ReportedObjective(objective: int): (r: Option<int>)
    ensures r.None? <==> objective == 0
  {
    if objective != 0 then Some(objective) else None
  }

  /**
   * One reassignment of the table `flights`: apply the delays to a working copy,
   * work out the unavailable gates, take the shortcut or build the model, ask the
   * solver, project its answer, and commit only when some gate changed.
   */
  function ReassignSpec(flights: seq<Flight>, names: seq<string>, distance: seq<seq<int>>, event: Event,
                        solve: CpModel -> SolverOutcome): (plan: Plan)
    requires Square(distance, |names|)
    // A commit carries exactly the reported records, and happens iff they move some flight.
    ensures plan.commit.Some? ==> plan.outcome.Reassigned? && plan.outcome.assignment == plan.commit.value.records
                                  && AnyChange(plan.commit.value.records)
    ensures plan.outcome.Reassigned? && AnyChange(plan.outcome.assignment) ==> plan.commit.Some?
    ensures plan.outcome.Unchanged? || plan.outcome.Failed? ==> plan.commit.None?
    ensures plan.outcome.Unchanged? ==> forall k :: 0 <= k < |plan.outcome.assignment| ==>
              plan.outcome.assignment[k].originalGate == plan.outcome.assignment[k].newGate
    ensures plan.outcome.Failed? && plan.outcome.reason.BadDelayTime? ==> ApplyDelays(flights, event.delayedFlights).Err?
  {
    match ApplyDelays(flights, event.delayedFlights)
    case Err(t) => Plan(Failed(BadDelayTime(t)), None)
    case Ok(work) =>
      var unavailable := Unavailable(event, names, work);
      if TakesShortcut(event, unavailable, work) then
        Plan(Unchanged(IdentityRecords(work)), None)
      else
        match ModelOf(work, names, distance, unavailable)
        case Err(g) => Plan(Failed(UnknownOriginalGate(g)), None)
        case Ok(m) =>
          var out := solve(m);
          if !Solved(out) then Plan(Failed(NotSolved(out.status)), None)
          else
            var p := Project(work, out.values, names, unavailable, |work|);
            Plan(Reassigned(p.records, ReportedObjective(out.objective)), if AnyChange(p.records) then Some(p) else None)
  }

  // ---------------------------------------------------------------------------
  // The view of the flights with the latest assignment laid over them
  // ---------------------------------------------------------------------------

  /** A flight as the flight list reports it. */
  datatype FlightView = FlightView(no: string, time: string, deptime: string, gate: string)

  /** The gate a flight is shown on: the new gate of the last record for its number, or its own gate. */
  function OverlayGate(gate: string, no: string, records: seq<Record>): (g: string)
    ensures g == gate || exists k :: 0 <= k < |records| && records[k].flight == no && records[k].newGate == g
  {
    if |records| == 0 then gate
    else if records[|records| - 1].flight == no then records[|records| - 1].newGate
    else OverlayGate(gate, no, records[..|records| - 1])
  }

  function Overlay(fs: seq<Flight>, latest: Option<seq<Record>>): (view: seq<FlightView>)
    ensures |view| == |fs|
    ensures forall k :: 0 <= k < |fs| ==> view[k].no == fs[k].no && view[k].time == fs[k].time && view[k].deptime == fs[k].deptime
    ensures latest.None? ==> forall k :: 0 <= k < |fs| ==> view[k].gate == fs[k].gate
  {
    seq(|fs|, k requires 0 <= k < |fs| =>
      FlightView(fs[k].no, fs[k].time, fs[k].deptime,
                 if latest.Some? then OverlayGate(fs[k].gate, fs[k].no, latest.value) else fs[k].gate))
  }

  /** The record that decides: the last one carrying the flight's number wins; without one the gate stays. */
  lemma {:induction false} OverlayGateLast(gate: string, no: string, records: seq<Record>, k: nat)
    requires k < |records| && records[k].flight == no
    requires forall j :: k < j < |records| ==> records[j].flight != no
    ensures OverlayGate(gate, no, records) == records[k].newGate
  {
    if k < |records| - 1 {
      OverlayGateLast(gate, no, records[..|records| - 1], k);
    }
  }

  lemma {:induction false} OverlayGateNone(gate: string, no: string, records: seq<Record>)
    requires forall j :: 0 <= j < |records| ==> records[j].flight != no
    ensures OverlayGate(gate, no, records) == gate
  {
    if |records| > 0 {
      OverlayGateNone(gate, no, records[..|records| - 1]);
    }
  }

  /** No two rows share a flight number. */
  predicate UniqueNumbers(fs: seq<Flight>)
  {
    forall i, j :: 0 <= i < j < |fs| ==> fs[i].no != fs[j].no
  }

  // ---------------------------------------------------------------------------
  // The steps of a reassignment
  // ---------------------------------------------------------------------------

  method UnavailableGates(event: Event, names: seq<string>, work: seq<Flight>) returns (unavailable: seq<string>)
    ensures unavailable == Unavailable(event, names, work)
  {
    if |event.closedGates| > 0 {
      unavailable := FilterKnownGates(event.closedGates, names);
    } else {
      var table := ScanConflicts(work, names);
      unavailable := [];
      var i := 0;
      while i < |table|
        invariant i <= |table|
        invariant unavailable == GatesOf(table[..i])
      {
        assert table[..i + 1][..i] == table[..i];
        unavailable := unavailable + [table[i].gate];
        i := i + 1;
      }
      assert table[..i] == table;
    }
  }

  method IdentityAssignment(work: seq<Flight>) returns (assignment: seq<Record>)
    ensures assignment == IdentityRecords(work)
  {
    assignment := [];
    var k := 0;
    while k < |work|
      invariant k <= |work| && |assignment| == k
      invariant forall j :: 0 <= j < k ==> assignment[j] == Record(work[j].no, work[j].gate, work[j].gate, work[j].deptime)
    {
      assignment := assignment + [Record(work[k].no, work[k].gate, work[k].gate, work[k].deptime)];
      k := k + 1;
    }
  }

  /** The work of `reassign_gates` on a copy of the table, up to the decision to commit. */
  method ComputePlan(flights: seq<Flight>, names: seq<string>, distance: seq<seq<int>>, event: Event,
                     solve: CpModel -> SolverOutcome) returns (plan: Plan)
    requires Square(distance, |names|)
    ensures plan == ReassignSpec(flights, names, distance, event, solve)
  {
    var delayed := ApplyDelaysTo(flights, event.delayedFlights);
    if delayed.Err? {
      return Plan(Failed(BadDelayTime(delayed.error)), None);
    }
    var work := delayed.value;
    var unavailable := UnavailableGates(event, names, work);
    var toReassign := CollectFlightsOn(work, unavailable);
    if (|unavailable| == 0 && |event.delayedFlights| == 0)
       || (|unavailable| > 0 && |toReassign| == 0 && !event.forceReassign)
    {
      var assignment := IdentityAssignment(work);
      return Plan(Unchanged(assignment), None);
    }
    var model := BuildModel(work, names, distance, unavailable);
    if model.Err? {
      return Plan(Failed(UnknownOriginalGate(model.error)), None);
    }
    var out := solve(model.value);
    if !(out.status == Optimal || out.status == Feasible) {
      return Plan(Failed(NotSolved(out.status)), None);
    }
    var newWork, records, changed := ProjectAnswer(work, out.values, names, unavailable);
    var objective := if out.objective != 0 then Some(out.objective) else None;
    if changed {
      return Plan(Reassigned(records, objective), Some(Projection(newWork, records)));
    }
    return Plan(Reassigned(records, objective), None);
  }

  /** Moving rows to other gates keeps them timed. */
  lemma RegatedTimed(work: seq<Flight>, w: seq<Flight>)
    requires AllTimed(work) && |w| == |work|
    requires forall k :: 0 <= k < |work| ==> w[k] == work[k].(gate := w[k].gate)
    ensures AllTimed(w)
  {
    forall k | 0 <= k < |w|
      ensures Timed(w[k])
    {
      var f := work[k];
      assert Timed(f);
      assert w[k].deptime == f.deptime && w[k].start == f.start && w[k].end == f.end;
    }
  }

  /** What a reassignment commits is the projection of a solver answer onto the delayed table. */
  lemma CommitIsProjection(flights: seq<Flight>, names: seq<string>, distance: seq<seq<int>>, event: Event,
                           solve: CpModel -> SolverOutcome)
    requires Square(distance, |names|)
    requires ReassignSpec(flights, names, distance, event, solve).commit.Some?
    ensures ApplyDelays(flights, event.delayedFlights).Ok?
    ensures var work := ApplyDelays(flights, event.delayedFlights).value;
            var unavailable := Unavailable(event, names, work);
            ModelOf(work, names, distance, unavailable).Ok?
            && ReassignSpec(flights, names, distance, event, solve).commit.value
               == Project(work, solve(ModelOf(work, names, distance, unavailable).value).values, names, unavailable, |work|)
  {
  }

  /**
   * A committed table is timed again and holds the same flights: delays retime
   * whole rows and the projection only moves gates.
   */
  lemma ReassignKeepsTimed(flights: seq<Flight>, names: seq<string>, distance: seq<seq<int>>, event: Event,
                           solve: CpModel -> SolverOutcome)
    requires Square(distance, |names|) && AllTimed(flights)
    requires ReassignSpec(flights, names, distance, event, solve).commit.Some?
    ensures var w := ReassignSpec(flights, names, distance, event, solve).commit.value.work;
            AllTimed(w) && |w| == |flights| && forall k :: 0 <= k < |w| ==> w[k].no == flights[k].no
  {
    CommitIsProjection(flights, names, distance, event, solve);
    ApplyDelaysKeepShape(flights, event.delayedFlights);
    var work := ApplyDelays(flights, event.delayedFlights).value;
    var unavailable := Unavailable(event, names, work);
    var values := solve(ModelOf(work, names, distance, unavailable).value).values;
    ProjectRewritesGatesOnly(work, values, names, unavailable, |work|);
    RegatedTimed(work, Project(work, values, names, unavailable, |work|).work);
  }

  // ---------------------------------------------------------------------------
  // The engine
  // ---------------------------------------------------------------------------

  class Engine {
    /** The gate names, the index of the distance matrix. */
    const gateNames: seq<string>
    /** Integer distances between gates. */
    const distance: seq<seq<int>>
    /** The committed flight table. */
    var flights: seq<Flight>
    /** The assignment of the last reassignment that changed a gate. */
    var latestAssignment: Option<seq<Record>>

    ghost predicate Valid()
      reads this
    {
      Square(distance, |gateNames|) && AllTimed(flights)
    }

    constructor(names: seq<string>, distances: seq<seq<int>>, table: seq<Flight>)
      requires Square(distances, |names|) && AllTimed(table)
      ensures Valid()
      ensures gateNames == names && distance == distances && flights == table && latestAssignment == None
    {
      gateNames := names;
      distance := distances;
      flights := table;
      latestAssignment := None;
    }

    /** `reassign_gates`: the outcome of ReassignSpec, and its commit applied to the state. */
    method Reassign(event: Event, solve: CpModel -> SolverOutcome) returns (outcome: Outcome)
      requires Valid()
      modifies this
      ensures Valid()
      ensures var plan := ReassignSpec(old(flights), gateNames, distance, event, solve);
              && outcome == plan.outcome
              && (plan.commit.Some? ==> flights == plan.commit.value.work && latestAssignment == Some(plan.commit.value.records))
              && (plan.commit.None? ==> flights == old(flights) && latestAssignment == old(latestAssignment))
    {
      var plan := ComputePlan(flights, gateNames, distance, event, solve);
      if plan.commit.Some? {
        ReassignKeepsTimed(flights, gateNames, distance, event, solve);
        flights := plan.commit.value.work;
        latestAssignment := Some(plan.commit.value.records);
      }
      outcome := plan.outcome;
    }

    /** The flight list with the latest assignment laid over it (`get_current_flights`). */
    method CurrentFlights() returns (view: seq<FlightView>)
      ensures view == Overlay(flights, latestAssignment)
    {
      view := [];
      var i := 0;
      while i < |flights|
        invariant i <= |flights| && |view| == i
        invariant forall k :: 0 <= k < i ==> view[k] == Overlay(flights, latestAssignment)[k]
      {
        var f := flights[i];
        var gate := f.gate;
        if latestAssignment.Some? {
          var records := latestAssignment.value;
          var j := 0;
          while j < |records|
            invariant j <= |records|
            invariant gate == OverlayGate(f.gate, f.no, records[..j])
          {
            assert records[..j + 1][..j] == records[..j];
            if records[j].flight == f.no {
              gate := records[j].newGate;
            }
            j := j + 1;
          }
          assert records[..j] == records;
        }
        view := view + [FlightView(f.no, f.time, f.deptime, gate)];
        i := i + 1;
      }
    }
  }
}
