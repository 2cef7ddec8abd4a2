/**
 * The reassignment request handler: it rejects an empty body and malformed
 * delay entries before anything runs, answers a request that names nothing to
 * do, answers closures that host no flight without calling the engine, and
 * otherwise calls the engine with the force flag set.
 */
module ReassignApi {
  import opened Outcomes
  import opened Strings
  import opened GateTimes
  import opened GateFlights
  import opened GateModel
  import opened GatePlanning
  import opened GateEngine

  /** One delayed-flight entry of the request; a missing key is None. */
  datatype DelayEntry = DelayEntry(no: Option<string>, newTime: Option<string>)

  /** The JSON body: the two keys the handler reads (None when absent) and the number of other keys. */
  datatype Body = Body(closedGates: Option<seq<string>>, delayedFlights: Option<seq<DelayEntry>>, otherKeys: nat)

  datatype Rejection =
    | EmptyBody
    | MissingField(entry: nat)
    | BadTime(time: string)

  /** The handler's answers. */
  datatype Reply =
    | Rejected(reason: Rejection)
    | NothingRequested
    | ClosedGatesIdle
    | EngineResult(outcome: Outcome)

  /** Rejections and the "nothing requested" warning go out with 400; the rest with 200, engine failures included. */
  function HttpStatus(r: Reply): (code: nat)
    ensures code == 400 <==> r.Rejected? || r.NothingRequested?
  {
    match r
    case Rejected(_) => 400
    case NothingRequested => 400
    case _ => 200
  }

  /** `not request_data`: no body, or a JSON object without keys. */
  predicate EmptyRequest(body: Option<Body>)
  {
    body.None? || (body.value.closedGates.None? && body.value.delayedFlights.None? && body.value.otherKeys == 0)
  }

  // ---------------------------------------------------------------------------
  // Validating a new time
  // ---------------------------------------------------------------------------

  /** A new time the handler accepts: two integers, an hour 0..23 and a minute 0..59. */
  predicate ValidClock(t: string)
  {
    ClockValue(t).Some? && 0 <= ClockValue(t).value.0 <= 23 && 0 <= ClockValue(t).value.1 <= 59
  }

  /** A time the handler accepts is one the engine reads, as a minute of the day. */
  lemma ValidClockMinutes(t: string)
    requires ValidClock(t)
    ensures TimeToMinutes(t) == Some(ClockValue(t).value.0 * 60 + ClockValue(t).value.1)
    ensures 0 <= TimeToMinutes(t).value < 24 * 60
  {
  }

  /** Every zero-padded "HH:MM" of the day is accepted, with its hour and minute. */
  lemma {:induction false} ValidClockOfClock(h: nat, m: nat)
    requires h <= 23 && m <= 59
    ensures ClockValue(Pad2(h) + ":" + Pad2(m)) == Some((h, m))
    ensures ValidClock(Pad2(h) + ":" + Pad2(m))
  {
    var parts := [Pad2(h), Pad2(m)];
    assert ':' !in Pad2(h) && ':' !in Pad2(m);
    SplitJoin(parts, ':');
    assert parts[1..] == [Pad2(m)];
    assert Join(parts, ':') == Pad2(h) + ":" + Pad2(m);
    assert ParseInt(Pad2(h)) == Some(h) by { assert IsDigit(Pad2(h)[0]); }
    assert ParseInt(Pad2(m)) == Some(m) by { assert IsDigit(Pad2(m)[0]); }
  }

  // ---------------------------------------------------------------------------
  // Validating the delayed-flight entries: all of them, before anything runs
  // ---------------------------------------------------------------------------

  /** What is wrong with entry number i, if anything. */
  function EntryProblem(e: DelayEntry, i: nat): (r: Option<Rejection>)
    ensures r.None? <==> e.no.Some? && e.newTime.Some? && ValidClock(e.newTime.value)
  {
    if e.no.None? || e.newTime.None? then Some(MissingField(i))
    else if !ValidClock(e.newTime.value) then Some(BadTime(e.newTime.value))
    else None
  }

  /** The problem of the first bad entry, in request order. */
  function Validation(entries: seq<DelayEntry>): (r: Option<Rejection>)
    ensures r.None? <==> forall k :: 0 <= k < |entries| ==> EntryProblem(entries[k], k).None?
  {
    if |entries| == 0 then None
    else
      var init := entries[..|entries| - 1];
      assert forall k :: 0 <= k < |init| ==> init[k] == entries[k];
      match Validation(init)
      case Some(r) => Some(r)
      case None => EntryProblem(entries[|entries| - 1], |entries| - 1)
  }

  /** The rejection names the first bad entry: every entry before it is well formed. */
  lemma {:induction false} ValidationFirst(entries: seq<DelayEntry>, k: nat)
    requires k < |entries| && EntryProblem(entries[k], k).Some?
    requires forall j :: 0 <= j < k ==> EntryProblem(entries[j], j).None?
    ensures Validation(entries) == EntryProblem(entries[k], k)
  {
    if k < |entries| - 1 {
      var init := entries[..|entries| - 1];
      assert forall j :: 0 <= j < |init| ==> init[j] == entries[j];
      ValidationFirst(init, k);
    }
  }

  method ValidateDelays(entries: seq<DelayEntry>) returns (r: Option<Rejection>)
    ensures r == Validation(entries)
  {
    var i := 0;
    while i < |entries|
      invariant i <= |entries|
      invariant forall j :: 0 <= j < i ==> EntryProblem(entries[j], j).None?
    {
      var e := entries[i];
      if e.no.None? || e.newTime.None? {
        ValidationFirst(entries, i);
        return Some(MissingField(i));
      }
      if !ValidClock(e.newTime.value) {
        ValidationFirst(entries, i);
        return Some(BadTime(e.newTime.value));
      }
      i := i + 1;
    }
    return None;
  }

  /** The delays handed to the engine: the entries once every one has both fields. */
  function ToDelays(entries: seq<DelayEntry>): (ds: seq<Delay>)
    requires forall k :: 0 <= k < |entries| ==> entries[k].no.Some? && entries[k].newTime.Some?
    ensures |ds| == |entries|
    ensures forall k :: 0 <= k < |entries| ==> ds[k] == Delay(entries[k].no.value, entries[k].newTime.value)
  {
    seq(|entries|, k requires 0 <= k < |entries| => Delay(entries[k].no.value, entries[k].newTime.value))
  }

  /** Delays whose new times the handler accepted never fail the engine's delay step. */
  lemma {:induction false} ValidatedDelaysApply(fs: seq<Flight>, ds: seq<Delay>)
    requires forall k :: 0 <= k < |ds| ==> ValidClock(ds[k].newTime)
    ensures ApplyDelays(fs, ds).Ok?
  {
    if |ds| > 0 {
      ValidatedDelaysApply(fs, ds[..|ds| - 1]);
      ValidClockMinutes(ds[|ds| - 1].newTime);
    }
  }

  // ---------------------------------------------------------------------------
  // The decision
  // ---------------------------------------------------------------------------

  /** Either an answer the handler gives itself, or the event it hands to the engine. */
  datatype Decision = Answer(reply: Reply) | CallEngine(event: Event)

  function ClosedOf(body: Body): seq<string>
  {
    if body.closedGates.Some? then body.closedGates.value else []
  }

  function EntriesOf(body: Body): seq<DelayEntry>
  {
    if body.delayedFlights.Some? then body.delayedFlights.value else []
  }

  /** `gates_with_flights` is empty: no shown flight sits on a closed gate. */
  predicate ClosedGatesUnused(view: seq<FlightView>, closed: seq<string>)
  {
    forall k :: 0 <= k < |view| ==> view[k].gate !in closed
  }

  /**
   * The handler's decision for a body, given the flight list it would show:
   * an empty body, then the first bad delay entry, then a request with nothing
   * in it, then closures only that host no flight, are answered directly;
   * everything else goes to the engine with `_force_reassign` set.
   */
  function Decide(body: Option<Body>, view: seq<FlightView>): (d: Decision)
    ensures EmptyRequest(body) ==> d == Answer(Rejected(EmptyBody))
    ensures d.Answer? ==> !d.reply.EngineResult?
    ensures d.Answer? && d.reply.Rejected? && !EmptyRequest(body) ==>
              Validation(EntriesOf(body.value)) == Some(d.reply.reason)
    ensures d.Answer? && (d.reply.NothingRequested? || d.reply.ClosedGatesIdle?) ==>
              Validation(EntriesOf(body.value)).None? && |EntriesOf(body.value)| == 0
    ensures d.Answer? && d.reply.NothingRequested? ==> |ClosedOf(body.value)| == 0
    ensures d.Answer? && d.reply.ClosedGatesIdle? ==>
              |ClosedOf(body.value)| > 0 && ClosedGatesUnused(view, ClosedOf(body.value))
    ensures d.CallEngine? ==>
              && !EmptyRequest(body) && Validation(EntriesOf(body.value)).None?
              && d.event == Event(ClosedOf(body.value), ToDelays(EntriesOf(body.value)), true)
              && (|EntriesOf(body.value)| > 0 || !ClosedGatesUnused(view, ClosedOf(body.value)))
  {
    if EmptyRequest(body) then Answer(Rejected(EmptyBody))
    else
      var closed := ClosedOf(body.value);
      var entries := EntriesOf(body.value);
      match Validation(entries)
      case Some(problem) => Answer(Rejected(problem))
      case None =>
        if |closed| == 0 && |entries| == 0 then Answer(NothingRequested)
        else if |closed| > 0 && |entries| == 0 && ClosedGatesUnused(view, closed) then Answer(ClosedGatesIdle)
        else CallEngine(Event(closed, ToDelays(entries), true))
  }

  /**
   * All or nothing: a body with one bad delay entry is rejected, whatever else it
   * holds, and the engine is not called.
   */
  lemma OneBadEntryRejects(body: Option<Body>, view: seq<FlightView>, k: nat)
    requires body.Some? && k < |EntriesOf(body.value)| && EntryProblem(EntriesOf(body.value)[k], k).Some?
    ensures Decide(body, view).Answer? && Decide(body, view).reply.Rejected?
  {
  }

  /**
   * The engine is only ever called with well-formed new times and the force flag,
   * so its delay step cannot fail and its shortcut is taken only for an event
   * that leaves no unavailable gate and has no delay.
   */
  lemma EngineCallsAreValid(body: Option<Body>, view: seq<FlightView>, fs: seq<Flight>, unavailable: seq<string>)
    requires Decide(body, view).CallEngine?
    ensures var e := Decide(body, view).event;
            && e.forceReassign
            && (|e.closedGates| > 0 || |e.delayedFlights| > 0)
            && (forall k :: 0 <= k < |e.delayedFlights| ==> 0 <= TimeToMinutes(e.delayedFlights[k].newTime).value < 24 * 60)
            && ApplyDelays(fs, e.delayedFlights).Ok?
            && (TakesShortcut(e, unavailable, fs) <==> |unavailable| == 0 && |e.delayedFlights| == 0)
  {
    var e := Decide(body, view).event;
    var entries := EntriesOf(body.value);
    forall k | 0 <= k < |e.delayedFlights|
      ensures ValidClock(e.delayedFlights[k].newTime)
      ensures 0 <= TimeToMinutes(e.delayedFlights[k].newTime).value < 24 * 60
    {
      assert EntryProblem(entries[k], k).None?;
      ValidClockMinutes(e.delayedFlights[k].newTime);
    }
    ValidatedDelaysApply(fs, e.delayedFlights);
  }

  /** The changes the handler reports: the records that move their flight. */
  function Changes(records: seq<Record>): (cs: seq<Record>)
    ensures forall r :: r in cs <==> r in records && r.originalGate != r.newGate
  {
    if |records| == 0 then []
    else
      var init := records[..|records| - 1];
      var last := records[|records| - 1];
      assert records == init + [last];
      Changes(init) + (if last.originalGate != last.newGate then [last] else [])
  }

  /** The engine commits exactly when the handler has changes to report. */
  lemma ChangesIffCommit(records: seq<Record>)
    ensures AnyChange(records) <==> |Changes(records)| > 0
  {
    if AnyChange(records) {
      var k :| 0 <= k < |records| && records[k].originalGate != records[k].newGate;
      assert records[k] in Changes(records);
    }
  }

  // ---------------------------------------------------------------------------
  // The handler
  // ---------------------------------------------------------------------------

  /** `gates_with_flights`: the closed gates some current flight sits on. */
  method GatesWithFlights(view: seq<FlightView>, closed: seq<string>) returns (gates: set<string>)
    ensures forall g :: g in gates <==> g in closed && exists j :: 0 <= j < |view| && view[j].gate == g
    ensures gates == {} <==> ClosedGatesUnused(view, closed)
  {
    gates := {};
    var k := 0;
    while k < |view|
      invariant k <= |view|
      invariant forall g :: g in gates <==> g in closed && exists j :: 0 <= j < k && view[j].gate == g
    {
      if view[k].gate in closed {
        gates := gates + {view[k].gate};
      }
      k := k + 1;
    }
    if gates == {} {
      forall j | 0 <= j < |view|
        ensures view[j].gate !in closed
      {
        assert view[j].gate !in gates;
      }
    } else {
      var g :| g in gates;
      var j :| 0 <= j < |view| && view[j].gate == g;
      assert view[j].gate in closed;
    }
  }

  /** The validated entries as the engine's delays, in request order. */
  method DelaysOf(entries: seq<DelayEntry>) returns (delays: seq<Delay>)
    requires forall k :: 0 <= k < |entries| ==> entries[k].no.Some? && entries[k].newTime.Some?
    ensures delays == ToDelays(entries)
  {
    delays := [];
    var i := 0;
    while i < |entries|
      invariant i <= |entries| && |delays| == i
      invariant forall j :: 0 <= j < i ==> delays[j] == Delay(entries[j].no.value, entries[j].newTime.value)
    {
      delays := delays + [Delay(entries[i].no.value, entries[i].newTime.value)];
      i := i + 1;
    }
  }

  /** `reassign()`: the decision, and the engine's reassignment when the decision calls it. */
  method HandleReassign(engine: Engine, body: Option<Body>, solve: CpModel -> SolverOutcome) returns (reply: Reply)
    requires engine.Valid()
    modifies engine
    ensures engine.Valid()
    ensures var d := Decide(body, Overlay(old(engine.flights), old(engine.latestAssignment)));
            && (d.Answer? ==> reply == d.reply && engine.flights == old(engine.flights)
                              && engine.latestAssignment == old(engine.latestAssignment))
            && (d.CallEngine? ==>
                  var plan := ReassignSpec(old(engine.flights), engine.gateNames, engine.distance, d.event, solve);
                  && reply == EngineResult(plan.outcome)
                  && (plan.commit.Some? ==> engine.flights == plan.commit.value.work
                                            && engine.latestAssignment == Some(plan.commit.value.records))
                  && (plan.commit.None? ==> engine.flights == old(engine.flights)
                                            && engine.latestAssignment == old(engine.latestAssignment)))
  {
    if EmptyRequest(body) {
      return Rejected(EmptyBody);
    }
    var closed := ClosedOf(body.value);
    var entries := EntriesOf(body.value);
    var problem := ValidateDelays(entries);
    if problem.Some? {
      return Rejected(problem.value);
    }
    if |closed| == 0 && |entries| == 0 {
      return NothingRequested;
    }
    if |closed| > 0 && |entries| == 0 {
      var view := engine.CurrentFlights();
      var gatesWithFlights := GatesWithFlights(view, closed);
      if gatesWithFlights == {} {
        return ClosedGatesIdle;
      }
    }
    var delays := DelaysOf(entries);
    var outcome := engine.Reassign(Event(closed, delays, true), solve);
    return EngineResult(outcome);
  }
}
