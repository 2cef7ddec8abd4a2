/**
 * The flight table of the gate reassignment engine and the first steps of a
 * reassignment on a working copy of it: deriving the departure columns of a
 * row, keeping the requested closures that name known gates, applying delays,
 * scanning every gate for flights whose windows clash, and collecting the
 * flights that sit on unavailable gates.
 */
module GateFlights {
  import opened Outcomes
  import opened Strings
  import opened GateTimes

  /** One row of the flight table: number, scheduled time, status text, gate, departure time and occupation window. */
  datatype Flight = Flight(no: string, time: string, status: string, gate: string, deptime: string, start: int, end: int)

  /** A row as the flight file holds it, before the derived columns are added. */
  datatype FlightRow = FlightRow(no: string, time: string, status: string, gate: string)

  /** A row whose window is the occupation window of its departure time. */
  predicate Timed(f: Flight)
  {
    TimeToMinutes(f.deptime).Some? && Window(f.start, f.end) == OccupationWindow(TimeToMinutes(f.deptime).value)
  }

  predicate AllTimed(fs: seq<Flight>)
  {
    forall k :: 0 <= k < |fs| ==> Timed(fs[k])
  }

  // ---------------------------------------------------------------------------
  // Loading: the derived columns deptime, start and end
  // ---------------------------------------------------------------------------

  /** The derived columns of one row; None when its departure time does not parse. */
  function LoadFlight(row: FlightRow): (r: Option<Flight>)
    ensures r.Some? ==> r.value.end - r.value.start == 60
    ensures r.Some? ==> r.value.no == row.no && r.value.gate == row.gate && r.value.status == row.status
  {
    var dep := ExtractDepartureTime(row.status);
    match TimeToMinutes(dep)
    case None => None
    case Some(d) =>
      var w := OccupationWindow(d);
      Some(Flight(row.no, row.time, row.status, row.gate, dep, w.start, w.end))
  }

  /** Every value of the list, or None as soon as one is missing. */
  function AllPresent<T>(opts: seq<Option<T>>): (r: Option<seq<T>>)
    ensures r.Some? <==> forall k :: 0 <= k < |opts| ==> opts[k].Some?
    ensures r.Some? ==> |r.value| == |opts| && forall k :: 0 <= k < |opts| ==> r.value[k] == opts[k].value
  {
    if |opts| == 0 then Some([])
    else
      var init := AllPresent(opts[..|opts| - 1]);
      assert forall k :: 0 <= k < |opts| - 1 ==> opts[..|opts| - 1][k] == opts[k];
      if init.None? || opts[|opts| - 1].None? then None
      else Some(init.value + [opts[|opts| - 1].value])
  }

  /** The whole table: the column is computed at once, so one bad row fails the load. */
  function LoadFlights(rows: seq<FlightRow>): (r: Option<seq<Flight>>)
    ensures r.Some? <==> forall k :: 0 <= k < |rows| ==> LoadFlight(rows[k]).Some?
    ensures r.Some? ==> |r.value| == |rows|
    ensures r.Some? ==> forall k :: 0 <= k < |rows| ==> r.value[k] == LoadFlight(rows[k]).value
  {
    var opts := seq(|rows|, k requires 0 <= k < |rows| => LoadFlight(rows[k]));
    assert forall k :: 0 <= k < |rows| ==> opts[k] == LoadFlight(rows[k]);
    AllPresent(opts)
  }

  lemma LoadFlightTimed(row: FlightRow)
    requires LoadFlight(row).Some?
    ensures Timed(LoadFlight(row).value)
  {
  }

  /** Every row of a loaded table is timed. */
  lemma LoadFlightsTimed(rows: seq<FlightRow>)
    requires LoadFlights(rows).Some?
    ensures AllTimed(LoadFlights(rows).value)
  {
    var fs := LoadFlights(rows).value;
    forall k | 0 <= k < |fs|
      ensures Timed(fs[k])
    {
      assert fs[k] == LoadFlight(rows[k]).value;
      LoadFlightTimed(rows[k]);
    }
  }

  /** A status "Dep HH:MM ..." loads with the window from HH:MM - 30 to HH:MM + 30. */
  lemma {:induction false} LoadFlightOfClock(no: string, time: string, gate: string, word: string, h: nat, m: nat, more: seq<string>)
    requires h < 100 && m < 100
    requires ' ' !in word && forall k :: 0 <= k < |more| ==> ' ' !in more[k]
    ensures var status := Join([word, Pad2(h) + ":" + Pad2(m)] + more, ' ');
            var r := LoadFlight(FlightRow(no, time, status, gate));
            r.Some? && r.value.deptime == Pad2(h) + ":" + Pad2(m)
            && r.value.start == h * 60 + m - 30 && r.value.end == h * 60 + m + 30
  {
    var clock := Pad2(h) + ":" + Pad2(m);
    assert ' ' !in clock by {
      assert forall k :: 0 <= k < |clock| ==> IsDigit(clock[k]) || clock[k] == ':';
    }
    ExtractDepartureTimeOf(word, clock, more);
    TimeToMinutesOfClock(h, m);
  }

  // ---------------------------------------------------------------------------
  // Closed gates: only the names in the gate list are kept
  // ---------------------------------------------------------------------------

  /** The requested closures that name a known gate, in request order. */
  function KnownGates(requested: seq<string>, names: seq<string>): (valid: seq<string>)
    ensures forall g :: g in valid <==> g in requested && g in names
    ensures |valid| <= |requested|
  {
    if |requested| == 0 then []
    else
      var valid := KnownGates(requested[..|requested| - 1], names);
      var g := requested[|requested| - 1];
      assert requested == requested[..|requested| - 1] + [g];
      if g in names then valid + [g] else valid
  }

  method FilterKnownGates(requested: seq<string>, names: seq<string>) returns (valid: seq<string>)
    ensures valid == KnownGates(requested, names)
  {
    valid := [];
    var i := 0;
    while i < |requested|
      invariant i <= |requested|
      invariant valid == KnownGates(requested[..i], names)
    {
      assert requested[..i + 1][..i] == requested[..i];
      if requested[i] in names {
        valid := valid + [requested[i]];
      }
      i := i + 1;
    }
    assert requested[..i] == requested;
  }

  // ---------------------------------------------------------------------------
  // Delays
  // ---------------------------------------------------------------------------

  /** A delayed-flight entry: a flight number and its new departure time. */
  datatype Delay = Delay(no: string, newTime: string)

  /** The first row carrying flight number no: the row whose deptime is the "old" time. */
  function FirstWithNo(fs: seq<Flight>, no: string): (r: Option<nat>)
    ensures r.Some? ==> r.value < |fs| && fs[r.value].no == no && forall k :: 0 <= k < r.value ==> fs[k].no != no
    ensures r.None? <==> forall k :: 0 <= k < |fs| ==> fs[k].no != no
  {
    if |fs| == 0 then None
    else if fs[0].no == no then Some(0)
    else
      match FirstWithNo(fs[1..], no)
      case None => None
      case Some(i) => Some(i + 1)
  }

  /** One row after its flight was delayed to newTime, whose minutes are `minutes`. */
  function Retime(f: Flight, oldDep: string, newTime: string, minutes: int): (r: Flight)
    ensures r.no == f.no && r.gate == f.gate
    ensures r.deptime == newTime && r.time == newTime
    ensures TimeToMinutes(newTime) == Some(minutes) ==> Timed(r)
    ensures oldDep == newTime ==> r.status == f.status
  {
    var w := OccupationWindow(minutes);
    ReplaceAllSelf(f.status, oldDep);
    f.(deptime := newTime, time := newTime, status := ReplaceAll(f.status, oldDep, newTime), start := w.start, end := w.end)
  }

  /** The `.loc` writes: every row carrying flight number no is retimed, every other row kept. */
  function Retimed(fs: seq<Flight>, no: string, oldDep: string, newTime: string, minutes: int): (r: seq<Flight>)
    ensures |r| == |fs|
    ensures forall k :: 0 <= k < |fs| ==> r[k].no == fs[k].no && r[k].gate == fs[k].gate
    ensures forall k :: 0 <= k < |fs| && fs[k].no != no ==> r[k] == fs[k]
    ensures forall k :: 0 <= k < |fs| && fs[k].no == no ==> r[k].deptime == newTime
  {
    seq(|fs|, k requires 0 <= k < |fs| => if fs[k].no == no then Retime(fs[k], oldDep, newTime, minutes) else fs[k])
  }

  /**
   * One delay on the working table: an unknown flight number is skipped; otherwise
   * every row of that flight gets the new time, a status with the old departure
   * time replaced, and the window of the new time. A new time that does not parse
   * fails the whole reassignment (Err carries it).
   */
  function ApplyDelay(fs: seq<Flight>, d: Delay): (r: Result<seq<Flight>, string>)
    ensures r.Err? <==> FirstWithNo(fs, d.no).Some? && TimeToMinutes(d.newTime).None?
    ensures r.Err? ==> r.error == d.newTime
    ensures r.Ok? ==> |r.value| == |fs|
  {
    match FirstWithNo(fs, d.no)
    case None => Ok(fs)
    case Some(i) =>
      match TimeToMinutes(d.newTime)
      case None => Err(d.newTime)
      case Some(minutes) => Ok(Retimed(fs, d.no, fs[i].deptime, d.newTime, minutes))
  }

  /** The delays in request order; the first failure ends the request. */
  function ApplyDelays(fs: seq<Flight>, ds: seq<Delay>): (r: Result<seq<Flight>, string>)
    ensures r.Err? ==> TimeToMinutes(r.error).None? && exists k :: 0 <= k < |ds| && ds[k].newTime == r.error
    ensures r.Ok? ==> |r.value| == |fs|
  {
    if |ds| == 0 then Ok(fs)
    else
      match ApplyDelays(fs, ds[..|ds| - 1])
      case Err(e) => Err(e)
      case Ok(w) => ApplyDelay(w, ds[|ds| - 1])
  }

  /** A delay for a flight number no row carries changes nothing. */
  lemma ApplyDelayUnknown(fs: seq<Flight>, d: Delay)
    requires forall k :: 0 <= k < |fs| ==> fs[k].no != d.no
    ensures ApplyDelay(fs, d) == Ok(fs)
  {
  }

  /**
   * A delay for a known flight with a well-formed new time rewrites exactly that
   * flight's rows: time, deptime, status and a 60-minute window around the new
   * time; the number and the gate stay, and every other row is untouched.
   */
  lemma ApplyDelayKnown(fs: seq<Flight>, d: Delay, k0: nat, minutes: int)
    requires k0 < |fs| && fs[k0].no == d.no
    requires TimeToMinutes(d.newTime) == Some(minutes)
    ensures ApplyDelay(fs, d).Ok?
    ensures var w := ApplyDelay(fs, d).value;
            var oldDep := fs[FirstWithNo(fs, d.no).value].deptime;
            |w| == |fs|
            && (forall k :: 0 <= k < |fs| && fs[k].no != d.no ==> w[k] == fs[k])
            && (forall k :: 0 <= k < |fs| && fs[k].no == d.no ==>
                  && w[k].no == fs[k].no && w[k].gate == fs[k].gate
                  && w[k].time == d.newTime && w[k].deptime == d.newTime
                  && w[k].status == ReplaceAll(fs[k].status, oldDep, d.newTime)
                  && w[k].start == minutes - OccupationBefore && w[k].end == minutes + OccupationAfter
                  && Timed(w[k]))
  {
  }

  /** Delays keep the table's rows, numbers and gates: only times, statuses and windows change. */
  predicate SameSlots(fs: seq<Flight>, w: seq<Flight>)
  {
    |w| == |fs| && forall k :: 0 <= k < |fs| ==> w[k].no == fs[k].no && w[k].gate == fs[k].gate
  }

  /** One delay keeps every row timed and every row's number and gate. */
  lemma ApplyDelayKeepsShape(fs: seq<Flight>, d: Delay)
    requires AllTimed(fs)
    ensures ApplyDelay(fs, d).Ok? ==> AllTimed(ApplyDelay(fs, d).value) && SameSlots(fs, ApplyDelay(fs, d).value)
  {
    var first := FirstWithNo(fs, d.no);
    var minutes := TimeToMinutes(d.newTime);
    if first.Some? && minutes.Some? {
      var w := Retimed(fs, d.no, fs[first.value].deptime, d.newTime, minutes.value);
      forall k | 0 <= k < |w|
        ensures Timed(w[k])
      {
        if fs[k].no == d.no {
          assert w[k].deptime == d.newTime;
        }
      }
    }
  }

  /** Applying delays keeps every row timed and every row's number and gate. */
  lemma {:induction false} ApplyDelaysKeepShape(fs: seq<Flight>, ds: seq<Delay>)
    requires AllTimed(fs)
    ensures ApplyDelays(fs, ds).Ok? ==> AllTimed(ApplyDelays(fs, ds).value) && SameSlots(fs, ApplyDelays(fs, ds).value)
  {
    if |ds| > 0 {
      ApplyDelaysKeepShape(fs, ds[..|ds| - 1]);
      var prefix := ApplyDelays(fs, ds[..|ds| - 1]);
      if prefix.Ok? {
        ApplyDelayKeepsShape(prefix.value, ds[|ds| - 1]);
      }
    }
  }

  /** Delays for flights nobody flies leave the table as it was. */
  lemma {:induction false} ApplyDelaysUnknown(fs: seq<Flight>, ds: seq<Delay>)
    requires forall j, k :: 0 <= j < |ds| && 0 <= k < |fs| ==> fs[k].no != ds[j].no
    ensures ApplyDelays(fs, ds) == Ok(fs)
  {
    if |ds| > 0 {
      ApplyDelaysUnknown(fs, ds[..|ds| - 1]);
      assert forall k :: 0 <= k < |fs| ==> fs[k].no != ds[|ds| - 1].no;
    }
  }

  method FindFirstWithNo(fs: seq<Flight>, no: string) returns (r: Option<nat>)
    ensures r == FirstWithNo(fs, no)
  {
    var k := 0;
    while k < |fs|
      invariant k <= |fs|
      invariant forall j :: 0 <= j < k ==> fs[j].no != no
    {
      if fs[k].no == no {
        FirstWithNoIs(fs, no, k);
        return Some(k);
      }
      k := k + 1;
    }
    return None;
  }

  lemma FirstWithNoIs(fs: seq<Flight>, no: string, k: nat)
    requires k < |fs| && fs[k].no == no && forall j :: 0 <= j < k ==> fs[j].no != no
    ensures FirstWithNo(fs, no) == Some(k)
  {
  }

  /** Every row of the delayed flight rewritten, the others copied. */
  method RetimeRows(work: seq<Flight>, no: string, oldDep: string, newTime: string, minutes: int) returns (next: seq<Flight>)
    ensures next == Retimed(work, no, oldDep, newTime, minutes)
  {
    var k := 0;
    next := work;
    while k < |work|
      invariant k <= |work| == |next|
      invariant forall j :: 0 <= j < k ==> next[j] == Retimed(work, no, oldDep, newTime, minutes)[j]
      invariant forall j :: k <= j < |work| ==> next[j] == work[j]
    {
      if work[k].no == no {
        next := next[k := Retime(work[k], oldDep, newTime, minutes)];
      }
      k := k + 1;
    }
  }

  /** One delay on the working table. */
  method ApplyDelayTo(work: seq<Flight>, d: Delay) returns (r: Result<seq<Flight>, string>)
    ensures r == ApplyDelay(work, d)
  {
    var first := FindFirstWithNo(work, d.no);
    if first.None? {
      return Ok(work);
    }
    var minutes := TimeToMinutes(d.newTime);
    if minutes.None? {
      return Err(d.newTime);
    }
    var next := RetimeRows(work, d.no, work[first.value].deptime, d.newTime, minutes.value);
    return Ok(next);
  }

  /** The working table after the delays, or the new time that failed to parse. */
  method ApplyDelaysTo(fs: seq<Flight>, ds: seq<Delay>) returns (r: Result<seq<Flight>, string>)
    ensures r == ApplyDelays(fs, ds)
  {
    var work := fs;
    var i := 0;
    while i < |ds|
      invariant i <= |ds|
      invariant ApplyDelays(fs, ds[..i]) == Ok(work)
    {
      ApplyDelaysSnoc(fs, ds, i);
      var step := ApplyDelayTo(work, ds[i]);
      if step.Err? {
        ApplyDelaysErrStays(fs, ds, i + 1);
        return step;
      }
      work := step.value;
      i := i + 1;
    }
    assert ds[..i] == ds;
    return Ok(work);
  }

  /** One more delay applies to the table the earlier delays left. */
  lemma ApplyDelaysSnoc(fs: seq<Flight>, ds: seq<Delay>, i: nat)
    requires i < |ds| && ApplyDelays(fs, ds[..i]).Ok?
    ensures ApplyDelays(fs, ds[..i + 1]) == ApplyDelay(ApplyDelays(fs, ds[..i]).value, ds[i])
  {
    assert ds[..i + 1][..i] == ds[..i];
  }

  /** Once a prefix of the delays fails, the whole list fails with the same time. */
  lemma {:induction false} ApplyDelaysErrStays(fs: seq<Flight>, ds: seq<Delay>, n: nat)
    requires n <= |ds| && ApplyDelays(fs, ds[..n]).Err?
    ensures ApplyDelays(fs, ds) == ApplyDelays(fs, ds[..n])
    decreases |ds| - n
  {
    if n < |ds| {
      assert ds[..n + 1][..n] == ds[..n];
      ApplyDelaysErrStays(fs, ds, n + 1);
    } else {
      assert ds[..n] == ds;
    }
  }

  // ---------------------------------------------------------------------------
  // Clashes: the conflict scan per gate and the conflict pairs of the model
  // ---------------------------------------------------------------------------

  /** `check_time_overlap` of two rows' windows with the 30-minute buffer. */
  predicate Clash(a: Flight, b: Flight)
    ensures a.start < a.end && b.start < b.end ==>
              (Clash(a, b) <==> !Separated(Window(a.start, a.end), Window(b.start, b.end), BufferTime))
  {
    CheckTimeOverlap(a.start, a.end, b.start, b.end, BufferTime).0
  }

  /** A row is on the gate (Some(g)), or on any gate (None). */
  predicate OnGate(f: Flight, gate: Option<string>)
  {
    gate.None? || f.gate == gate.value
  }

  predicate Linked(fs: seq<Flight>, gate: Option<string>, i: nat, k: nat)
    requires i < |fs| && k < |fs|
  {
    OnGate(fs[i], gate) && OnGate(fs[k], gate) && Clash(fs[i], fs[k])
  }

  /** The pairs (i, k) with i < k < j that clash on the gate, in the order of the inner loop. */
  function RowPairs(fs: seq<Flight>, gate: Option<string>, i: nat, j: nat): (ps: seq<(nat, nat)>)
    requires i < |fs| && j <= |fs|
    ensures forall p :: p in ps <==> p.0 == i && i < p.1 < j && Linked(fs, gate, p.0, p.1)
  {
    if j <= i + 1 then []
    else RowPairs(fs, gate, i, j - 1) + (if Linked(fs, gate, i, j - 1) then [(i, j - 1)] else [])
  }

  /** The pairs whose first row is below i: the outer loop after i rounds. */
  function PairsBefore(fs: seq<Flight>, gate: Option<string>, i: nat): (ps: seq<(nat, nat)>)
    requires i <= |fs|
    ensures forall p :: p in ps <==> p.0 < i && p.0 < p.1 < |fs| && Linked(fs, gate, p.0, p.1)
  {
    if i == 0 then []
    else PairsBefore(fs, gate, i - 1) + RowPairs(fs, gate, i - 1, |fs|)
  }

  /**
   * Every pair of rows i < k that are both on the gate (or, for None, any two rows)
   * and whose windows clash, in the order `for i: for k in range(i + 1, n)` finds them.
   */
  function ClashPairs(fs: seq<Flight>, gate: Option<string>): (ps: seq<(nat, nat)>)
    ensures forall p :: p in ps <==> p.0 < p.1 < |fs| && Linked(fs, gate, p.0, p.1)
  {
    PairsBefore(fs, gate, |fs|)
  }

  /** The inner loop of the scan for row i. */
  method CollectRow(fs: seq<Flight>, gate: Option<string>, i: nat) returns (row: seq<(nat, nat)>)
    requires i < |fs|
    ensures row == RowPairs(fs, gate, i, |fs|)
  {
    var j := i + 1;
    row := [];
    while j < |fs|
      invariant i + 1 <= j <= |fs|
      invariant row == RowPairs(fs, gate, i, j)
    {
      if Linked(fs, gate, i, j) {
        row := row + [(i, j)];
      }
      j := j + 1;
    }
  }

  method CollectPairs(fs: seq<Flight>, gate: Option<string>) returns (ps: seq<(nat, nat)>)
    ensures ps == ClashPairs(fs, gate)
  {
    ps := [];
    var i := 0;
    while i < |fs|
      invariant i <= |fs|
      invariant ps == PairsBefore(fs, gate, i)
    {
      var row := CollectRow(fs, gate, i);
      ps := ps + row;
      i := i + 1;
    }
  }

  /** An entry of the scan: a gate and the clashing pairs of rows on it. */
  datatype GateConflict = GateConflict(gate: string, pairs: seq<(nat, nat)>)

  function GatesOf(t: seq<GateConflict>): (gs: seq<string>)
    ensures |gs| == |t| && forall k :: 0 <= k < |t| ==> gs[k] == t[k].gate
  {
    if |t| == 0 then [] else GatesOf(t[..|t| - 1]) + [t[|t| - 1].gate]
  }

  /**
   * The scan over the gate list: a gate is listed, once, exactly when two of its
   * rows clash, with all of its clashing pairs.
   */
  function ConflictTable(fs: seq<Flight>, names: seq<string>): (t: seq<GateConflict>)
    ensures forall g :: g in GatesOf(t) <==> g in names && |ClashPairs(fs, Some(g))| > 0
    ensures forall k :: 0 <= k < |t| ==> t[k].pairs == ClashPairs(fs, Some(t[k].gate)) && |t[k].pairs| > 0
    ensures forall j, k :: 0 <= j < k < |t| ==> t[j].gate != t[k].gate
  {
    if |names| == 0 then []
    else
      var t := ConflictTable(fs, names[..|names| - 1]);
      var g := names[|names| - 1];
      var ps := ClashPairs(fs, Some(g));
      assert names == names[..|names| - 1] + [g];
      if |ps| > 0 && g !in GatesOf(t) then
        ConflictTableGrows(fs, names[..|names| - 1], t, g);
        t + [GateConflict(g, ps)]
      else t
  }

  /** Listing a new gate with clashes keeps the three properties of the scan. */
  lemma ConflictTableGrows(fs: seq<Flight>, names: seq<string>, t: seq<GateConflict>, g: string)
    requires forall h :: h in GatesOf(t) <==> h in names && |ClashPairs(fs, Some(h))| > 0
    requires forall k :: 0 <= k < |t| ==> t[k].pairs == ClashPairs(fs, Some(t[k].gate)) && |t[k].pairs| > 0
    requires forall j, k :: 0 <= j < k < |t| ==> t[j].gate != t[k].gate
    requires |ClashPairs(fs, Some(g))| > 0 && g !in GatesOf(t)
    ensures var t' := t + [GateConflict(g, ClashPairs(fs, Some(g)))];
            && (forall h :: h in GatesOf(t') <==> h in names + [g] && |ClashPairs(fs, Some(h))| > 0)
            && (forall k :: 0 <= k < |t'| ==> t'[k].pairs == ClashPairs(fs, Some(t'[k].gate)) && |t'[k].pairs| > 0)
            && (forall j, k :: 0 <= j < k < |t'| ==> t'[j].gate != t'[k].gate)
  {
    var t' := t + [GateConflict(g, ClashPairs(fs, Some(g)))];
    assert GatesOf(t') == GatesOf(t) + [g];
    forall j | 0 <= j < |t|
      ensures t[j].gate != g
    {
      assert GatesOf(t)[j] == t[j].gate;
    }
  }

  lemma ConflictTableStep(fs: seq<Flight>, names: seq<string>, i: nat)
    requires i < |names|
    ensures var t := ConflictTable(fs, names[..i]);
            var ps := ClashPairs(fs, Some(names[i]));
            ConflictTable(fs, names[..i + 1]) == if |ps| > 0 && names[i] !in GatesOf(t) then t + [GateConflict(names[i], ps)] else t
  {
    assert names[..i + 1][..i] == names[..i];
  }

  /** The conflict scan of `reassign_gates`: gate by gate, every clashing pair. */
  method ScanConflicts(fs: seq<Flight>, names: seq<string>) returns (t: seq<GateConflict>)
    ensures t == ConflictTable(fs, names)
  {
    t := [];
    var listed: seq<string> := [];
    var i := 0;
    while i < |names|
      invariant i <= |names|
      invariant t == ConflictTable(fs, names[..i]) && listed == GatesOf(t)
    {
      var ps := CollectPairs(fs, Some(names[i]));
      ConflictTableStep(fs, names, i);
      if |ps| > 0 && names[i] !in listed {
        assert GatesOf(t + [GateConflict(names[i], ps)]) == GatesOf(t) + [names[i]];
        t := t + [GateConflict(names[i], ps)];
        listed := listed + [names[i]];
      }
      i := i + 1;
    }
    assert names[..i] == names;
  }

  // ---------------------------------------------------------------------------
  // Flights to reassign: the rows on unavailable gates
  // ---------------------------------------------------------------------------

  /** The numbers of the rows on gate g, in table order. */
  function NumbersOn(fs: seq<Flight>, g: string): (nos: seq<string>)
    ensures |nos| == 0 <==> forall k :: 0 <= k < |fs| ==> fs[k].gate != g
  {
    if |fs| == 0 then []
    else NumbersOn(fs[..|fs| - 1], g) + (if fs[|fs| - 1].gate == g then [fs[|fs| - 1].no] else [])
  }

  /** `flights_to_reassign`: for each unavailable gate, the numbers of the rows on it. */
  function FlightsOn(fs: seq<Flight>, unavailable: seq<string>): (nos: seq<string>)
    ensures |nos| == 0 <==> forall k :: 0 <= k < |fs| ==> fs[k].gate !in unavailable
  {
    if |unavailable| == 0 then []
    else
      var nos := FlightsOn(fs, unavailable[..|unavailable| - 1]) + NumbersOn(fs, unavailable[|unavailable| - 1]);
      assert unavailable == unavailable[..|unavailable| - 1] + [unavailable[|unavailable| - 1]];
      nos
  }

  method CollectFlightsOn(fs: seq<Flight>, unavailable: seq<string>) returns (nos: seq<string>)
    ensures nos == FlightsOn(fs, unavailable)
  {
    nos := [];
    var i := 0;
    while i < |unavailable|
      invariant i <= |unavailable|
      invariant nos == FlightsOn(fs, unavailable[..i])
    {
      assert unavailable[..i + 1][..i] == unavailable[..i];
      var k := 0;
      var on := [];
      while k < |fs|
        invariant k <= |fs|
        invariant on == NumbersOn(fs[..k], unavailable[i])
      {
        assert fs[..k + 1][..k] == fs[..k];
        if fs[k].gate == unavailable[i] {
          on := on + [fs[k].no];
        }
        k := k + 1;
      }
      assert fs[..k] == fs;
      nos := nos + on;
      i := i + 1;
    }
    assert unavailable[..i] == unavailable;
  }
}
