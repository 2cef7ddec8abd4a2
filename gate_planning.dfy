/**
 * From the working flight table to the solver and back: the index of a gate
 * name, the constraint model built from the table, and the projection of a
 * solver answer onto one record per flight, with the greedy repair of a flight
 * the answer leaves on an unavailable gate.
 */
module GatePlanning {
  import opened Outcomes
  import opened GateTimes
  import opened GateFlights
  import opened GateModel

  /** No gate name occurs twice in the gate list. */
  predicate Distinct(names: seq<string>)
  {
    forall i, j :: 0 <= i < j < |names| ==> names[i] != names[j]
  }

  /** The distance matrix has one row and one column per gate. */
  predicate Square(distance: seq<seq<int>>, n: nat)
  {
    |distance| == n && forall i :: 0 <= i < |distance| ==> |distance[i]| == n
  }

  /**
   * `gate_name_to_idx[g]`: the dict is built by enumerating the gate list, so a
   * repeated name keeps its last index; None for a name not in the list.
   */
  function GateIndex(names: seq<string>, g: string): (r: Option<nat>)
    ensures r.Some? <==> g in names
    ensures r.Some? ==> r.value < |names| && names[r.value] == g
    ensures r.Some? ==> forall k :: r.value < k < |names| ==> names[k] != g
  {
    if |names| == 0 then None
    else if names[|names| - 1] == g then Some(|names| - 1)
    else
      assert names == names[..|names| - 1] + [names[|names| - 1]];
      GateIndex(names[..|names| - 1], g)
  }

  /** In a list without repeats the index of the name at position v is v. */
  lemma GateIndexDistinct(names: seq<string>, v: nat)
    requires Distinct(names) && v < |names|
    ensures GateIndex(names, names[v]) == Some(v)
  {
  }

  // ---------------------------------------------------------------------------
  // The constraint model
  // ---------------------------------------------------------------------------

  /** The gate of the first row whose gate is not in the gate list, if any. */
  function FirstUnknownGate(fs: seq<Flight>, names: seq<string>): (r: Option<string>)
    ensures r.None? <==> forall k :: 0 <= k < |fs| ==> fs[k].gate in names
    ensures r.Some? ==> r.value !in names && exists k :: 0 <= k < |fs| && fs[k].gate == r.value
  {
    if |fs| == 0 then None
    else if fs[0].gate !in names then Some(fs[0].gate)
    else
      var r := FirstUnknownGate(fs[1..], names);
      assert forall k :: 1 <= k < |fs| ==> fs[1..][k - 1] == fs[k];
      r
  }

  /** The indices of the unavailable gates the gate list knows, in the order they are posted. */
  function ClosedIndices(names: seq<string>, unavailable: seq<string>): (closed: seq<nat>)
    ensures forall j :: j in closed ==> j < |names| && names[j] in unavailable
    ensures forall g :: g in unavailable && g in names ==> GateIndex(names, g).value in closed
  {
    if |unavailable| == 0 then []
    else
      var init := unavailable[..|unavailable| - 1];
      var g := unavailable[|unavailable| - 1];
      assert unavailable == init + [g];
      var closed := ClosedIndices(names, init);
      match GateIndex(names, g)
      case None => closed
      case Some(j) => closed + [j]
  }

  /** cost[i][j] = distance[original_gate_idx of row i][j]. */
  function CostRows(fs: seq<Flight>, names: seq<string>, distance: seq<seq<int>>): (cost: seq<seq<int>>)
    requires Square(distance, |names|)
    requires forall k :: 0 <= k < |fs| ==> fs[k].gate in names
    ensures |cost| == |fs|
    ensures forall i :: 0 <= i < |fs| ==> cost[i] == distance[GateIndex(names, fs[i].gate).value]
  {
    seq(|fs|, i requires 0 <= i < |fs| => distance[GateIndex(names, fs[i].gate).value])
  }

  /**
   * The model posted for the working table: one gate per flight, every clashing
   * pair of rows kept apart, no flight on an unavailable gate, and the distance
   * from each flight's original gate as cost. A row whose gate is not in the gate
   * list makes the cost lookup fail (Err carries that gate).
   */
  function ModelOf(fs: seq<Flight>, names: seq<string>, distance: seq<seq<int>>, unavailable: seq<string>): (r: Result<CpModel, string>)
    requires Square(distance, |names|)
    ensures r.Err? <==> exists k :: 0 <= k < |fs| && fs[k].gate !in names
    ensures r.Ok? ==> WellFormed(r.value) && r.value.flightCount == |fs| && r.value.gateCount == |names|
  {
    match FirstUnknownGate(fs, names)
    case Some(g) => Err(g)
    case None =>
      Ok(CpModel(|fs|, |names|, ClashPairs(fs, None), ClosedIndices(names, unavailable), CostRows(fs, names, distance)))
  }

  /**
   * An answer in the engine's terms: one gate in range per row, clashing rows on
   * different gates, and no row on a gate whose name is unavailable.
   */
  predicate Admissible(fs: seq<Flight>, names: seq<string>, unavailable: seq<string>, a: seq<int>)
  {
    && |a| == |fs|
    && (forall i :: 0 <= i < |a| ==> 0 <= a[i] < |names| && names[a[i]] !in unavailable)
    && (forall i, k :: 0 <= i < k < |a| && Clash(fs[i], fs[k]) ==> a[i] != a[k])
  }

  /** The posted model accepts exactly the admissible answers, when no gate name is repeated. */
  lemma {:induction false} ModelOfMeaning(fs: seq<Flight>, names: seq<string>, distance: seq<seq<int>>, unavailable: seq<string>, a: seq<int>)
    requires Square(distance, |names|) && Distinct(names)
    requires ModelOf(fs, names, distance, unavailable).Ok?
    ensures Satisfies(ModelOf(fs, names, distance, unavailable).value, a) <==> Admissible(fs, names, unavailable, a)
  {
    var m := ModelOf(fs, names, distance, unavailable).value;
    if Satisfies(m, a) {
      forall i | 0 <= i < |a|
        ensures names[a[i]] !in unavailable
      {
        if names[a[i]] in unavailable {
          GateIndexDistinct(names, a[i]);
        }
      }
      forall i, k | 0 <= i < k < |a| && Clash(fs[i], fs[k])
        ensures a[i] != a[k]
      {
        assert Linked(fs, None, i, k);
        assert (i, k) in m.conflicts;
      }
    }
  }

  /** The summed distance from every row's original gate to the gate the answer gives it, over the first n rows. */
  function Relocation(fs: seq<Flight>, names: seq<string>, distance: seq<seq<int>>, a: seq<int>, n: nat): int
    requires Square(distance, |names|) && n <= |fs| == |a|
    requires forall k :: 0 <= k < |fs| ==> fs[k].gate in names
    requires forall k :: 0 <= k < |a| ==> 0 <= a[k] < |names|
  {
    if n == 0 then 0
    else Relocation(fs, names, distance, a, n - 1) + distance[GateIndex(names, fs[n - 1].gate).value][a[n - 1]]
  }

  /** The model's cost of an answer is its relocation distance. */
  lemma CostIsRelocation(fs: seq<Flight>, names: seq<string>, distance: seq<seq<int>>, unavailable: seq<string>, a: seq<int>, n: nat)
    requires Square(distance, |names|)
    requires ModelOf(fs, names, distance, unavailable).Ok?
    requires OneGateEach(ModelOf(fs, names, distance, unavailable).value, a) && n <= |a|
    ensures CostUpTo(ModelOf(fs, names, distance, unavailable).value, a, n) == Relocation(fs, names, distance, a, n)
  {
    var m := ModelOf(fs, names, distance, unavailable).value;
    assert forall k :: 0 <= k < |fs| ==> fs[k].gate in names;
    CostRowsRelocation(m, fs, names, distance, a, n);
  }

  lemma {:induction false} CostRowsRelocation(m: CpModel, fs: seq<Flight>, names: seq<string>, distance: seq<seq<int>>, a: seq<int>, n: nat)
    requires Square(distance, |names|) && forall k :: 0 <= k < |fs| ==> fs[k].gate in names
    requires WellFormed(m) && m.gateCount == |names| && m.cost == CostRows(fs, names, distance)
    requires OneGateEach(m, a) && n <= |a|
    ensures CostUpTo(m, a, n) == Relocation(fs, names, distance, a, n)
  {
    if n > 0 {
      CostRowsRelocation(m, fs, names, distance, a, n - 1);
    }
  }

  method BuildModel(fs: seq<Flight>, names: seq<string>, distance: seq<seq<int>>, unavailable: seq<string>) returns (r: Result<CpModel, string>)
    requires Square(distance, |names|)
    ensures r == ModelOf(fs, names, distance, unavailable)
  {
    var k := 0;
    while k < |fs|
      invariant k <= |fs|
      invariant forall j :: 0 <= j < k ==> fs[j].gate in names
    {
      if fs[k].gate !in names {
        FirstUnknownGateIs(fs, names, k);
        return Err(fs[k].gate);
      }
      k := k + 1;
    }
    var conflicts := CollectPairs(fs, None);
    var closed: seq<nat> := [];
    var i := 0;
    while i < |unavailable|
      invariant i <= |unavailable|
      invariant closed == ClosedIndices(names, unavailable[..i])
    {
      assert unavailable[..i + 1][..i] == unavailable[..i];
      var j := FindGateIndex(names, unavailable[i]);
      if j.Some? {
        closed := closed + [j.value];
      }
      i := i + 1;
    }
    assert unavailable[..i] == unavailable;
    var cost: seq<seq<int>> := [];
    i := 0;
    while i < |fs|
      invariant i <= |fs| && |cost| == i
      invariant forall j :: 0 <= j < i ==> cost[j] == distance[GateIndex(names, fs[j].gate).value]
    {
      var g := FindGateIndex(names, fs[i].gate);
      cost := cost + [distance[g.value]];
      i := i + 1;
    }
    assert cost == CostRows(fs, names, distance);
    return Ok(CpModel(|fs|, |names|, conflicts, closed, cost));
  }

  lemma FirstUnknownGateIs(fs: seq<Flight>, names: seq<string>, k: nat)
    requires k < |fs| && fs[k].gate !in names && forall j :: 0 <= j < k ==> fs[j].gate in names
    ensures FirstUnknownGate(fs, names) == Some(fs[k].gate)
  {
    if k > 0 {
      FirstUnknownGateIs(fs[1..], names, k - 1);
    }
  }

  /** The dict lookup, written as the scan that builds the dict. */
  method FindGateIndex(names: seq<string>, g: string) returns (r: Option<nat>)
    ensures r == GateIndex(names, g)
  {
    r := None;
    var i := 0;
    while i < |names|
      invariant i <= |names|
      invariant r == GateIndex(names[..i], g)
    {
      assert names[..i + 1][..i] == names[..i];
      if names[i] == g {
        r := Some(i);
      }
      i := i + 1;
    }
    assert names[..i] == names;
  }

  // ---------------------------------------------------------------------------
  // Projection of a solver answer, with the greedy repair
  // ---------------------------------------------------------------------------

  /** One line of the returned assignment. */
  datatype Record = Record(flight: string, originalGate: string, newGate: string, time: string)

  /**
   * The gate the answer gives flight i: the first j with assigned[i, j] = 1. The
   * posted links make assigned[i, j] = 1 exactly when gate_i = j, so this is the
   * name of gate_i, or nothing when the answer leaves gate_i out of range.
   */
  function ChosenGate(values: seq<int>, i: nat, names: seq<string>): (r: Option<string>)
    ensures r.Some? <==> i < |values| && 0 <= values[i] < |names|
    ensures r.Some? ==> r.value in names && r.value == names[values[i]]
  {
    if i < |values| && 0 <= values[i] < |names| then Some(names[values[i]]) else None
  }

  /** No other flight currently recorded on gate alt clashes with flight f. */
  predicate GateFreeFor(work: seq<Flight>, f: Flight, alt: string)
  {
    forall k :: 0 <= k < |work| && work[k].gate == alt && work[k].no != f.no ==> !Clash(f, work[k])
  }

  predicate Eligible(work: seq<Flight>, f: Flight, unavailable: seq<string>, alt: string)
  {
    alt !in unavailable && GateFreeFor(work, f, alt)
  }

  /** The position, in the gate list, of the first gate the repair may move flight f to. */
  function FirstFree(work: seq<Flight>, f: Flight, names: seq<string>, unavailable: seq<string>): (r: Option<nat>)
    ensures r.Some? ==> r.value < |names| && Eligible(work, f, unavailable, names[r.value])
    ensures r.Some? ==> forall k :: 0 <= k < r.value ==> !Eligible(work, f, unavailable, names[k])
    ensures r.None? ==> forall k :: 0 <= k < |names| ==> !Eligible(work, f, unavailable, names[k])
  {
    if |names| == 0 then None
    else if Eligible(work, f, unavailable, names[0]) then Some(0)
    else
      match FirstFree(work, f, names[1..], unavailable)
      case None => None
      case Some(j) => Some(j + 1)
  }

  lemma FirstFreeIs(work: seq<Flight>, f: Flight, names: seq<string>, unavailable: seq<string>, j: nat)
    requires j < |names| && Eligible(work, f, unavailable, names[j])
    requires forall k :: 0 <= k < j ==> !Eligible(work, f, unavailable, names[k])
    ensures FirstFree(work, f, names, unavailable) == Some(j)
  {
    if j > 0 {
      FirstFreeIs(work, f, names[1..], unavailable, j - 1);
    }
  }

  method FindAlternative(work: seq<Flight>, f: Flight, names: seq<string>, unavailable: seq<string>) returns (r: Option<nat>)
    ensures r == FirstFree(work, f, names, unavailable)
  {
    var j := 0;
    while j < |names|
      invariant j <= |names|
      invariant forall k :: 0 <= k < j ==> !Eligible(work, f, unavailable, names[k])
    {
      if names[j] !in unavailable {
        var clash := false;
        var k := 0;
        while k < |work|
          invariant k <= |work|
          invariant !clash ==> forall i :: 0 <= i < k && work[i].gate == names[j] && work[i].no != f.no ==> !Clash(f, work[i])
          invariant clash ==> !GateFreeFor(work, f, names[j])
        {
          if work[k].gate == names[j] && work[k].no != f.no && Clash(f, work[k]) {
            clash := true;
            break;
          }
          k := k + 1;
        }
        if !clash {
          FirstFreeIs(work, f, names, unavailable, j);
          return Some(j);
        }
      }
      j := j + 1;
    }
    return None;
  }

  /**
   * How the repair settles the gate g of a flight f whose answer is `chosen`, given
   * the table w as the loop found it: an available chosen gate is kept; an
   * unavailable one is replaced by the first eligible gate, and kept when there is none.
   */
  predicate RepairedAs(w: seq<Flight>, f: Flight, chosen: string, names: seq<string>, unavailable: seq<string>, g: string)
  {
    && (chosen !in unavailable ==> g == chosen)
    && (chosen in unavailable && FirstFree(w, f, names, unavailable).Some? ==> g == names[FirstFree(w, f, names, unavailable).value])
    && (chosen in unavailable && FirstFree(w, f, names, unavailable).None? ==> g == chosen)
  }

  /** The result of one round of the projection loop. */
  datatype Step = Step(work: seq<Flight>, record: Option<Record>)

  /**
   * Round i: flight i gets the chosen gate, or, when that gate is unavailable,
   * the first eligible gate (keeping the chosen one if none is); its row's gate
   * is overwritten and one record is produced. A flight with no chosen gate is
   * skipped.
   */
  function ProjectStep(work: seq<Flight>, i: nat, values: seq<int>, names: seq<string>, unavailable: seq<string>): (s: Step)
    requires i < |work|
    ensures |s.work| == |work|
    ensures s.record.Some? <==> ChosenGate(values, i, names).Some?
    ensures s.record.None? ==> s.work == work
    ensures s.record.Some? ==>
              && s.record.value.flight == work[i].no && s.record.value.originalGate == work[i].gate
              && s.record.value.time == work[i].deptime && s.work == work[i := work[i].(gate := s.record.value.newGate)]
  {
    var f := work[i];
    match ChosenGate(values, i, names)
    case None => Step(work, None)
    case Some(chosen) =>
      var g :=
        if chosen !in unavailable then chosen
        else match FirstFree(work, f, names, unavailable)
          case Some(j) => names[j]
          case None => chosen;
      Step(work[i := f.(gate := g)], Some(Record(f.no, f.gate, g, f.deptime)))
  }

  /** The gate a step records is the answer's gate, repaired when it is unavailable. */
  lemma ProjectStepRepairs(work: seq<Flight>, i: nat, values: seq<int>, names: seq<string>, unavailable: seq<string>)
    requires i < |work| && ChosenGate(values, i, names).Some?
    ensures var s := ProjectStep(work, i, values, names, unavailable);
            RepairedAs(work, work[i], ChosenGate(values, i, names).value, names, unavailable, s.record.value.newGate)
  {
  }

  function Records(s: Step): seq<Record>
  {
    if s.record.Some? then [s.record.value] else []
  }

  /** The table and the records after the first n rounds. */
  datatype Projection = Projection(work: seq<Flight>, records: seq<Record>)

  function Project(fs: seq<Flight>, values: seq<int>, names: seq<string>, unavailable: seq<string>, n: nat): (p: Projection)
    requires n <= |fs|
    ensures |p.work| == |fs|
    ensures |p.records| <= n
  {
    if n == 0 then Projection(fs, [])
    else
      var p := Project(fs, values, names, unavailable, n - 1);
      var s := ProjectStep(p.work, n - 1, values, names, unavailable);
      Projection(s.work, p.records + Records(s))
  }

  /** `gate_changes` is non-empty: some record moves its flight. */
  predicate AnyChange(records: seq<Record>)
  {
    exists k :: 0 <= k < |records| && records[k].originalGate != records[k].newGate
  }

  /**
   * The projection only ever rewrites gates: row k keeps its number, times and
   * window, and a row not yet visited is untouched.
   */
  lemma {:induction false} ProjectRewritesGatesOnly(fs: seq<Flight>, values: seq<int>, names: seq<string>, unavailable: seq<string>, n: nat)
    requires n <= |fs|
    ensures var w := Project(fs, values, names, unavailable, n).work;
            (forall k :: 0 <= k < |fs| ==> w[k] == fs[k].(gate := w[k].gate))
            && (forall k :: n <= k < |fs| ==> w[k] == fs[k])
  {
    if n > 0 {
      ProjectRewritesGatesOnly(fs, values, names, unavailable, n - 1);
    }
  }

  /** The record an answer that needs no repair gives flight k. */
  function Placed(fs: seq<Flight>, values: seq<int>, names: seq<string>, k: nat): Record
    requires k < |fs| && k < |values| && 0 <= values[k] < |names|
  {
    Record(fs[k].no, fs[k].gate, names[values[k]], fs[k].deptime)
  }

  /**
   * When the answer puts every flight on an available gate in range, the projection
   * produces one record per flight, in table order, with the answer's gate, and
   * writes that gate into each row.
   */
  lemma {:induction false} ProjectFaithful(fs: seq<Flight>, values: seq<int>, names: seq<string>, unavailable: seq<string>, n: nat)
    requires n <= |fs| == |values|
    requires forall i :: 0 <= i < |values| ==> 0 <= values[i] < |names| && names[values[i]] !in unavailable
    ensures var p := Project(fs, values, names, unavailable, n);
            |p.records| == n
            && (forall k :: 0 <= k < n ==> p.records[k] == Placed(fs, values, names, k))
            && (forall k :: 0 <= k < n ==> p.work[k] == fs[k].(gate := names[values[k]]))
            && (forall k :: n <= k < |fs| ==> p.work[k] == fs[k])
  {
    if n > 0 {
      ProjectFaithful(fs, values, names, unavailable, n - 1);
      var p := Project(fs, values, names, unavailable, n - 1);
      assert p.work[n - 1] == fs[n - 1];
    }
  }

  /**
   * What the repair guarantees for one flight: a flight moved off an unavailable
   * gate lands on a known, available gate where it clashes with no flight recorded
   * there; a flight left on an unavailable gate is on the answer's gate and had no
   * eligible gate at all.
   */
  lemma RepairedAsMeans(w: seq<Flight>, f: Flight, chosen: string, names: seq<string>, unavailable: seq<string>, g: string)
    requires chosen in names && RepairedAs(w, f, chosen, names, unavailable, g)
    ensures g in names
    ensures g !in unavailable && chosen in unavailable ==> GateFreeFor(w, f, g)
    ensures g in unavailable ==> g == chosen && forall j :: 0 <= j < |names| ==> !Eligible(w, f, unavailable, names[j])
  {
  }

  /** An answer that puts every flight on a gate in range produces one record per flight. */
  lemma {:induction false} ProjectCount(fs: seq<Flight>, values: seq<int>, names: seq<string>, unavailable: seq<string>, n: nat)
    requires n <= |fs| == |values|
    requires forall i :: 0 <= i < |values| ==> 0 <= values[i] < |names|
    ensures |Project(fs, values, names, unavailable, n).records| == n
  {
    if n > 0 {
      ProjectCount(fs, values, names, unavailable, n - 1);
    }
  }

  /** Round k produces flight k's record, settled against the table the earlier rounds left. */
  lemma ProjectLast(fs: seq<Flight>, values: seq<int>, names: seq<string>, unavailable: seq<string>, k: nat)
    requires k < |fs| == |values| && 0 <= values[k] < |names|
    requires |Project(fs, values, names, unavailable, k).records| == k
    ensures |Project(fs, values, names, unavailable, k + 1).records| == k + 1
    ensures var p := Project(fs, values, names, unavailable, k + 1); var r := p.records[k];
            && Project(fs, values, names, unavailable, k).records == p.records[..k]
            && r.flight == fs[k].no && r.originalGate == fs[k].gate && r.time == fs[k].deptime
            && p.work == Project(fs, values, names, unavailable, k).work[k := fs[k].(gate := r.newGate)]
            && RepairedAs(Project(fs, values, names, unavailable, k).work, fs[k], names[values[k]], names, unavailable, r.newGate)
  {
    ProjectRewritesGatesOnly(fs, values, names, unavailable, k);
    var q := Project(fs, values, names, unavailable, k);
    assert q.work[k] == fs[k];
    var s := ProjectStep(q.work, k, values, names, unavailable);
    assert ChosenGate(values, k, names) == Some(names[values[k]]);
    ProjectStepRepairs(q.work, k, values, names, unavailable);
    assert Project(fs, values, names, unavailable, k + 1).records == q.records + [s.record.value];
  }

  /** Rounds after round k leave record k and row k as round k wrote them. */
  lemma {:induction false} ProjectKeepsEarlier(fs: seq<Flight>, values: seq<int>, names: seq<string>, unavailable: seq<string>, n: nat, k: nat)
    requires k < n <= |fs| == |values|
    requires forall i :: 0 <= i < |values| ==> 0 <= values[i] < |names|
    ensures |Project(fs, values, names, unavailable, n).records| == n
    ensures |Project(fs, values, names, unavailable, k + 1).records| == k + 1
    ensures Project(fs, values, names, unavailable, n).records[k] == Project(fs, values, names, unavailable, k + 1).records[k]
    ensures Project(fs, values, names, unavailable, n).work[k] == Project(fs, values, names, unavailable, k + 1).work[k]
  {
    ProjectCount(fs, values, names, unavailable, n);
    ProjectCount(fs, values, names, unavailable, k + 1);
    if k < n - 1 {
      ProjectKeepsEarlier(fs, values, names, unavailable, n - 1, k);
      ProjectCount(fs, values, names, unavailable, n - 1);
      ProjectRoundKeeps(fs, values, names, unavailable, n, k);
    }
  }

  /** Round n - 1 alone leaves record k and row k, for k < n - 1, as they were. */
  lemma ProjectRoundKeeps(fs: seq<Flight>, values: seq<int>, names: seq<string>, unavailable: seq<string>, n: nat, k: nat)
    requires k < n - 1 && n <= |fs| == |values| && 0 <= values[n - 1] < |names|
    requires |Project(fs, values, names, unavailable, n - 1).records| == n - 1
    ensures |Project(fs, values, names, unavailable, n).records| == n
    ensures Project(fs, values, names, unavailable, n).records[k] == Project(fs, values, names, unavailable, n - 1).records[k]
    ensures Project(fs, values, names, unavailable, n).work[k] == Project(fs, values, names, unavailable, n - 1).work[k]
  {
    var q := Project(fs, values, names, unavailable, n - 1);
    var s := ProjectStep(q.work, n - 1, values, names, unavailable);
    assert ChosenGate(values, n - 1, names).Some?;
    assert Project(fs, values, names, unavailable, n).records == q.records + [s.record.value];
  }

  /**
   * The repair pass, for an answer that puts every flight on a gate in range:
   * record k is flight k's, row k carries that record's gate, and the gate is
   * settled by the repair against the table as the loop found it at round k.
   */
  lemma ProjectRepairs(fs: seq<Flight>, values: seq<int>, names: seq<string>, unavailable: seq<string>, n: nat, k: nat)
    requires k < n <= |fs| == |values|
    requires forall i :: 0 <= i < |values| ==> 0 <= values[i] < |names|
    ensures |Project(fs, values, names, unavailable, n).records| == n
    ensures var p := Project(fs, values, names, unavailable, n); var r := p.records[k];
            && r.flight == fs[k].no && r.originalGate == fs[k].gate && r.time == fs[k].deptime
            && p.work[k] == fs[k].(gate := r.newGate)
            && RepairedAs(Project(fs, values, names, unavailable, k).work, fs[k], names[values[k]], names, unavailable, r.newGate)
  {
    ProjectCount(fs, values, names, unavailable, k);
    ProjectLast(fs, values, names, unavailable, k);
    ProjectKeepsEarlier(fs, values, names, unavailable, n, k);
  }

  /** The projection loop: rows are rewritten in place and the records collected. */
  method ProjectAnswer(fs: seq<Flight>, values: seq<int>, names: seq<string>, unavailable: seq<string>)
    returns (work: seq<Flight>, records: seq<Record>, changed: bool)
    ensures Project(fs, values, names, unavailable, |fs|) == Projection(work, records)
    ensures changed <==> AnyChange(records)
  {
    work := fs;
    records := [];
    changed := false;
    var i := 0;
    while i < |fs|
      invariant i <= |fs| == |work|
      invariant Project(fs, values, names, unavailable, i) == Projection(work, records)
      invariant changed <==> AnyChange(records)
    {
      var f := work[i];
      if i < |values| && 0 <= values[i] < |names| {
        var g := names[values[i]];
        if g in unavailable {
          var alt := FindAlternative(work, f, names, unavailable);
          if alt.Some? {
            g := names[alt.value];
          }
        }
        if f.gate != g {
          changed := true;
        }
        work := work[i := f.(gate := g)];
        var before := records;
        records := records + [Record(f.no, f.gate, g, f.deptime)];
        assert forall k :: 0 <= k < |before| ==> records[k] == before[k];
        assert records[|before|].originalGate != records[|before|].newGate <==> f.gate != g;
      }
      i := i + 1;
    }
  }
}
