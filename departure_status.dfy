/**
 * Departure-record preprocessing: the status text "Dep HH:MM" (optionally
 * followed by a "(DD/MM/YYYY)" date when the flight left the next day) or
 * "Cancelled" is parsed, the delay against the scheduled time is computed in
 * whole minutes with the day roll-over rules, and each row is classified as
 * delayed or early.
 */
module DepartureStatus {
  import opened Outcomes
  import opened Strings

  // ---------------------------------------------------------------------------
  // Parsing the status text
  // ---------------------------------------------------------------------------

  /** The pattern "Dep " followed by two digits, ':' and two digits starts at p. */
  predicate DepAt(s: string, p: nat)
  {
    && p + 9 <= |s|
    && s[p..p + 4] == "Dep "
    && IsDigit(s[p + 4]) && IsDigit(s[p + 5]) && s[p + 6] == ':' && IsDigit(s[p + 7]) && IsDigit(s[p + 8])
  }

  /** `re.search`: the leftmost position at or after `from` where the pattern starts. */
  function FirstDep(s: string, from: nat): (r: Option<nat>)
    decreases |s| - from
    ensures r.Some? ==> from <= r.value && DepAt(s, r.value)
    ensures r.Some? ==> forall q :: from <= q < r.value ==> !DepAt(s, q)
    ensures r.None? ==> forall q :: from <= q ==> !DepAt(s, q)
  {
    if from + 9 > |s| then None
    else if DepAt(s, from) then Some(from)
    else FirstDep(s, from + 1)
  }

  /** `\s*`: the first position at or after i that is not whitespace. */
  function SkipSpace(s: string, i: nat): (j: nat)
    requires i <= |s|
    decreases |s| - i
    ensures i <= j <= |s|
    ensures forall k :: i <= k < j ==> IsSpace(s[k])
    ensures j == |s| || !IsSpace(s[j])
  {
    if i == |s| || !IsSpace(s[i]) then i else SkipSpace(s, i + 1)
  }

  /** A date of the shape DD/MM/YYYY (digits are not range-checked). */
  predicate DateShape(d: string)
  {
    && |d| == 10
    && IsDigit(d[0]) && IsDigit(d[1]) && d[2] == '/' && IsDigit(d[3]) && IsDigit(d[4]) && d[5] == '/'
    && IsDigit(d[6]) && IsDigit(d[7]) && IsDigit(d[8]) && IsDigit(d[9])
  }

  /** "(DD/MM/YYYY)" starts at j. */
  predicate DateAt(s: string, j: nat)
  {
    j + 12 <= |s| && s[j] == '(' && DateShape(s[j + 1..j + 11]) && s[j + 11] == ')'
  }

  /** What `parse_status` returns. */
  datatype StatusInfo = StatusInfo(actualTime: Option<string>, isCancelled: bool, nextDay: bool)

  /**
   * `parse_status`. The optional date group follows the time after any run of
   * whitespace; since whitespace is never '(', the greedy `\s*` never needs to
   * give characters back, so the group matches exactly when the text after the
   * skipped whitespace is a bracketed date.
   */
  function ParseStatus(status: string): (r: StatusInfo)
    ensures r.isCancelled <==> status == "Cancelled"
    ensures r.isCancelled ==> r.actualTime.None? && !r.nextDay
    ensures r.actualTime.None? && !r.isCancelled <==> status != "Cancelled" && forall q :: !DepAt(status, q)
    ensures r.actualTime.None? ==> !r.nextDay
    ensures r.actualTime.Some? ==> var t := r.actualTime.value;
              |t| == 5 && IsDigit(t[0]) && IsDigit(t[1]) && t[2] == ':' && IsDigit(t[3]) && IsDigit(t[4])
  {
    if status == "Cancelled" then StatusInfo(None, true, false)
    else
      match FirstDep(status, 0)
      case None => StatusInfo(None, false, false)
      case Some(p) => StatusInfo(Some(status[p + 4..p + 9]), false, DateAt(status, SkipSpace(status, p + 9)))
  }

  /** The first occurrence of the pattern decides: its time is reported, and the date group right after it sets the next-day flag. */
  lemma ParseStatusFirstMatch(status: string, p: nat)
    requires status != "Cancelled" && DepAt(status, p)
    requires forall q: nat :: q < p ==> !DepAt(status, q)
    ensures ParseStatus(status).actualTime == Some(status[p + 4..p + 9])
    ensures ParseStatus(status).nextDay <==> DateAt(status, SkipSpace(status, p + 9))
  {
    var r := FirstDep(status, 0);
    assert r.Some?;
    assert DepAt(status, r.value);
    assert r.value >= p;
    assert r.value <= p;
  }

  /** "HH:MM" rendered from a clock time. */
  function Clock(h: nat, m: nat): (t: string)
    requires h < 100 && m < 100
    ensures |t| == 5 && t[2] == ':'
  {
    Pad2(h) + ":" + Pad2(m)
  }

  /** A status written as "Dep HH:MM" parses back to that time, on the same day. */
  lemma ParseRenderedStatus(h: nat, m: nat)
    requires h < 100 && m < 100
    ensures ParseStatus("Dep " + Clock(h, m)) == StatusInfo(Some(Clock(h, m)), false, false)
  {
    var s := "Dep " + Clock(h, m);
    assert s[0] == 'D';
    assert Pad2(h)[0] == s[4] && Pad2(h)[1] == s[5] && Pad2(m)[0] == s[7] && Pad2(m)[1] == s[8];
    assert DepAt(s, 0);
    assert s[4..9] == Clock(h, m);
    ParseStatusFirstMatch(s, 0);
  }

  /** A status written as "Dep HH:MM (DD/MM/YYYY)" parses back to that time, on the next day. */
  lemma ParseRenderedStatusWithDate(h: nat, m: nat, date: string)
    requires h < 100 && m < 100 && DateShape(date)
    ensures ParseStatus("Dep " + Clock(h, m) + " (" + date + ")") == StatusInfo(Some(Clock(h, m)), false, true)
  {
    var s := "Dep " + Clock(h, m) + " (" + date + ")";
    assert s[0] == 'D';
    assert Pad2(h)[0] == s[4] && Pad2(h)[1] == s[5] && Pad2(m)[0] == s[7] && Pad2(m)[1] == s[8];
    assert DepAt(s, 0);
    assert s[4..9] == Clock(h, m);
    assert IsSpace(s[9]) && !IsSpace(s[10]);
    assert SkipSpace(s, 10) == 10;
    assert SkipSpace(s, 9) == 10;
    assert s[11..21] == date;
    assert DateAt(s, 10);
    ParseStatusFirstMatch(s, 0);
  }

  // ---------------------------------------------------------------------------
  // Times and the delay
  // ---------------------------------------------------------------------------

  /** One `%H` or `%M` field: one or two ASCII digits, at most `max`. */
  function ClockField(part: string, max: nat): (r: Option<nat>)
    ensures r.Some? <==> (|part| == 1 || |part| == 2) && AllDigits(part) && DecimalValue(part) <= max
    ensures r.Some? ==> r.value <= max && r.value == DecimalValue(part)
  {
    if (|part| == 1 || |part| == 2) && AllDigits(part) && DecimalValue(part) <= max then Some(DecimalValue(part)) else None
  }

  /** `datetime.strptime(t, '%H:%M')`, as (hour, minute); None where it raises ValueError. */
  function Strptime(t: string): (r: Option<(nat, nat)>)
    ensures r.Some? ==> r.value.0 <= 23 && r.value.1 <= 59
    // Accepted: exactly two ':'-separated fields, an hour and a minute of one or two digits each.
    ensures var ps := Split(t, ':');
            r.Some? <==> |ps| == 2 && ClockField(ps[0], 23).Some? && ClockField(ps[1], 59).Some?
    ensures r.Some? ==> r.value == (DecimalValue(Split(t, ':')[0]), DecimalValue(Split(t, ':')[1]))
  {
    var parts := Split(t, ':');
    if |parts| != 2 then None
    else
      match (ClockField(parts[0], 23), ClockField(parts[1], 59))
      case (Some(h), Some(m)) => Some((h, m))
      case _ => None
  }

  /** Every zero-padded clock time of the day is read back as itself. */
  lemma StrptimeOfClock(h: nat, m: nat)
    requires h <= 23 && m <= 59
    ensures Strptime(Clock(h, m)) == Some((h, m))
  {
    var parts := [Pad2(h), Pad2(m)];
    assert ':' !in Pad2(h) && ':' !in Pad2(m);
    SplitJoin(parts, ':');
    assert parts[1..] == [Pad2(m)];
    assert Join(parts, ':') == Clock(h, m);
  }

  /** `%H` also takes a one-digit hour: "9:05" reads as nine o'clock and five minutes. */
  lemma StrptimeOneDigitHour()
    ensures Strptime("9:05") == Some((9, 5))
  {
    SplitJoin(["9", "05"], ':');
    assert Join(["9", "05"], ':') == "9:05";
    assert DecimalValue("05") == 5;
  }

  function MinuteOfDay(c: (nat, nat)): nat
  {
    c.0 * 60 + c.1
  }

  datatype ClockError = BadPlannedTime(time: string) | BadActualTime(time: string)

  /** A day is added to the actual time: the status names a date, or an early-morning departure was scheduled late in the evening. */
  predicate RollsOver(nextDay: bool, planned: (nat, nat), actual: (nat, nat))
  {
    nextDay || (actual.0 < 4 && planned.0 > 20)
  }

  /**
   * `calculate_delay`: no delay for a cancelled flight or one without an actual
   * time; otherwise the minutes from the scheduled to the actual departure,
   * negative for an early one. A time strptime rejects raises, scheduled first.
   */
  function CalculateDelay(time: string, info: StatusInfo): (r: Result<Option<int>, ClockError>)
    ensures info.isCancelled || info.actualTime.None? ==> r == Ok(None)
    ensures r.Err? <==> !info.isCancelled && info.actualTime.Some?
                        && (Strptime(time).None? || Strptime(info.actualTime.value).None?)
    ensures r.Err? && Strptime(time).None? ==> r.error == BadPlannedTime(time)
    ensures r.Ok? && r.value.None? ==> info.isCancelled || info.actualTime.None?
    // The delay is the actual minute of the day, a day later when the time rolls
    // over, less the scheduled minute of the day.
    ensures r.Ok? && r.value.Some? ==>
              var planned := Strptime(time).value;
              var actual := Strptime(info.actualTime.value).value;
              r.value.value == MinuteOfDay(actual) + (if RollsOver(info.nextDay, planned, actual) then 1440 else 0)
                               - MinuteOfDay(planned)
    ensures r.Ok? && r.value.Some? ==>
              var p := MinuteOfDay(Strptime(time).value);
              var a := MinuteOfDay(Strptime(info.actualTime.value).value);
              && (p + r.value.value) % 1440 == a
              && -1440 < r.value.value < 2 * 1440
  {
    if info.isCancelled || info.actualTime.None? then Ok(None)
    else
      match Strptime(time)
      case None => Err(BadPlannedTime(time))
      case Some(planned) =>
        match Strptime(info.actualTime.value)
        case None => Err(BadActualTime(info.actualTime.value))
        case Some(actual) =>
          var shift := if RollsOver(info.nextDay, planned, actual) then 1440 else 0;
          Ok(Some(MinuteOfDay(actual) + shift - MinuteOfDay(planned)))
  }

  /** A departure rolled over to the next day is never early: its delay is at least a minute. */
  lemma RolledOverIsLate(time: string, info: StatusInfo, d: int)
    requires CalculateDelay(time, info) == Ok(Some(d))
    requires RollsOver(info.nextDay, Strptime(time).value, Strptime(info.actualTime.value).value)
    ensures d >= 1
  {
  }

  /** The overnight rule alone (no date in the status) yields a delay of at most seven hours. */
  lemma OvernightDelayBound(time: string, info: StatusInfo, d: int)
    requires CalculateDelay(time, info) == Ok(Some(d)) && !info.nextDay
    requires Strptime(info.actualTime.value).value.0 < 4 && Strptime(time).value.0 > 20
    ensures 1 <= d <= 7 * 60
  {
  }

  /** Without a roll-over the delay is the same-day difference of the two clock times. */
  lemma SameDayDelay(time: string, info: StatusInfo, d: int)
    requires CalculateDelay(time, info) == Ok(Some(d))
    requires !RollsOver(info.nextDay, Strptime(time).value, Strptime(info.actualTime.value).value)
    ensures -1440 < d < 1440
    ensures d < 0 <==> MinuteOfDay(Strptime(info.actualTime.value).value) < MinuteOfDay(Strptime(time).value)
  {
  }

  /** A status that names a date always moves the actual time to the next day. */
  lemma DatedStatusDelay(h: nat, m: nat, ah: nat, am: nat, date: string)
    requires h <= 23 && m <= 59 && ah <= 23 && am <= 59 && DateShape(date)
    ensures CalculateDelay(Clock(h, m), ParseStatus("Dep " + Clock(ah, am) + " (" + date + ")"))
            == Ok(Some(ah * 60 + am + 1440 - (h * 60 + m)))
  {
    var info := ParseStatus("Dep " + Clock(ah, am) + " (" + date + ")");
    ParseRenderedStatusWithDate(ah, am, date);
    StrptimeOfClock(h, m);
    StrptimeOfClock(ah, am);
    NextDayDelay(Clock(h, m), info, h, m, ah, am);
  }

  /** A dated status read as (h, m) against a schedule read as (ah, am). */
  lemma NextDayDelay(time: string, info: StatusInfo, h: nat, m: nat, ah: nat, am: nat)
    requires info.actualTime.Some? && !info.isCancelled && info.nextDay
    requires Strptime(time) == Some((h, m)) && Strptime(info.actualTime.value) == Some((ah, am))
    ensures CalculateDelay(time, info) == Ok(Some(ah * 60 + am + 1440 - (h * 60 + m)))
  {
  }

  /** Scheduled 10:00, status "Dep 11:00 (02/03/2023)": a day and an hour late. */
  lemma DatedStatusExample()
    ensures CalculateDelay("10:00", ParseStatus("Dep 11:00 (02/03/2023)")) == Ok(Some(1500))
  {
    var date := "02/03/2023";
    assert DateShape(date);
    assert Clock(10, 0) == "10:00" by { assert Pad2(10) == "10" && Pad2(0) == "00"; }
    assert "Dep " + Clock(11, 0) + " (" + date + ")" == "Dep 11:00 (02/03/2023)" by {
      assert Pad2(11) == "11" && Pad2(0) == "00";
    }
    DatedStatusDelay(10, 0, 11, 0, date);
  }

  // ---------------------------------------------------------------------------
  // Row classification
  // ---------------------------------------------------------------------------

  datatype DepartureRow = DepartureRow(date: string, time: string, status: string, gate: string, no: string)

  datatype ProcessedRow = ProcessedRow(date: string, time: string, airline: string, actualTime: Option<string>,
                                       isCancelled: bool, delay: Option<int>, isDelayed: bool, isEarly: bool)

  /** `Is_Delayed`: at least thirty minutes late and not cancelled; a missing delay compares false. */
  predicate IsDelayed(delay: Option<int>, cancelled: bool)
  {
    delay.Some? && delay.value >= 30 && !cancelled
  }

  /** `Is_Early`: a negative delay; a missing delay compares false. */
  predicate IsEarly(delay: Option<int>)
  {
    delay.Some? && delay.value < 0
  }

  /** The columns `preprocess_flight_data` derives for one row. */
  function ProcessRow(row: DepartureRow): (r: Result<ProcessedRow, ClockError>)
    ensures r.Err? <==> CalculateDelay(row.time, ParseStatus(row.status)).Err?
    ensures r.Err? ==> r.error == CalculateDelay(row.time, ParseStatus(row.status)).error
    ensures r.Ok? ==> r.value.airline == Prefix(row.no, 2) && r.value.date == row.date && r.value.time == row.time
    ensures r.Ok? ==> r.value.actualTime == ParseStatus(row.status).actualTime
                      && r.value.isCancelled == ParseStatus(row.status).isCancelled
                      && r.value.delay == CalculateDelay(row.time, ParseStatus(row.status)).value
    ensures r.Ok? ==> (r.value.isEarly <==> r.value.delay.Some? && r.value.delay.value < 0)
    ensures r.Ok? ==> (r.value.isDelayed <==> r.value.delay.Some? && r.value.delay.value >= 30 && !r.value.isCancelled)
  {
    var info := ParseStatus(row.status);
    match CalculateDelay(row.time, info)
    case Err(e) => Err(e)
    case Ok(delay) =>
      Ok(ProcessedRow(row.date, row.time, Prefix(row.no, 2), info.actualTime, info.isCancelled,
                      delay, IsDelayed(delay, info.isCancelled), IsEarly(delay)))
  }

  /**
   * The classification is consistent: no row is both delayed and early, a
   * cancelled row has no delay and neither flag, and an early row left on the
   * day the status names (no date, no overnight roll-over).
   */
  lemma ClassificationConsistent(row: DepartureRow)
    requires ProcessRow(row).Ok?
    ensures var p := ProcessRow(row).value;
            && !(p.isDelayed && p.isEarly)
            && (p.isCancelled ==> p.delay.None? && !p.isDelayed && !p.isEarly)
            && (p.isEarly ==> !ParseStatus(row.status).nextDay)
            && (p.isDelayed <==> row.status != "Cancelled" && p.delay.Some? && p.delay.value >= 30)
            && (p.isEarly <==> p.delay.Some? && p.delay.value < 0)
  {
  }

  /** The rows one by one, in order: the first failure is the table's failure. */
  function Collect<T, E>(rs: seq<Result<T, E>>): Result<seq<T>, E>
  {
    if |rs| == 0 then Ok([])
    else
      match Collect(rs[..|rs| - 1])
      case Err(e) => Err(e)
      case Ok(done) =>
        match rs[|rs| - 1]
        case Err(e) => Err(e)
        case Ok(p) => Ok(done + [p])
  }

  lemma {:induction false} CollectAllOk<T, E>(rs: seq<Result<T, E>>)
    ensures Collect(rs).Ok? <==> forall k :: 0 <= k < |rs| ==> rs[k].Ok?
    ensures Collect(rs).Ok? ==> |Collect(rs).value| == |rs| && forall k :: 0 <= k < |rs| ==> rs[k] == Ok(Collect(rs).value[k])
  {
    if |rs| > 0 {
      var init := rs[..|rs| - 1];
      assert forall k :: 0 <= k < |init| ==> init[k] == rs[k];
      CollectAllOk(init);
    }
  }

  /** Once a prefix fails, the whole sequence fails the same way. */
  lemma {:induction false} CollectErrStays<T, E>(rs: seq<Result<T, E>>, n: nat)
    requires n <= |rs| && Collect(rs[..n]).Err?
    ensures Collect(rs) == Collect(rs[..n])
    decreases |rs| - n
  {
    if n < |rs| {
      assert rs[..n + 1][..n] == rs[..n];
      CollectErrStays(rs, n + 1);
    } else {
      assert rs[..n] == rs;
    }
  }

  /** What `apply` computes for each row, before any of it is stored. */
  function ProcessAll(rows: seq<DepartureRow>): (rs: seq<Result<ProcessedRow, ClockError>>)
    ensures |rs| == |rows| && forall k :: 0 <= k < |rows| ==> rs[k] == ProcessRow(rows[k])
  {
    seq(|rows|, k requires 0 <= k < |rows| => ProcessRow(rows[k]))
  }

  /**
   * Why a table fails: a row whose time strptime rejects, or a table without
   * rows. On an empty frame `apply` returns a frame rather than a Series of
   * dicts, and storing it as the `Actual_Time` column raises ValueError.
   */
  datatype TableError = RowError(error: ClockError) | EmptyTable

  /** `preprocess_flight_data` on a whole table: an empty table raises, then the first row whose time strptime rejects. */
  function Preprocess(rows: seq<DepartureRow>): (r: Result<seq<ProcessedRow>, TableError>)
    ensures r == Err(EmptyTable) <==> |rows| == 0
    ensures r.Ok? <==> |rows| > 0 && forall k :: 0 <= k < |rows| ==> ProcessRow(rows[k]).Ok?
    ensures r.Ok? ==> |r.value| == |rows|
  {
    if |rows| == 0 then Err(EmptyTable)
    else
      CollectAllOk(ProcessAll(rows));
      match Collect(ProcessAll(rows))
      case Ok(done) => Ok(done)
      case Err(e) => Err(RowError(e))
  }

  /** A table succeeds exactly when it has rows and every row does, and then row k of the result is row k processed. */
  lemma PreprocessRowByRow(rows: seq<DepartureRow>)
    ensures Preprocess(rows).Ok? <==> |rows| > 0 && forall k :: 0 <= k < |rows| ==> ProcessRow(rows[k]).Ok?
    ensures Preprocess(rows).Ok? ==> (|Preprocess(rows).value| == |rows|
              && forall k :: 0 <= k < |rows| ==> ProcessRow(rows[k]) == Ok(Preprocess(rows).value[k]))
  {
    CollectAllOk(ProcessAll(rows));
  }

  /** The error reported is the first failing row's. */
  lemma PreprocessFirstError(rows: seq<DepartureRow>, k: nat)
    requires k < |rows| && ProcessRow(rows[k]).Err?
    requires forall j :: 0 <= j < k ==> ProcessRow(rows[j]).Ok?
    ensures Preprocess(rows) == Err(RowError(ProcessRow(rows[k]).error))
  {
    var rs := ProcessAll(rows);
    CollectAllOk(rs[..k]);
    assert rs[..k + 1][..k] == rs[..k];
    CollectErrStays(rs, k + 1);
  }

  /** The row loop of `preprocess_flight_data`. */
  method PreprocessRows(rows: seq<DepartureRow>) returns (r: Result<seq<ProcessedRow>, TableError>)
    ensures r == Preprocess(rows)
  {
    if |rows| == 0 {
      return Err(EmptyTable);
    }
    ghost var rs := ProcessAll(rows);
    var done: seq<ProcessedRow> := [];
    var i := 0;
    while i < |rows|
      invariant i <= |rows|
      invariant Collect(rs[..i]) == Ok(done)
    {
      var p := ProcessRow(rows[i]);
      assert rs[..i + 1][..i] == rs[..i] && rs[i] == p;
      if p.Err? {
        CollectErrStays(rs, i + 1);
        return Err(RowError(p.error));
      }
      done := done + [p.value];
      i := i + 1;
    }
    assert rs[..i] == rs;
    return Ok(done);
  }
}
