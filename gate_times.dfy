/**
 * Times and occupation windows of the gate reassignment engine: parsing "HH:MM",
 * reading the departure time out of a status text, the window a flight holds its
 * gate for, and the buffered test that decides whether two windows may share a gate.
 */
module GateTimes {
  import opened Outcomes
  import opened Strings

  /** Minimum gap, in minutes, between two windows on the same gate. */
  const BufferTime: int := 30
  /** Minutes a flight holds its gate before departure. */
  const OccupationBefore: int := 30
  /** Minutes a flight holds its gate after departure. */
  const OccupationAfter: int := 30

  /**
   * `hours, minutes = t.split(':')` followed by `int()` of both pieces: it succeeds
   * exactly when the text splits into two pieces that are both integer literals.
   * Any other text raises ValueError, here None. Both `time_to_minutes` and the
   * request handler's check of a new time read a clock this way.
   */
  function ClockValue(t: string): (r: Option<(int, int)>)
    ensures r.Some? <==> |Split(t, ':')| == 2 && IsIntLiteral(Split(t, ':')[0]) && IsIntLiteral(Split(t, ':')[1])
    ensures r.Some? ==> r.value == (LiteralValue(Split(t, ':')[0]), LiteralValue(Split(t, ':')[1]))
    ensures r.Some? ==> Occurrences(t, ':') == 1
  {
    var parts := Split(t, ':');
    if |parts| != 2 then None
    else
      match (ParseInt(parts[0]), ParseInt(parts[1]))
      case (Some(h), Some(m)) => Some((h, m))
      case _ => None
  }

  /**
   * `time_to_minutes`: the text must split on ':' into exactly two integers h and m,
   * and the value is h * 60 + m; there is no range check. Anything else is the
   * ValueError the source raises, here None.
   */
  function TimeToMinutes(t: string): (r: Option<int>)
    ensures r.Some? <==> |Split(t, ':')| == 2 && IsIntLiteral(Split(t, ':')[0]) && IsIntLiteral(Split(t, ':')[1])
    ensures r.Some? ==> r.value == 60 * LiteralValue(Split(t, ':')[0]) + LiteralValue(Split(t, ':')[1])
  {
    match ClockValue(t)
    case Some((h, m)) => Some(h * 60 + m)
    case None => None
  }

  lemma ShowIntHasNo(n: int, c: char)
    requires !IsDigit(c) && c != '-'
    ensures c !in ShowInt(n)
  {
    var s := ShowInt(n);
    forall k | 0 <= k < |s|
      ensures s[k] != c
    {
      if n < 0 && k > 0 {
        assert s[k] == ShowNat(-n)[k - 1];
      }
    }
  }

  /** Any pair of integers written as "h:m" reads back as h * 60 + m, out-of-range values included. */
  lemma {:induction false} TimeToMinutesOfShown(h: int, m: int)
    ensures TimeToMinutes(ShowInt(h) + ":" + ShowInt(m)) == Some(h * 60 + m)
  {
    var parts := [ShowInt(h), ShowInt(m)];
    ShowIntHasNo(h, ':');
    ShowIntHasNo(m, ':');
    SplitJoin(parts, ':');
    assert parts[1..] == [ShowInt(m)];
    assert Join(parts, ':') == ShowInt(h) + ":" + ShowInt(m);
    ParseShowInt(h);
    ParseShowInt(m);
  }

  /** The zero-padded clock "HH:MM" of an hour and a minute below 100 reads back as HH * 60 + MM. */
  lemma {:induction false} TimeToMinutesOfClock(h: nat, m: nat)
    requires h < 100 && m < 100
    ensures TimeToMinutes(Pad2(h) + ":" + Pad2(m)) == Some(h * 60 + m)
  {
    var parts := [Pad2(h), Pad2(m)];
    assert ':' !in Pad2(h) && ':' !in Pad2(m);
    SplitJoin(parts, ':');
    assert parts[1..] == [Pad2(m)];
    assert Join(parts, ':') == Pad2(h) + ":" + Pad2(m);
    assert ParseInt(Pad2(h)) == Some(h) by { assert IsDigit(Pad2(h)[0]); }
    assert ParseInt(Pad2(m)) == Some(m) by { assert IsDigit(Pad2(m)[0]); }
  }

  /** The docstring's example: "01:30" is 90 minutes. */
  lemma TimeToMinutesExample()
    ensures TimeToMinutes("01:30") == Some(90)
  {
    TimeToMinutesOfClock(1, 30);
    assert Pad2(1) + ":" + Pad2(30) == "01:30";
  }

  /**
   * `extract_departure_time`: the second space-separated piece of the status
   * ("Dep 14:30" gives "14:30"), or "00:00" when the status has no space.
   */
  function ExtractDepartureTime(status: string): (t: string)
    ensures Occurrences(status, ' ') == 0 ==> t == "00:00"
    ensures Occurrences(status, ' ') > 0 ==> ' ' !in t
  {
    var parts := Split(status, ' ');
    if |parts| >= 2 then parts[1] else "00:00"
  }

  /** A status "<word> <time> ..." yields its time piece. */
  lemma {:induction false} ExtractDepartureTimeOf(word: string, time: string, more: seq<string>)
    requires ' ' !in word && ' ' !in time
    requires forall k :: 0 <= k < |more| ==> ' ' !in more[k]
    ensures ExtractDepartureTime(Join([word, time] + more, ' ')) == time
  {
    var parts := [word, time] + more;
    forall k | 0 <= k < |parts|
      ensures ' ' !in parts[k]
    {
      if k >= 2 {
        assert parts[k] == more[k - 2];
      }
    }
    SplitJoin(parts, ' ');
  }

  /** The interval, in minutes since midnight, during which a flight holds its gate. */
  datatype Window = Window(start: int, end: int)

  /** Departure minus 30 to departure plus 30, both on load and after a delay. */
  function OccupationWindow(departure: int): (w: Window)
    ensures w.end - w.start == OccupationBefore + OccupationAfter == 60
    ensures w.start < departure < w.end
  {
    Window(departure - OccupationBefore, departure + OccupationAfter)
  }

  /**
   * `check_time_overlap`: whether two windows are too close to share a gate, and
   * the gap (when one ends before the other starts) or the overlap length.
   */
  function CheckTimeOverlap(start1: int, end1: int, start2: int, end2: int, buffer: int): (r: (bool, Option<int>))
    ensures r.0 <==> r.1.Some?
    // Windows that are separated conflict exactly when their gap is below the buffer,
    // and the magnitude reported is that gap.
    ensures end1 <= start2 ==> (r.0 <==> start2 - end1 < buffer) && (r.0 ==> r.1.value == start2 - end1)
    ensures start2 < end1 && end2 <= start1 ==> (r.0 <==> start1 - end2 < buffer) && (r.0 ==> r.1.value == start1 - end2)
    // Overlapping windows always conflict, and the magnitude is the positive length of the overlap.
    ensures start2 < end1 && start1 < end2 ==> r.0 && r.1.value == Min(end1, end2) - Max(start1, start2)
    ensures start2 < end1 && start1 < end2 && start1 < end1 && start2 < end2 ==> r.1.value > 0
  {
    if end1 <= start2 then
      var interval := start2 - end1;
      if interval < buffer then (true, Some(interval)) else (false, None)
    else if end2 <= start1 then
      var interval := start1 - end2;
      if interval < buffer then (true, Some(interval)) else (false, None)
    else
      (true, Some(Min(end1, end2) - Max(start1, start2)))
  }

  function Min(a: int, b: int): int { if a <= b then a else b }
  function Max(a: int, b: int): int { if a <= b then b else a }

  /** Two windows are far enough apart: one ends at least `buffer` minutes before the other starts. */
  predicate Separated(w1: Window, w2: Window, buffer: int)
  {
    w1.end + buffer <= w2.start || w2.end + buffer <= w1.start
  }

  /**
   * For proper windows and a non-negative buffer, the conflict test is exactly
   * "not separated by the buffer", whichever window comes first.
   */
  lemma ConflictIffNotSeparated(w1: Window, w2: Window, buffer: int)
    requires w1.start < w1.end && w2.start < w2.end && buffer >= 0
    ensures CheckTimeOverlap(w1.start, w1.end, w2.start, w2.end, buffer).0 <==> !Separated(w1, w2, buffer)
  {
  }

  /** For proper windows the test does not depend on the order of its arguments. */
  lemma CheckTimeOverlapSymmetric(w1: Window, w2: Window, buffer: int)
    requires w1.start < w1.end && w2.start < w2.end
    ensures CheckTimeOverlap(w1.start, w1.end, w2.start, w2.end, buffer)
         == CheckTimeOverlap(w2.start, w2.end, w1.start, w1.end, buffer)
  {
  }

  /** Two 60-minute windows conflict under the 30-minute buffer exactly when their departures are under 90 minutes apart. */
  lemma DeparturesConflict(d1: int, d2: int)
    ensures var w1 := OccupationWindow(d1); var w2 := OccupationWindow(d2);
            CheckTimeOverlap(w1.start, w1.end, w2.start, w2.end, BufferTime).0 <==> -90 < d1 - d2 < 90
  {
  }
}
