# Gate reassignment engine and companion algorithms, in Dafny

This project models the flight-to-gate reassignment engine of an airport
gate-management service, and proves properties of that model. It also models
five small algorithms that sit beside the engine in the same repository.

**The engine** (`aae5103/project/gate_assignment_engine.py`) works on a flight
table. Each row holds a flight number, a scheduled time, a status text such as
"Dep 14:30", a gate, a departure time, and an occupation window. The window runs
from 30 minutes before departure to 30 minutes after it. The engine receives a
perturbation event: gates to close, flights to delay, and a force flag. It then:

- applies the event to a working copy of the table;
- scans every gate for pairs of flights whose windows come within the 30-minute
  buffer of each other;
- works out which gates are unavailable;
- returns the identity assignment when there is nothing to do;
- otherwise posts a constraint model to a CP solver. The model requires one gate
  per flight, keeps clashing flights apart, bars the unavailable gates, and
  minimises the distance from each flight's original gate;
- projects the solver's answer onto one record per flight. A flight the answer
  leaves on an unavailable gate is repaired greedily;
- commits the new table and assignment only when some gate changed.

The engine's state is the committed table and the latest assignment. It is the
class `GateEngine.Engine`. The flight list the service shows is that table with
the latest assignment laid over it.

**The request handler** (`aae5103/project/app.py`, `reassign()`) checks a request
before the engine runs:

- it rejects an empty body;
- it rejects a delay entry without both keys, or with a time that is not a valid
  `HH:MM` of the day;
- it warns when nothing is requested;
- it answers directly when only closures are requested and none of the closed
  gates hosts a flight;
- otherwise it calls the engine with the force flag set.

**Departure preprocessing** (`aae5103/data_preprocessing.py`) parses
"Dep HH:MM (DD/MM/YYYY)" and "Cancelled" statuses. It computes the delay in whole
minutes, applying the next-day roll-over rules, and flags each row as delayed or
early.

**The other algorithms** are:

- **Apriori** (`comp5434/Apriori.py`): frequent items, candidate pairs, pair
  supports, frequent pairs and association rules;
- **the PCY first pass** (`comp5434/PCY.py`): item counts and eleven hash buckets
  of basket pairs, then the pair filter of the second pass;
- **the textbook RSA private exponent** (`eie553/rsa.py`): hexadecimal parsing,
  extended Euclid, and the inverse of e modulo φ = (p − 1)(q − 1);
- **the vocabulary and 0/1 characteristic matrix of a list of documents**
  (`comp5434/Characteristic_Matrix.py`).

The CP solver is a parameter of the engine: any function from a model to an
outcome. The engine, its methods and the handler are proved for every such
function. The theorems about the solver's answer assume `GateModel.SoundFor`,
which is the promise of a conforming solver. That promise is that a reported
solution meets every posted constraint, that an optimal one costs no more than
any other, and that "infeasible" means no solution exists.

Python behaviour is modelled explicitly where it matters:

- `int()` on decimal and hexadecimal text;
- `str.split` with and without a separator, `str.replace`, slicing, and string
  ordering;
- floored `//` and `%`;
- `datetime.strptime(t, '%H:%M')`;
- the leftmost match of `re.search`;
- exceptions, as `Option` and `Result` values. Each exception's cause is carried
  as the error value.

Files:

| file | what |
|---|---|
| `outcomes.dfy` | Option and Result |
| `strings.dfy` | Python string primitives |
| `gate_times.dfy` | `time_to_minutes`, `extract_departure_time`, windows, `check_time_overlap` |
| `gate_flights.dfy` | the flight table, closures, delays, the conflict scan, the flights on unavailable gates |
| `gate_model.dfy` | the CP model as posted, and the solver's contract |
| `gate_planning.dfy` | building the model from the table, and the projection with repair |
| `gate_engine.dfy` | `ReassignSpec`, the engine's state and methods, the overlay |
| `gate_theorems.dfy` | what one reassignment guarantees |
| `reassign_api.dfy` | the `reassign()` handler |
| `departure_status.dfy` | `parse_status`, `calculate_delay`, the row columns |
| `itemsets.dfy` | Apriori |
| `pcy.dfy` | PCY |
| `rsa.dfy` | RSA private exponent |
| `characteristic_matrix.dfy` | vocabulary and characteristic matrix |

## Model

| member | source | states |
|---|---|---|
| Strings.ParseInt | aae5103/project/gate_assignment_engine.py:66-67 | `int(s)` succeeds iff s is an optional '+' or '-' followed by at least one digit; the value is the digits' decimal value, negated after '-'; an unsigned literal is non-negative |
| Strings.ParseShowInt | aae5103/project/gate_assignment_engine.py:67 | `int(str(n)) == n` for every integer, negative ones included |
| Strings.Split | aae5103/project/gate_assignment_engine.py:66 | `split(sep)` yields one more piece than there are separators; no piece holds the separator; joining the pieces gives back the text |
| Strings.SplitJoin | aae5103/project/gate_assignment_engine.py:66 | splitting the join of separator-free parts gives back the parts |
| Strings.Words | comp5434/Characteristic_Matrix.py:8 | `split()` yields non-empty words without whitespace; text that starts with a non-space starts its first word |
| Strings.WordsJoinWords | comp5434/Characteristic_Matrix.py:8 | `" ".join(ws).split() == ws` for non-empty, whitespace-free words |
| Strings.ReplaceAll | aae5103/project/gate_assignment_engine.py:490 | `str.replace` on the status: every non-overlapping occurrence, left to right; a replacement as long as the pattern keeps the status's length |
| Strings.ReplaceAllSelf | aae5103/project/gate_assignment_engine.py:490 | replacing a pattern by itself leaves the status unchanged |
| Strings.ReplaceAllAbsent | aae5103/project/gate_assignment_engine.py:490 | a non-empty pattern that does not occur leaves the status unchanged |
| Strings.Prefix | aae5103/data_preprocessing.py:13 | `s[:n]` is a prefix of s, of length n or all of a shorter s |
| Strings.LexLessIrreflexive | comp5434/Characteristic_Matrix.py:9 | no string sorts before itself |
| Strings.LexLessTransitive | comp5434/Characteristic_Matrix.py:9 | the string order used by `sorted` is transitive |
| Strings.LexLessTotal | comp5434/Characteristic_Matrix.py:9 | of two different strings, one sorts first |
| Strings.LexLessAsymmetric | comp5434/Characteristic_Matrix.py:9 | two strings never sort before each other |
| GateTimes.ClockValue | aae5103/project/app.py:128-130 | `t.split(':')` unpacked into two `int()`s succeeds iff t splits into exactly two pieces that are both integer literals, and gives their values; such a t holds exactly one ':' |
| GateTimes.TimeToMinutes | aae5103/project/gate_assignment_engine.py:51-70 | a time converts iff it splits on ':' into exactly two integer literals h and m (otherwise ValueError), and its value is 60 * h + m |
| GateTimes.TimeToMinutesOfShown | aae5103/project/gate_assignment_engine.py:66-67 | any "h:m" of two integers converts to h * 60 + m; there is no range check |
| GateTimes.TimeToMinutesOfClock | aae5103/project/gate_assignment_engine.py:51-70 | a zero-padded "HH:MM" converts to HH * 60 + MM |
| GateTimes.TimeToMinutesExample | aae5103/project/gate_assignment_engine.py:62 | "01:30" converts to 90 |
| GateTimes.ExtractDepartureTime | aae5103/project/gate_assignment_engine.py:207-212 | a status without a space gives "00:00"; otherwise the result is a space-free piece |
| GateTimes.ExtractDepartureTimeOf | aae5103/project/gate_assignment_engine.py:209 | a status "word time ..." yields exactly its time piece |
| GateTimes.OccupationWindow | aae5103/project/gate_assignment_engine.py:218-219 | the window lasts 60 minutes and strictly contains the departure |
| GateTimes.CheckTimeOverlap | aae5103/project/gate_assignment_engine.py:329-368 | a magnitude comes exactly with a conflict. Separated windows, in either order, conflict iff their gap is below the buffer, and the gap is reported. Overlapping windows always conflict, with the positive overlap length |
| GateTimes.ConflictIffNotSeparated | aae5103/project/gate_assignment_engine.py:352-368 | for proper windows and a non-negative buffer, a conflict is exactly "not separated by the buffer" |
| GateTimes.CheckTimeOverlapSymmetric | aae5103/project/gate_assignment_engine.py:352-368 | swapping two proper windows gives the same answer |
| GateTimes.DeparturesConflict | aae5103/project/gate_assignment_engine.py:42-45 | two flights' windows conflict exactly when their departures are under 90 minutes apart |
| GateFlights.LoadFlight | aae5103/project/gate_assignment_engine.py:207-219 | a loaded row keeps its number, gate and status, and gets a 60-minute window |
| GateFlights.LoadFlights | aae5103/project/gate_assignment_engine.py:215-219 | the table loads iff every row's departure time converts; row k is row k loaded |
| GateFlights.LoadFlightTimed | aae5103/project/gate_assignment_engine.py:218-219 | a loaded row's window is its departure time's occupation window |
| GateFlights.LoadFlightsTimed | aae5103/project/gate_assignment_engine.py:215-219 | every row of a loaded table is timed |
| GateFlights.LoadFlightOfClock | aae5103/project/gate_assignment_engine.py:207-219 | "Dep HH:MM ..." loads with deptime "HH:MM" and the window from HH:MM − 30 to HH:MM + 30 |
| GateFlights.KnownGates | aae5103/project/gate_assignment_engine.py:464-470 | the kept closures are exactly the requested names that are known gates |
| GateFlights.FilterKnownGates | aae5103/project/gate_assignment_engine.py:464-470 | the filter loop computes the kept closures in request order |
| GateFlights.FirstWithNo | aae5103/project/gate_assignment_engine.py:481-484 | the first row carrying a flight number, or None iff no row carries it |
| GateFlights.FindFirstWithNo | aae5103/project/gate_assignment_engine.py:481-484 | the row scan finds that first row |
| GateFlights.Retime | aae5103/project/gate_assignment_engine.py:487-497 | a delayed row keeps its number and gate, takes the new time as time and deptime, gets the new time's window (so stays timed), and keeps its status when the time is unchanged |
| GateFlights.Retimed | aae5103/project/gate_assignment_engine.py:481-497 | every row keeps its number and gate; rows of other flights are untouched; rows of the delayed flight take the new deptime |
| GateFlights.ApplyDelay | aae5103/project/gate_assignment_engine.py:479-501 | one delay fails iff its flight is known and its new time does not convert, and the failure carries that time; otherwise the table keeps its length |
| GateFlights.ApplyDelays | aae5103/project/gate_assignment_engine.py:476-501 | a failure carries the new time of one of the delays, a time that does not convert; a success keeps the table's length |
| GateFlights.ApplyDelayUnknown | aae5103/project/gate_assignment_engine.py:479-501 | a delay for a flight number no row carries changes nothing |
| GateFlights.ApplyDelayKnown | aae5103/project/gate_assignment_engine.py:481-497 | a known flight with a valid new time gets the new time, deptime, status and window on all its rows; number and gate stay; every other row is untouched |
| GateFlights.ApplyDelayKeepsShape | aae5103/project/gate_assignment_engine.py:487-497 | one delay keeps every row timed, and keeps every row's number and gate |
| GateFlights.ApplyDelaysKeepShape | aae5103/project/gate_assignment_engine.py:476-501 | any list of delays keeps every row timed, and keeps every row's number and gate |
| GateFlights.ApplyDelaysUnknown | aae5103/project/gate_assignment_engine.py:476-501 | delays for flights nobody flies leave the table as it was |
| GateFlights.ApplyDelaysErrStays | aae5103/project/gate_assignment_engine.py:476-501 | once a delay's new time fails to convert, the whole event application fails with that time |
| GateFlights.RetimeRows | aae5103/project/gate_assignment_engine.py:487-497 | the row loop rewrites exactly the delayed flight's rows |
| GateFlights.ApplyDelayTo | aae5103/project/gate_assignment_engine.py:481-501 | one delay applied to the working table, as `ApplyDelay` specifies |
| GateFlights.ApplyDelaysTo | aae5103/project/gate_assignment_engine.py:476-501 | the delay loop computes `ApplyDelays`, stopping at the first bad time |
| GateFlights.RowPairs | aae5103/project/gate_assignment_engine.py:524-541 | the pairs (i, k) with k below j that lie on the gate and clash, and no others |
| GateFlights.Clash | aae5103/project/gate_assignment_engine.py:529-534 | two rows with proper windows clash iff neither window ends at least the 30-minute buffer before the other starts |
| GateFlights.PairsBefore | aae5103/project/gate_assignment_engine.py:523-541 | the clashing pairs on the gate whose first row is below i, and no others |
| GateFlights.ClashPairs | aae5103/project/gate_assignment_engine.py:523-541 | exactly the pairs i < k of rows on the gate whose windows conflict |
| GateFlights.CollectRow | aae5103/project/gate_assignment_engine.py:524-541 | the inner loop collects the clashing partners of row i in order |
| GateFlights.CollectPairs | aae5103/project/gate_assignment_engine.py:523-541 | the nested loop collects every clashing pair on the gate in loop order |
| GateFlights.ConflictTable | aae5103/project/gate_assignment_engine.py:514-544 | a gate is listed iff it is in the gate list and two of its rows clash; it is listed once, with all of its clashing pairs |
| GateFlights.ScanConflicts | aae5103/project/gate_assignment_engine.py:514-544 | the scan over the gate list builds that table |
| GateFlights.NumbersOn | aae5103/project/gate_assignment_engine.py:565-567 | no numbers iff no row is on the gate |
| GateFlights.FlightsOn | aae5103/project/gate_assignment_engine.py:563-569 | `flights_to_reassign` is empty iff no row sits on an unavailable gate |
| GateFlights.CollectFlightsOn | aae5103/project/gate_assignment_engine.py:563-569 | the loop collects those numbers, gate by gate |
| GateModel.AssignedCountIsOneInRange | aae5103/project/gate_assignment_engine.py:607-608 | the sum of a flight's 0/1 variables is 1 exactly when its gate variable is in range |
| GateModel.PostedIffSatisfies | aae5103/project/gate_assignment_engine.py:598-661 | the posted 0/1 constraints accept exactly the answers with one gate per flight in range, clashing pairs apart, and no closed gate |
| GateModel.RowTermPicks | aae5103/project/gate_assignment_engine.py:670-674 | a flight's objective terms sum to the cost of the gate it is on |
| GateModel.PostedObjectiveIsCost | aae5103/project/gate_assignment_engine.py:665-682 | the posted objective equals the total relocation cost of the answer |
| GatePlanning.GateIndex | aae5103/project/gate_assignment_engine.py:451 | the index of a known name holds that name and is its last occurrence; None iff the name is unknown |
| GatePlanning.GateIndexDistinct | aae5103/project/gate_assignment_engine.py:451 | in a list without repeats, the index of the name at v is v |
| GatePlanning.FindGateIndex | aae5103/project/gate_assignment_engine.py:451 | the enumeration that builds the dict yields that index |
| GatePlanning.FirstUnknownGate | aae5103/project/gate_assignment_engine.py:454 | None iff every row's gate is known; otherwise an unknown gate some row sits on |
| GatePlanning.ClosedIndices | aae5103/project/gate_assignment_engine.py:649-661 | every posted closed index names an unavailable gate, and every known unavailable gate is posted |
| GatePlanning.CostRows | aae5103/project/gate_assignment_engine.py:665-674 | cost row i is the distance row of flight i's original gate |
| GatePlanning.ModelOf | aae5103/project/gate_assignment_engine.py:590-682 | building the model fails iff some row's gate is unknown; otherwise the model is well formed, with one variable per flight and one gate per name |
| GatePlanning.BuildModel | aae5103/project/gate_assignment_engine.py:590-682 | the constraint-posting loops build `ModelOf` |
| GatePlanning.ModelOfMeaning | aae5103/project/gate_assignment_engine.py:595-661 | with distinct gate names, the posted model accepts exactly the admissible answers |
| GatePlanning.CostIsRelocation | aae5103/project/gate_assignment_engine.py:665-682 | the model's cost of an answer is the summed distance from each flight's original gate to its new one |
| GatePlanning.FirstFree | aae5103/project/gate_assignment_engine.py:724-745 | the repair's gate is the first in list order that is available and has no clashing other flight recorded on it; None iff no gate is |
| GatePlanning.FindAlternative | aae5103/project/gate_assignment_engine.py:724-748 | the repair loop finds that gate |
| GatePlanning.ChosenGate | aae5103/project/gate_assignment_engine.py:707-717 | the answer gives flight i a gate iff its value is in range, and then the gate named at that value |
| GatePlanning.ProjectStep | aae5103/project/gate_assignment_engine.py:702-767 | a round without a chosen gate skips the flight; otherwise it produces flight i's record (its number, original gate and time) and writes the record's gate into row i only |
| GatePlanning.ProjectStepRepairs | aae5103/project/gate_assignment_engine.py:719-748 | the gate a round records is settled as the repair does: an available chosen gate is kept, an unavailable one becomes the first eligible gate, or stays when there is none |
| GatePlanning.Project | aae5103/project/gate_assignment_engine.py:702-767 | n rounds keep the table's length and give at most n records |
| GatePlanning.RepairedAsMeans | aae5103/project/gate_assignment_engine.py:719-748 | a flight moved off an unavailable gate lands on a known, available gate where it clashes with no other flight recorded there; a flight left on an unavailable gate is on the answer's gate and no gate was eligible |
| GatePlanning.ProjectCount | aae5103/project/gate_assignment_engine.py:702-767 | an answer with every value in range gives one record per flight |
| GatePlanning.ProjectLast | aae5103/project/gate_assignment_engine.py:702-767 | round k appends flight k's record, settled by the repair against the table the earlier rounds left, and writes its gate into row k |
| GatePlanning.ProjectRoundKeeps | aae5103/project/gate_assignment_engine.py:702-767 | a round leaves every earlier record and every earlier row as it was |
| GatePlanning.ProjectKeepsEarlier | aae5103/project/gate_assignment_engine.py:702-767 | after round k, later rounds never change record k or row k |
| GatePlanning.ProjectRepairs | aae5103/project/gate_assignment_engine.py:702-767 | for an answer with every value in range, record k is flight k's, row k carries record k's gate, and that gate is settled by the repair against the table as the loop found it at round k |
| GatePlanning.ProjectRewritesGatesOnly | aae5103/project/gate_assignment_engine.py:758 | the projection changes only gates, and never touches a row not yet visited |
| GatePlanning.ProjectFaithful | aae5103/project/gate_assignment_engine.py:702-767 | an answer with every flight on an available gate in range gives one record per flight, in order, with the answer's gate, which is written into the row |
| GatePlanning.ProjectAnswer | aae5103/project/gate_assignment_engine.py:697-773 | the projection loop computes `Project`, and reports a change iff some record moves its flight |
| GateEngine.Unavailable | aae5103/project/gate_assignment_engine.py:457-558 | when closures were requested, the unavailable gates are exactly the requested names that are known gates; when none were, exactly the known gates on which two flights clash |
| GateEngine.TakesShortcut | aae5103/project/gate_assignment_engine.py:572-575 | the shortcut is taken only when no flight sits on an unavailable gate or no flight is delayed; it is never taken with unavailable gates under force; without it, some gate is unavailable or some flight delayed |
| GateEngine.ReassignSpec | aae5103/project/gate_assignment_engine.py:370-802 | a commit carries exactly the reported records and happens iff they move some flight; the shortcut and failures commit nothing; the shortcut keeps every gate; a bad delay time fails only when applying the delays fails |
| GateEngine.IdentityRecords | aae5103/project/gate_assignment_engine.py:578-585 | record k carries flight k's number, gate and departure time, with the new gate equal to the original, so no record moves its flight |
| GateEngine.ReportedObjective | aae5103/project/gate_assignment_engine.py:786 | a zero objective is reported as None, any other is reported |
| GateEngine.OverlayGateLast | aae5103/project/gate_assignment_engine.py:310-314 | the last record carrying the flight's number decides its shown gate |
| GateEngine.OverlayGateNone | aae5103/project/gate_assignment_engine.py:308-315 | a flight without a record keeps its gate |
| GateEngine.OverlayGate | aae5103/project/gate_assignment_engine.py:307-313 | the shown gate is the flight's own, or the new gate of some record carrying its number |
| GateEngine.Overlay | aae5103/project/gate_assignment_engine.py:290-313 | one entry per row, with its number, time and deptime; without an assignment every row shows its own gate |
| GateEngine.UnavailableGates | aae5103/project/gate_assignment_engine.py:457-558 | the closure filter, or the conflict gates when nothing was closed, computed as `Unavailable` |
| GateEngine.IdentityAssignment | aae5103/project/gate_assignment_engine.py:578-587 | the shortcut loop builds the identity records |
| GateEngine.ComputePlan | aae5103/project/gate_assignment_engine.py:370-802 | the steps of `reassign_gates` compute `ReassignSpec` for any solver |
| GateEngine.RegatedTimed | aae5103/project/gate_assignment_engine.py:758 | moving rows to other gates keeps them timed |
| GateEngine.CommitIsProjection | aae5103/project/gate_assignment_engine.py:770-773 | a commit means the delays applied and the model was built, and what is committed is the projection of the solver's answer onto the delayed table |
| GateEngine.ReassignKeepsTimed | aae5103/project/gate_assignment_engine.py:770-773 | a committed table is timed and holds the same rows, with the same flight numbers, as the table before |
| GateEngine.Engine.constructor | aae5103/project/gate_assignment_engine.py:48-49 | the engine starts with the loaded table and no assignment |
| GateEngine.Engine.Reassign | aae5103/project/gate_assignment_engine.py:370-802 | returns the outcome of `ReassignSpec`; on a commit, the state becomes the committed table and records; otherwise nothing changes; the state stays valid |
| GateEngine.Engine.CurrentFlights | aae5103/project/gate_assignment_engine.py:308-315 | the flight list is the committed table with the latest assignment laid over it |
| GateTheorems.ConflictTableEmpty | aae5103/project/gate_assignment_engine.py:514-544 | a table without clashes on any gate yields an empty conflict scan |
| GateTheorems.QuietEventKeepsGates | aae5103/project/gate_assignment_engine.py:574-587 | an event with no closure and no delay, on a clash-free table, keeps every gate and commits nothing |
| GateTheorems.IdleClosuresKeepGates | aae5103/project/gate_assignment_engine.py:574-587 | closures that host no flight, without delay or force, keep every gate and commit nothing |
| GateTheorems.ReassignSound | aae5103/project/gate_assignment_engine.py:697-787 | a sound solved answer needs no repair. It gives one record per flight, in order, with the solver's gate. No flight is on an unavailable gate, and no clashing pair shares a gate. The commit happens iff some gate changed |
| GateTheorems.ReassignOptimal | aae5103/project/gate_assignment_engine.py:665-693 | a sound optimal answer is admissible, and no admissible assignment relocates the flights less |
| GateTheorems.ReassignInfeasible | aae5103/project/gate_assignment_engine.py:788-791 | a sound "infeasible" verdict fails without commit, and no admissible assignment exists |
| GateTheorems.OverlayAfterCommit | aae5103/project/gate_assignment_engine.py:308-315 | after a commit, with unique flight numbers, the flight list shows each flight on its committed gate |
| GateTheorems.ProjectOverlay | aae5103/project/gate_assignment_engine.py:308-315 | laying a projection's records over its own table shows the table's gates |
| GateTheorems.ApplyDelaysKeepUnique | aae5103/project/gate_assignment_engine.py:476-501 | delays keep flight numbers unique |
| ReassignApi.HttpStatus | aae5103/project/app.py:103-146 | the status is 400 exactly for rejections and the "nothing requested" warning |
| ReassignApi.ValidClockMinutes | aae5103/project/app.py:127-138 | a time the handler accepts converts in the engine to its hour * 60 + minute, a minute of the day |
| ReassignApi.ValidClockOfClock | aae5103/project/app.py:127-134 | every zero-padded "HH:MM" of the day is accepted, with its hour and minute |
| ReassignApi.EntryProblem | aae5103/project/app.py:120-138 | an entry has no problem iff it has both keys and an accepted time |
| ReassignApi.Validation | aae5103/project/app.py:120-138 | the entries pass iff every entry has no problem |
| ReassignApi.ValidationFirst | aae5103/project/app.py:120-138 | the rejection is the problem of the first bad entry |
| ReassignApi.ValidateDelays | aae5103/project/app.py:120-138 | the validation loop, with its early return, computes `Validation` |
| ReassignApi.ToDelays | aae5103/project/app.py:171-175 | the engine receives the entries' numbers and times, in request order |
| ReassignApi.ValidatedDelaysApply | aae5103/project/app.py:127-138 | delays whose times the handler accepted never fail the engine's delay step |
| ReassignApi.OneBadEntryRejects | aae5103/project/app.py:120-138 | one bad entry rejects the whole request, and the engine is not called |
| ReassignApi.EngineCallsAreValid | aae5103/project/app.py:171-180 | the engine is called with force set and something requested. Every new time is a minute of the day, and the delay step cannot fail. The shortcut is taken only when no gate is unavailable and no flight is delayed |
| ReassignApi.Changes | aae5103/project/app.py:189 | the reported changes are exactly the records that move their flight |
| ReassignApi.ChangesIffCommit | aae5103/project/app.py:189 | the engine commits exactly when the handler has changes to report |
| ReassignApi.GatesWithFlights | aae5103/project/app.py:154-159 | the closed gates some shown flight sits on; empty iff no shown flight is on a closed gate |
| ReassignApi.DelaysOf | aae5103/project/app.py:171-175 | the validated entries, turned into the engine's delays |
| ReassignApi.Decide | aae5103/project/app.py:103-180 | an empty body is rejected first; then the first bad entry; then an empty request is warned about; then closures only, hosting no flight, are answered directly; the engine is called only after all of these, with the body's closures, its entries as delays and force set |
| ReassignApi.HandleReassign | aae5103/project/app.py:98-200 | the reply is the handler's own answer, with the engine unchanged, or the engine's outcome for the forced event, with the engine's commit applied |
| DepartureStatus.FirstDep | aae5103/data_preprocessing.py:25 | the leftmost position at or after `from` where "Dep HH:MM" starts, or None iff there is none |
| DepartureStatus.SkipSpace | aae5103/data_preprocessing.py:24 | `\s*` stops at the first non-whitespace character |
| DepartureStatus.ParseStatus | aae5103/data_preprocessing.py:16-41 | "Cancelled" gives no time, cancelled, and not next day. Without a match there is no time and no flag. On a match the time has the shape HH:MM |
| DepartureStatus.ParseStatusFirstMatch | aae5103/data_preprocessing.py:24-41 | the leftmost match's time is reported; next day iff a bracketed date follows it after optional whitespace |
| DepartureStatus.ParseRenderedStatus | aae5103/data_preprocessing.py:24-41 | "Dep HH:MM" parses to that time, on the same day |
| DepartureStatus.ParseRenderedStatusWithDate | aae5103/data_preprocessing.py:24-41 | "Dep HH:MM (DD/MM/YYYY)" parses to that time, on the next day |
| DepartureStatus.ClockField | aae5103/data_preprocessing.py:53-54 | a `%H`/`%M` field is accepted iff it is one or two digits with a value at most the maximum, and reads as that decimal value |
| DepartureStatus.Strptime | aae5103/data_preprocessing.py:53-54 | `%H:%M` accepts exactly two ':'-separated fields, an hour up to 23 and a minute up to 59 of one or two digits each, and gives their decimal values |
| DepartureStatus.StrptimeOneDigitHour | aae5103/data_preprocessing.py:53-54 | a one-digit hour is accepted: "9:05" reads as (9, 5) |
| DepartureStatus.StrptimeOfClock | aae5103/data_preprocessing.py:53-54 | every zero-padded time of the day reads back as itself |
| DepartureStatus.CalculateDelay | aae5103/data_preprocessing.py:49-65 | no delay iff the row is cancelled or has no actual time. A bad clock is an error, the scheduled time blamed first. Otherwise the delay is the actual minute of the day, plus 1440 when the time rolls over (a date in the status, or actual hour < 4 with scheduled hour > 20), minus the scheduled minute of the day |
| DepartureStatus.RolledOverIsLate | aae5103/data_preprocessing.py:56-59 | a departure rolled over to the next day is at least a minute late |
| DepartureStatus.OvernightDelayBound | aae5103/data_preprocessing.py:58-59 | the overnight rule alone yields a delay between 1 minute and 7 hours |
| DepartureStatus.SameDayDelay | aae5103/data_preprocessing.py:61-65 | without a roll-over the delay is under a day in size, and negative iff the actual clock is earlier |
| DepartureStatus.DatedStatusDelay | aae5103/data_preprocessing.py:56-62 | a status "Dep HH:MM (DD/MM/YYYY)" always counts the actual time on the next day: delay = actual + 1440 − scheduled |
| DepartureStatus.DatedStatusExample | aae5103/data_preprocessing.py:56-62 | scheduled 10:00 with "Dep 11:00 (02/03/2023)" gives a delay of 1500 minutes |
| DepartureStatus.ProcessRow | aae5103/data_preprocessing.py:13-80 | a row fails iff `calculate_delay` raises, with its error. Otherwise the airline is the first two characters of the number, date and time are kept, the actual time and cancelled flag are `parse_status`'s, the delay is `calculate_delay`'s, early iff the delay is negative, delayed iff the delay is at least 30 and the row is not cancelled |
| DepartureStatus.ClassificationConsistent | aae5103/data_preprocessing.py:67-80 | no row is both delayed and early; a cancelled row has no delay and neither flag; an early row did not roll over by date; delayed iff not cancelled and at least 30 minutes late; early iff the delay is negative |
| DepartureStatus.CollectAllOk | aae5103/data_preprocessing.py:67 | the rows collect iff each one succeeds, and then in order |
| DepartureStatus.PreprocessRowByRow | aae5103/data_preprocessing.py:7-82 | the table succeeds iff it has rows and every row does, and then row k is row k processed |
| DepartureStatus.PreprocessFirstError | aae5103/data_preprocessing.py:67 | the error reported is the first failing row's time error |
| DepartureStatus.Preprocess | aae5103/data_preprocessing.py:7-82 | a table without rows fails (the ValueError of storing `apply`'s empty frame as a column, line 43); otherwise the table is processed iff every row is, with one row per input row |
| DepartureStatus.PreprocessRows | aae5103/data_preprocessing.py:7-82 | the row loop, after the empty-table check, computes `Preprocess` |
| Itemsets.Support | comp5434/Apriori.py:15 | an item's count, in Apriori and in PCY's first pass, is at most the number of baskets |
| Itemsets.SupportOfSet | comp5434/Apriori.py:25 | an itemset's count is at most the number of baskets |
| Itemsets.SupportOfSetAtMostItem | comp5434/Apriori.py:25 | an itemset is in no more baskets than any of its items |
| Itemsets.SupportAntitone | comp5434/Apriori.py:25 | a larger itemset is in no more baskets (the Apriori principle) |
| Itemsets.Items | comp5434/Apriori.py:13 | the union of the baskets is exactly the items with positive count |
| Itemsets.FrequentItems | comp5434/Apriori.py:11-17 | None iff there is no basket; otherwise exactly the items present at least `min_support` times, with their counts |
| Itemsets.CandidatesArePairs | comp5434/Apriori.py:19-21 | the candidates are exactly the two-element subsets of the input |
| Itemsets.GenerateCandidates | comp5434/Apriori.py:19-21 | every candidate is a subset of the input with one or two members |
| Itemsets.CountItemsets | comp5434/Apriori.py:23-26 | the keys are exactly the candidates, and each candidate's count is the number of baskets holding all of it (at most the number of baskets) |
| Itemsets.FrequentPairs | comp5434/Apriori.py:49 | exactly the candidates counted at least `min_support` times, with their counts |
| Itemsets.AprioriExact | comp5434/Apriori.py:39-49 | for a positive threshold, the frequent pairs are exactly the two-item sets held by at least `min_support` baskets, with that count |
| Itemsets.Apriori | comp5434/Apriori.py:39-49 | None iff there is no basket; every frequent pair is made of frequent items and carries its basket count, at least the threshold |
| Itemsets.GenerateRules | comp5434/Apriori.py:28-37 | the rules are exactly one per direction of a frequent pair, with confidence count / item count at least the minimum, and none repeated |
| Itemsets.RulesOfPair | comp5434/Apriori.py:31-36 | the inner loop adds exactly the confident directions of one pair |
| Itemsets.RatioAtMostOne | comp5434/Apriori.py:34 | a positive count over a count at least as large lies in (0, 1] |
| Itemsets.RuleConfidence | comp5434/Apriori.py:34-36 | on apriori's own maps a rule's confidence is pair support over antecedent support, in (0, 1] |
| Itemsets.AprioriRulesDefined | comp5434/Apriori.py:39-56 | apriori's own maps never make the rule step divide by zero or look up a missing item |
| Pcy.HashPair | comp5434/PCY.py:14-15 | the bucket always lies in [0, 11) |
| Pcy.Pairs | comp5434/PCY.py:25-27 | exactly the pairs i < j of basket members |
| Pcy.CountItems | comp5434/PCY.py:21-23 | one basket adds one to the count of each of its items, starting from 0 for a new item, and leaves every other count as it was |
| Pcy.CountPair | comp5434/PCY.py:28-29 | one pair adds one to its own bucket, and one to the total |
| Pcy.BucketTotal | comp5434/PCY.py:25-29 | a bucket index outside [0, 11) holds nothing |
| Pcy.CountPairsWith | comp5434/PCY.py:26-29 | the inner loop counts every pair (i, j) with i < j of the basket |
| Pcy.CountPairs | comp5434/PCY.py:25-29 | each bucket grows by the basket's pairs hashed to it, and the total grows by the number of pairs |
| Pcy.FirstPass | comp5434/PCY.py:17-31 | item counts are basket counts. There are exactly 11 buckets, each holding the pairs hashed to it, and they sum to the number of pairs |
| Pcy.SecondPass | comp5434/PCY.py:43-48 | without KeyError, a pair 1 ≤ i < j ≤ 6 is selected iff both counts and its bucket reach 4, in loop order; a KeyError names a missing item and happens only if one is missing |
| Pcy.Selected | comp5434/PCY.py:45-47 | the second-pass test does not depend on the order of the pair |
| Pcy.FrequentPairSelected | comp5434/PCY.py:43-48 | a pair held by at least 4 baskets is always selected: PCY loses no frequent pair |
| Pcy.PairSupportBounds | comp5434/PCY.py:43-48 | a pair's support is at most either item's count and at most its bucket's count |
| Rsa.HexToInt | eie553/rsa.py:1-2 | `int(s, 16)` succeeds iff s is an optional sign and at least one hex digit; an unsigned one is its digit value |
| Rsa.HexValue | eie553/rsa.py:1-2 | n hex digits denote a value below 16^n |
| Rsa.ShowHex | eie553/rsa.py:37 | upper-case hex digits without a leading zero |
| Rsa.HexValueOfShowHex | eie553/rsa.py:37 | rendering then reading back a number gives it |
| Rsa.HexToIntOfShowHex | eie553/rsa.py:37 | `int(hex(d)[2:].upper(), 16) == d` |
| Rsa.PublicExponentValue | eie553/rsa.py:24 | the public exponent "0D88C3" is 886979 |
| Rsa.FloorMod | eie553/rsa.py:9 | Python's `%` takes the divisor's sign, and b == a * (b // a) + b % a |
| Rsa.FloorDiv | eie553/rsa.py:9 | Python's `//` rounds toward negative infinity: a * q ≤ b < a * q + a for a positive divisor, and the mirror image for a negative one |
| Rsa.BezoutStep | eie553/rsa.py:9-10 | the back-substitution keeps the Bézout identity |
| Rsa.ExtendedGcd | eie553/rsa.py:5-11 | `extended_gcd(0, b)` is (b, 0, 1); a*x + b*y == g always; g ≥ 0 for non-negative arguments |
| Rsa.ExtendedGcdDivides | eie553/rsa.py:5-11 | g divides both arguments |
| Rsa.CommonDivisorDividesGcd | eie553/rsa.py:5-11 | every common divisor divides g |
| Rsa.ExtendedGcdIsGcd | eie553/rsa.py:5-11 | for non-negative arguments g is the greatest common divisor |
| Rsa.Phi | eie553/rsa.py:27 | φ is positive for primes of at least 2 |
| Rsa.ModInverse | eie553/rsa.py:14-19 | it raises iff gcd ≠ 1, divides by zero iff gcd = 1 and φ = 0, and otherwise lies in [0, φ) for positive φ |
| Rsa.ModInverseIsInverse | eie553/rsa.py:18-19 | φ divides e*d − 1 |
| Rsa.InverseNeedsCoprime | eie553/rsa.py:15-17 | an inverse exists only when gcd(e, φ) = 1 |
| Rsa.PrivateExponent | eie553/rsa.py:27-30 | for p, q ≥ 2 and e ≥ 0: never a division by zero; d, when found, lies in [0, φ) with e*d ≡ 1 (mod φ); d is found whenever an inverse exists |
| CharacteristicMatrix.Insert | comp5434/Characteristic_Matrix.py:8 | inserting gives exactly the old words and the new one |
| CharacteristicMatrix.InsertKeepsSorted | comp5434/Characteristic_Matrix.py:9 | inserting into a strictly sorted list keeps it strictly sorted |
| CharacteristicMatrix.SortedUnique | comp5434/Characteristic_Matrix.py:9 | two strictly sorted lists with the same members are equal: the sorted vocabulary is unique |
| CharacteristicMatrix.SortedWords | comp5434/Characteristic_Matrix.py:9 | `sorted(list(words))` is strictly sorted with exactly the set's members |
| CharacteristicMatrix.GetUniqueWords | comp5434/Characteristic_Matrix.py:5-9 | the vocabulary is strictly sorted (so without repeats) and holds exactly the words of the documents |
| CharacteristicMatrix.IndexOf | comp5434/Characteristic_Matrix.py:16 | `list.index` gives the first position holding the word |
| CharacteristicMatrix.Entry | comp5434/Characteristic_Matrix.py:15-17 | an entry is 0 or 1, and 1 iff the document holds the word and `index` finds that column |
| CharacteristicMatrix.FillRow | comp5434/Characteristic_Matrix.py:15-17 | row i gets 1 exactly at the document's words and other rows are untouched; a reported missing word is in the document and not in the vocabulary, and every word before its first occurrence is in the vocabulary, so it is the first missing word |
| CharacteristicMatrix.CreateCharacteristicMatrix | comp5434/Characteristic_Matrix.py:12-18 | the matrix is documents × vocabulary. Without a missing word, entry (i, j) is `Entry`. Otherwise the missing word occurs in a document and not in the vocabulary, and it is the first one met: every word of the earlier documents and every earlier word of its own document is in the vocabulary |
| CharacteristicMatrix.EntryOfDistinctWords | comp5434/Characteristic_Matrix.py:15-17 | on a sorted vocabulary entry (i, j) is 1 iff document i holds word j, however often, and 0 otherwise |

## Left out

- GatePlanning.ModelOfMeaning: assumes the gate names are distinct. The source takes them from the distance sheet's index (gate_assignment_engine.py:448-451) and never checks for repeats. With a repeated name the name-to-index dict keeps the last index (`GatePlanning.GateIndex` models this), so a closed gate is banned only at that index and a flight's original gate is that copy. The meaning of the model is not stated for that case.
- GateTheorems.ReassignSound: assumes distinct gate names. With a repeated name the solver may put a flight on an earlier copy of a closed gate's name, which the ban does not cover; the projection then repairs that flight, so "no repair is needed" does not hold.
- GateTheorems.ReassignOptimal: assumes distinct gate names, so that the answer's gate indices and the gate names correspond one to one; with repeats the optimality statement is not made.
- GateTheorems.ReassignInfeasible: assumes distinct gate names; with repeats "no admissible assignment" is not stated.
- GateTheorems.OverlayAfterCommit: assumes distinct gate names and unique flight numbers. The overlay matches records by flight number (gate_assignment_engine.py:307-313), so two flights sharing a number both take the gate of the last record with that number; that case, and repeated gate names, are not stated.
- GateEngine.Engine.constructor: requires a square distance matrix, one row and one column per gate name, and so does `GateEngine.Valid`. The source reads only columns 0 to n − 1 of each row (gate_assignment_engine.py:670-672): a sheet with fewer columns raises IndexError there, which ends the reassignment as a failure, and extra columns are ignored. Neither case is modelled.
- GateEngine.ReassignSpec: requires the same square distance matrix, as do `GateEngine.ComputePlan`, `GatePlanning.ModelOf` and `GatePlanning.BuildModel`; the IndexError of a narrower sheet is not modelled.
- GateEngine.Overlay: the flight list's `coordinate` field (gate_assignment_engine.py:298) is not modelled; it is copied from the table unchanged and no modelled operation reads it.
- The CP-SAT search and its 60-second time limit are a foreign library: the solver is a parameter, and `GateModel.SoundFor` states what a conforming one promises; whether OR-Tools keeps that promise is not modelled.
- The distances are taken as the integers the source derives with `int(d * 100)` (gate_assignment_engine.py:507-510); the float conversion is not modelled, and `GateEngine.ReportedObjective` reports the integer objective without the division by 100 (line 786).
- Excel and file loading (`get_data_path`, the file part of `load_current_flights`, the distance matrix read), logging, and timing are I/O; the loaded table, gate list and distances are parameters.
- The exception paths of `reassign_gates` (lines 793-802) are modelled only where the model can raise them: a delay time that does not convert and a flight on an unknown gate. A missing file, a missing column or a pandas error cannot arise in the model.
- The conflict scan records index pairs rather than the flight numbers the source puts in its log; the pairs only reach the log, and the gate list is what the engine uses.
- The module globals `_latest_flights_df` and `_latest_assignment` are the fields of `GateEngine.Engine`; the first load from a file is its constructor.
- Flask routing, CORS, the health and error handlers, and the 500 answer when the handler itself raises are HTTP plumbing; `ReassignApi.HandleReassign` models the body of `reassign()` only.
- ReassignApi.HandleReassign: JSON `null` values and non-string times are not modelled; a body is the two keys the handler reads, each a list or absent.
- `int()` is modelled on ASCII digits with an optional sign: surrounding whitespace, underscores and non-ASCII digits, which Python also accepts, are not modelled. The same holds for `\d` and `\s` in the status pattern, which are modelled as ASCII digits and Python's whitespace characters.
- Rsa.HexToInt: the "0x" prefix that `int(s, 16)` also accepts is not modelled.
- The iteration order of Python sets and dicts is not modelled: `GetUniqueWords`, `GenerateRules`, `FirstPass` and the Apriori maps take members in an arbitrary order, so the order of the emitted rules is not stated.
- Rule confidence is modelled as an exact `real` instead of a float.
- DepartureStatus.CalculateDelay: returns the delay as an integer number of minutes, where the source returns the float `delay.total_seconds() / 60` (aae5103/data_preprocessing.py:62-65). `%H:%M` times carry no seconds, so the float is always a whole number and the integer is exact.
- The characteristic matrix is modelled as integers instead of numpy floats. On a missing word the source raises ValueError and the partial matrix is lost; the model returns the missing word.
- Pandas NaN in a status is not modelled: a status is always text.
- Printing is not modelled (the bucket listing, the rules, the RSA values and the second-pass pairs; the second pass returns the pairs it would print).
- `aae5103/project/main.py`, `aae5103/project/run.py`, `process_departure_files` and the delay-analysis scripts are I/O and reporting around the modelled code and are not part of this model.
- `calculate_similarities` (cosine similarity), MinHash, Q1, Q2, bir, T4, T5, qq_plot, distance_calculation and cluster are floating-point, random or library code and are not part of this model.
