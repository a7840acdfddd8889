# HTAP drone demo: a verified model

This project models the parts of the demo stack that carry a protocol, an index that has to
agree with its source, or real arithmetic, and proves what they promise. The services around
them (Cassandra with Accord, Kafka, Spark) appear as abstract state with step relations. A
transaction is one atomic step. `offsets_for_times` is the first offset at or after a stamp.
An insert is an upsert.

Check everything with `dafny verify dfyconfig.toml`.

## What is proved

**Airspace clearance.** `Clearance` holds the three tables and any interleaving of grants,
releases and two-step seeding by one seeder. In every reachable state each zone has
capacity = remaining + holders, and the two listings are inverse to each other. With any
number of seeders, the exact runs that keep this are stated. `ClearanceAudit` models the
audit as the separate reads it is, between any steps of a run: when a zone's flag is true and
when a drone is reported is stated exactly, and under the demo's lock nothing is. `Contention`
shows that a reset frees every zone through guarded releases only, unless a release was lost
or a read in between raised, that any serial order of n distinct askers then grants
min(capacity, n), and who of them hears so.
`ClearanceStatements` interprets the transaction texts with their positional values, and the
seeder's select and insert, and shows that any run of them is a run of those steps.

**Session projection.** `Sessions` shows that the applied numbers are always a prefix
0..k-1, equal to the keys of the timeline. The number k is the largest for which 0..k-1 is a
subsequence of the attempts since the session was opened, and no row is ever overwritten.
`SessionStatements` ties this to the transaction text.

**Settled windows.** `Windows` and `Calendar` cover the bucket arithmetic, the names both
services give a window, and the walk back to the newest window with events. `Settlement`
says when the check answers yes, and exactly which later deliveries can still be filed under a
window once it has. `SettledSink` draws those deliveries from the sink's own runs.

**The sink.** `SinkLoop` separates the consumer's position from its committed offset and
finds the exact condition under which nothing is lost. `Replays` says what redelivery does to
the raw table, whichever writes took effect. `SinkReplay` shows that every run of the sink is
such a redelivery, and that below the committed offset its rows are those of one pass.

**Polygons.** `Rings` is the theory of marked edges on closed walks. `Geometry` shows that
ray casting does not depend on where a ring starts or which way it goes, that it is additive
under chords, and that for every point it counts the covering triangles by the even-odd rule,
boundary included. `Proximity` shows that the clamped projection is the least distance, so
that the sink and the what-if simulation agree on which drones are near, and what the sink's
score means.

**Smaller machines.** `JsonText` and `Ndjson` (encoder, parser, printer and chunked reader),
`CdcTail` (bounded buffer and polling), `Comparison` (one run at a time, cancelled in two
steps), `Embedder` and `EmbedderQueue` (the live index, whose writes may be stored and still
report an error), `Snapshots` (reuse under a time to live), `Pacing` (fractions carried, assets
in rotation) and `Alerts` (the walk over hour partitions).

## Where the code falls short of what it says

The model follows the code. Each of these has a counterexample or an exact condition.

- A failed batch is left uncommitted, but nothing seeks back to it, so the next successful
  batch commits past it. Every committed record has its rows, whatever the writes come to,
  if and only if the process restarts before any later commit (`NothingLostIff`).
- A replay is said to leave no duplicate data. An event whose id cannot be read gets a new
  id at each delivery, so it leaves one row per delivery (`UnreadableRepeats`,
  `DuplicatesIff`).
- A settled window can still grow when a partition that was quiet at the check later
  receives an old event, or when the sink's clock stamps an unreadable id inside the window
  (`SettledExactly`, `LateRecordLandsInWindow`).
- The audit's reads are separate and its route takes no lock, so a consistent ledger can show
  a zone that does not add up or a mismatched drone. Which grants and releases in between do
  that is stated exactly (`AuditDuring`, `AuditTorn`).
- The audit does not look for a drone's row without a zone's (`AuditBlindSpot`,
  `CleanAuditIsConsistent`).
- A second seeder can overbook a zone (`TwoSeedersOverbook`). A run with any number of seeders
  keeps the ledger consistent if and only if no seeder writes a zone's row while drones hold
  it (`AlwaysConsistentIff`).
- The sink calls a position inside when its distance is zero, the simulation when the ray
  test says so. They agree off the boundary, and on it unless an even number of the ring's
  triangles cover the point (`SinkAgreesWithSimulation`, `BoundaryDisagreement`). A boundary
  point is answered as the positions just east of it are (`AnsweredAsEast`).
- The walk back over windows skips some when the bucket length does not divide an hour
  (`WalkIsGapless`, `WalkSkips`).
- A change record that fails after decoding uses up a number, which looks like a loss to a
  client that polls with `since` (`LossShows`).
- A cancel that read one run and sets the flag after the next began stops the next
  (`StaleCancelStopsNextRun`). That happens if and only if another run clears the flag after
  the read and has neither reported nor been left when the flag is set (`AimedIff`).
- An embedder's write that is stored but reports an error is not remembered, which can hide a
  stale snippet for good (`ErroredWriteHides`). A batch leaves the memory true to the index if
  and only if no write in it ended so (`EmbedMatchesIff`).
- Indexing on request writes the embedder's table without its memory, which can hide a stale
  snippet (`OtherWriterHides`). It is harmless if and only if every snippet it writes is
  already the one remembered (`IndexAllMatchesIff`).
- What a pass defers, a later one takes if and only if fewer rows before it keep failing than
  a batch holds (`ServedIff`).
- The encoder writes NaN and Infinity, which no JSON reader takes. A payload survives the trip
  if and only if every number in it is written as a number (`SurvivesIff`, `NanIsRefused`).
- A reused snapshot has a timeout left when it is chosen, not when the read starts. If any
  time passes in between, and even one table has its own view statement and size reading
  there, the read can outlive it (`ReuseIsCoveredIff`).

## Model

| member | source | states |
|---|---|---|
| `Clearance.GrantKeeps` | backend/app/routes/transactions.py:574-598 | a grant keeps the ledger consistent: slots balance in every zone and the two listings stay each other's inverse, stamps included |
| `Clearance.ReleaseKeeps` | backend/app/routes/transactions.py:601-621 | a release keeps the ledger consistent |
| `Clearance.SeededKeeps` | ingress/consumer/consumer.py:544-584 | writing the row of a zone that is still absent keeps the ledger consistent |
| `Clearance.RunsAreConsistent` | ingress/consumer/consumer.py:544-584 | over every interleaving of grants, releases and two-step seeding by one seeder, the ledger is consistent and the seeder's pending zone is still absent |
| `Clearance.HoldersMove` | backend/app/routes/transactions.py:574-621 | between two moments of any run a zone's holders change by the grants less the releases that fired |
| `Clearance.SeededKeepsIff` | ingress/consumer/consumer.py:544-584 | writing a zone's row keeps the ledger consistent if and only if nobody holds the zone |
| `Clearance.AlwaysConsistentIff` | ingress/consumer/consumer.py:544-584 | with any number of seeders, a run is consistent throughout if and only if every seeding write finds as many releases as grants of its zone behind it |
| `Clearance.TwoSeedersOverbook` | ingress/consumer/consumer.py:544-584 | a run with two seeders that grants a zone of one slot to two drones |
| `ClearanceAudit.Audit` | backend/app/routes/transactions.py:655-712 | over tables that change between its reads, the audit shows each zone with the capacity and the free slots of one moment, the holders of a later one and whether those numbers add up, and reports the drones whose own row, read later still, does not name the zone |
| `ClearanceAudit.FlagIff` | backend/app/routes/transactions.py:655-712 | a zone's flag is true if and only if as many grants of it as releases fired between the reads of its slots and of its holders |
| `ClearanceAudit.MirrorIff` | backend/app/routes/transactions.py:655-712 | a listed drone is reported if and only if it gave the clearance back, and was not granted it again, before its own row was read |
| `ClearanceAudit.AuditDuring` | backend/app/routes/transactions.py:655-712 | the audit during any run with one seeder: both conditions for all zones and drones; a zone shows a free slot if and only if a drone holding nothing would be granted it; and under the lock every capacity shown is the free slots and holders shown and no drone is reported |
| `ClearanceAudit.AuditTorn` | backend/app/routes/transactions.py:820-826 | a run, consistent at every moment, that the audit shows with a zone that does not add up and a mismatched drone |
| `ClearanceAudit.CleanAuditIsConsistent` | backend/app/routes/transactions.py:655-712 | the invariant holds if and only if the audit is clean and four things it does not check hold too |
| `ClearanceAudit.AuditBlindSpot` | backend/app/routes/transactions.py:655-712 | a ledger that breaks the invariant and passes the audit |
| `Contention.ResetFrees` | backend/app/routes/transactions.py:794-814 | releasing every listed holder of a consistent ledger leaves exactly the drones whose release was lost to an error, refuses none, keeps the ledger consistent, and frees every slot if and only if none was lost |
| `Contention.Desk.Reset` | backend/app/routes/transactions.py:773-814 | the audit under the lock and the loop over its holders, each release followed by a read of the state: it runs to its end if and only if no read after an answered release raises; then a drone still holds its clearance if and only if its own release was lost, and all is free if and only if none was; no release is refused, and a reset cut short leaves what it did not reach |
| `Contention.Desk.ReleaseListed` | backend/app/routes/transactions.py:773-814 | the loop releases shown holders once each, every one by the guarded release with its own ending, up to the first read that raises and all of them if none does |
| `Contention.ContentionFillsZone` | backend/app/routes/transactions.py:899-929 | from any consistent ledger, any serial order of distinct askers leaves min(capacity, holders before + asks that reached the tables from drones holding nothing) holders |
| `Contention.HeardAreWinners` | backend/app/routes/transactions.py:899-929 | the callers who heard that they won are exactly those that entered and were answered, each counted once |
| `Contention.ContentionReport` | backend/app/routes/transactions.py:899-929 | what the contention reports from any consistent ledger, and who heard of a grant; from a free one with no errors those who heard are the winners, min(capacity, askers) of them |
| `Contention.Desk.Contend` | backend/app/routes/transactions.py:876-929 | reset, ask and audit: it raises if and only if a read of the reset does, an unknown zone is refused, otherwise errors are the asks without an answer, granted the callers who heard, the three counts add up to the askers, the winners are the zone's holders and the report is that of the reset ledger, which is free if and only if no release was lost |
| `Contention.Desk.AskAll` | backend/app/routes/transactions.py:909-924 | the loop of asks ends in the ledger of their serial order; granted are those who heard, errors the asks without an answer, and refused the rest |
| `ClearanceStatements.GrantText` | backend/app/routes/transactions.py:574-598 | the grant's text with its nine values does exactly the guarded grant, and the client's reason is empty if and only if it fired, and otherwise names the right refusal |
| `ClearanceStatements.ReleaseText` | backend/app/routes/transactions.py:601-621 | the same of the release's text with its six values |
| `ClearanceStatements.StatementsAreWellFormed` | backend/app/routes/transactions.py:574-621 | both texts refer only to what they read and find every row by its whole key |
| `ClearanceStatements.GrantReasonReads` | backend/app/routes/transactions.py:624-641 | what the client reads from the projection is the ledger's own reason, in the order the source gives them |
| `ClearanceStatements.ReleaseReasonReads` | backend/app/routes/transactions.py:644-652 | the same for a release |
| `ClearanceStatements.SeedInsert` | ingress/consumer/consumer.py:574-581 | the seeding insert with its five values stores the row of a zone with every slot free |
| `ClearanceStatements.TextsRefineLedger` | backend/app/routes/transactions.py:715-745 | any run of grant and release texts, seeders' selects and inserts, from empty tables, keeps the stored rows in step with the ledger |
| `ClearanceStatements.TextsKeepInvariant` | backend/app/routes/transactions.py:574-621 | so with one seeder the stored rows are those of a consistent ledger |
| `SessionStatements.ParamsSplit` | backend/app/routes/transactions.py:119-130 | fifteen or eighteen values, and where each of them goes |
| `SessionStatements.ApplyExecutes` | backend/app/routes/transactions.py:83-116 | running the text with its values: the store afterwards, the projection, and whether the condition held |
| `SessionStatements.ApplyTextApplies` | backend/app/routes/transactions.py:83-116 | for every number the text does exactly the guarded append, and the client's reason is empty if and only if it fired |
| `SessionStatements.ApplyIsWellFormed` | backend/app/routes/transactions.py:83-116 | for every number the text refers only to what it reads, so the first number's does not name its predecessor |
| `SessionStatements.ReasonReads` | backend/app/routes/transactions.py:133-148 | the client's reason is the session's own: not open, then a replay, then a gap |
| `SessionStatements.OpenInsert` | backend/app/routes/transactions.py:171-176 | the opening insert stores the session's row and leaves the other tables |
| `SessionStatements.TextsRefineSessions` | backend/app/routes/transactions.py:83-130 | any run of openings and apply texts, from empty tables, keeps the stored rows in step with the sessions |
| `SessionStatements.TimelineRowsAreGreedy` | backend/app/routes/transactions.py:83-130 | the timeline rows the texts leave are numbered 0..k-1 with k the greedy count of the attempts |
| `Sessions.GreedyPicks` | backend/app/routes/transactions.py:83-116 | the greedy count is achieved by a subsequence 0, 1, .. of the attempts |
| `Sessions.GreedyIsLongest` | backend/app/routes/transactions.py:83-116 | no subsequence 0, 1, .. of the attempts is longer than the greedy count |
| `Sessions.AppliedIsPrefix` | backend/app/routes/transactions.py:83-116 | in every run the numbers applied to a session, and the keys of its timeline, are 0..k-1 with k the greedy count of attempts since it was opened |
| `Sessions.TimelineIsLongestRun` | backend/app/routes/transactions.py:83-116 | the timeline is as long as the longest 0, 1, .. that can be picked from the attempts |
| `Sessions.TimelineMatchesApplied` | backend/app/routes/transactions.py:83-116 | the timeline and the applied numbers have the same keys |
| `Sessions.NeverOverwritten` | backend/app/routes/transactions.py:83-116 | no later step changes or removes a timeline row |
| `Sessions.ExactlyOnce` | backend/app/routes/transactions.py:83-116 | a number that was applied is refused ever after, and its row keeps the event of the step that applied it |
| `Sessions.OpenIsOpened` | backend/app/routes/transactions.py:171-176 | a session is open exactly when some step opened it |
| `Calendar.DatesAdvance` | ingress/consumer/consumer.py:98-115 | later days have later dates, leap years included |
| `Calendar.DayNumber` | ingress/consumer/consumer.py:98-115 | the number of every date by the Gregorian rule: 365 days a year, y/4 - y/100 + y/400 leap days and the lengths of the months |
| `Calendar.TextSpells` | ingress/consumer/consumer.py:98-115 | the text of an instant has its year, month, day, hour and minute at their places, read back as numbers |
| `Calendar.TextOrderIsTimeOrder` | ingress/consumer/consumer.py:98-115 | the text of a minute sorts as the minute does |
| `Calendar.TextIsInjective` | ingress/consumer/consumer.py:98-115 | two minutes with one text are one minute |
| `Calendar.HourTextIsInjective` | backend/app/db/cassandra_client.py:321-342 | two hours with one bucket text are one hour |
| `Windows.WindowsPartition` | backend/app/routes/query.py:815-826 | a minute is in a window exactly when it lies between the window's start and its end, the hour cutting the last one short |
| `Windows.PastTheEndIsOutside` | backend/app/routes/query.py:815-826 | an instant a full length or more past a window's start is in another window, for every length |
| `Windows.NamesAgree` | backend/app/routes/query.py:829-831 | the backend and the sink give the same name exactly to instants of one window, and names sort as windows do |
| `Windows.WalkIsGapless` | backend/app/routes/query.py:1018-1044 | the walk visits each of the windows before the current one without gap or repeat if and only if the length divides sixty |
| `Windows.WalkSkips` | backend/app/routes/query.py:1018-1044 | for every other length there is a first step that skips a window |
| `Windows.FindWindow` | backend/app/routes/query.py:1018-1044 | the answer is the first window of the walk that holds events, or the current one marked as not closed when none of the eight does; a closed answer holds events and is over, and with a length that divides the hour no window between it and the current one holds any |
| `Windows.FoundIsNewest` | backend/app/routes/query.py:1018-1044 | every window between the one found and the current one was visited before it, so the one found is the newest |
| `Windows.FoundIsOver` | backend/app/routes/query.py:1018-1044 | a window of the walk has ended by now |
| `Settlement.SinkConsumedPast` | backend/app/routes/query.py:852-966 | the answer is yes if and only if Kafka answered, there are partitions and each has a commit at or past the first record beyond the target or, where there is none, at or past its end; a no says that Kafka could not be asked, names the first partition without a commit or an end, or lists exactly the short ones, by how much, and the first of the worst |
| `Settlement.VerdictIsPassed` | backend/app/routes/query.py:852-966 | read at three moments of a growing log, a partition passes only if the sink had come to a record past the target or there was none and it had come to the end; and if it had, with its commit and end known, it passes, however many records follow |
| `Settlement.TargetIsLeast` | backend/app/routes/query.py:846-889 | the target is the least stamp that keeps every event dated within the margin of its stamp out of the window |
| `Settlement.BusyPartition` | backend/app/routes/query.py:852-966 | on a partition with a record past the target, everything still to be delivered is dated past the window |
| `Settlement.SettledExactly` | backend/app/routes/query.py:852-966 | after a yes, a delivery is filed under the window if and only if it is an unreadable id stamped inside it, or a record appended after the check to a partition quiet until then and dated inside it |
| `Settlement.SettledIsFinal` | ingress/consumer/consumer.py:1045-1107 | with later records and clocks past the window's end, no delivery on any partition, in any order and however often, is filed under it, for every bucket length |
| `Settlement.SettledWindow` | backend/app/routes/query.py:852-966 | the check of one window put together: with Kafka's answers complete it says settled if and only if every partition has passed, and if it says settled, then for every continuation that meets the clock and order assumptions no delivery on the topic is filed under the window |
| `Settlement.LateRecordLandsInWindow` | backend/app/routes/query.py:852-966 | a log on which a settled window receives an event |
| `SinkLoop.Issue` | ingress/consumer/consumer.py:1046-1095 | the batch's pending writes are three per record, for every record and no other, and the count is the batch's size |
| `SinkLoop.Await` | ingress/consumer/consumer.py:1097-1105 | waiting in order up to the first failure tells whether all writes landed |
| `SinkLoop.Sink.Turn` | ingress/consumer/consumer.py:1027-1113 | a turn commits and counts if and only if every write landed; otherwise only the position moves |
| `SinkLoop.RunsAreOrdered` | ingress/consumer/consumer.py:1027-1113 | the committed offsets never pass the position, over every run of turns, failures and restarts |
| `SinkLoop.ReadsStayPastCommit` | ingress/consumer/consumer.py:1027-1113 | nothing below an offset once committed is read again |
| `SinkLoop.CounterNeverAhead` | ingress/consumer/consumer.py:1107-1111 | the ingestion counter never exceeds the records committed |
| `SinkLoop.CounterCounts` | ingress/consumer/consumer.py:1107-1111 | the counter is the number of records the committed and counted turns read |
| `SinkLoop.CounterExactIff` | ingress/consumer/consumer.py:1107-1111 | the counter is the number of committed records if and only if every commit was counted and none was made over a failed batch |
| `SinkLoop.AckedIff` | ingress/consumer/consumer.py:1097-1107 | a record has its rows if and only if some turn of the run had them acknowledged |
| `SinkLoop.RowsWhenReadAgain` | ingress/consumer/consumer.py:1097-1107 | if failed batches are re-read before any later commit, every record below the committed offsets has its rows |
| `SinkLoop.SkippedForGood` | ingress/consumer/consumer.py:1099-1107 | a commit over a failed batch that was not re-read leaves a committed record without rows |
| `SinkLoop.NothingLostIff` | ingress/consumer/consumer.py:1027-1113 | every committed record has its rows, whatever the writes come to, if and only if no batch is committed over a failed one |
| `Replays.OwnRowsAreOnePass` | ingress/consumer/consumer.py:98-130 | whatever is redelivered and whichever earlier writes took effect, the rows under events' own ids end as one pass leaves them |
| `Replays.ReplayIsOnePass` | ingress/consumer/consumer.py:98-130 | with every id readable the whole raw table ends as one pass leaves it |
| `Replays.UnreadableRepeats` | ingress/consumer/consumer.py:1049-1054 | an event whose id cannot be read leaves one row for each delivery whose write took effect |
| `Replays.DuplicatesIff` | ingress/consumer/consumer.py:1099-1103 | once the log has been read, a replay leaves as many rows as one pass if and only if no unreadable event was written twice, and more otherwise |
| `SinkReplay.RunsRedeliver` | ingress/consumer/consumer.py:1027-1113 | over every run of turns, failures and restarts, what is delivered of a partition starts at its first record and moves on one at a time, falling back only to records already reached |
| `SinkReplay.DeliveredAcks` | ingress/consumer/consumer.py:1027-1113 | the deliveries marked as acknowledged are exactly those of the records whose rows the run had acknowledged |
| `SinkReplay.CommittedAreDone` | ingress/consumer/consumer.py:1027-1113 | if failed batches are re-read before any later commit, every record below the committed offset had its last delivery acknowledged, and only later records came after it |
| `SinkReplay.CommittedRowsAreOnePass` | ingress/consumer/consumer.py:1027-1113 | then, whatever became of unacknowledged writes, the raw row of every id used only below the committed offset is the one a single pass leaves |
| `SinkReplay.SinceIsPastCommit` | ingress/consumer/consumer.py:1027-1113 | whatever a run delivers after some moment lies at or past what was committed then |
| `SettledSink.SettledForTheSink` | backend/app/routes/query.py:852-966 | if the check says settled on the offsets the sink had committed at some moment of its run, no delivery of its later turns, through failures and restarts, is filed under the window |
| `Geometry.CrossingIsATurn` | backend/app/utils/geometry.py:45-52 | an edge that spans the point's latitude is crossed exactly when the point lies to one side of it |
| `Geometry.RotationKeepsAnswer` | backend/app/utils/geometry.py:37-53 | starting the ring elsewhere does not change the answer |
| `Geometry.ReversalKeepsAnswer` | backend/app/utils/geometry.py:37-53 | neither does going round the other way |
| `Geometry.RepeatedVertexKeepsAnswer` | backend/app/utils/geometry.py:37-53 | nor repeating the first vertex at the end |
| `Geometry.ChordCut` | backend/app/utils/geometry.py:37-53 | cutting along any chord gives two rings whose answers xor to the ring's |
| `Geometry.SeparatedIsOutside` | backend/app/utils/geometry.py:37-53 | a point that a line separates from every vertex is outside |
| `Geometry.TriangleRule` | backend/app/utils/geometry.py:37-53 | for every point and three vertices, flat triangles and boundary included, the answer is yes exactly where the three sides agree, a point on a line going with its neighbours to the east, on a level line to the north |
| `Geometry.SideRule` | backend/app/utils/geometry.py:37-53 | which points of a triangle's side are kept: counter-clockwise, those of a falling or level eastward side; clockwise, the others |
| `Geometry.AnsweredAsEast` | backend/app/utils/geometry.py:37-53 | for every ring and point the positions just east of it have its answer |
| `Geometry.InsideTriangle` | backend/app/utils/geometry.py:37-53 | a point strictly inside a triangle is found inside |
| `Geometry.OutsideTriangle` | backend/app/utils/geometry.py:37-53 | a point outside the closed triangle, or any point of a flat one, is found outside |
| `Geometry.EvenOddRule` | backend/app/utils/geometry.py:37-53 | for every ring and point, the answer is whether an odd number of the ring's fan triangles cover the point |
| `Geometry.PointInPolygon` | ingress/consumer/consumer.py:644-659 | the loop over edges computes the parity the lemmas are about, short rings included |
| `Proximity.FootIsNearest` | backend/app/utils/geometry.py:86-95 | the clamped projection is at least as near as every other point of the edge, zero-length edges included |
| `Proximity.DistanceToPolygon` | backend/app/utils/geometry.py:65-96 | infinite for a short ring, zero inside, otherwise attained on the boundary and least over every point of every edge, measured in degrees of longitude and of latitude each at its own scale |
| `Proximity.DegreesAreMetres` | backend/app/utils/geometry.py:75-83 | a degree north is 111320 m, a degree east the scale of the latitude, and the two add up as squares |
| `Proximity.AlongMeasures` | backend/app/utils/geometry.py:75-96 | measuring along a segment laid out in metres is measuring to the point between the vertices in degrees |
| `Proximity.DistanceIsUnique` | backend/app/utils/geometry.py:65-96 | a position has only one distance to a ring |
| `Proximity.ZeroIsAtZero` | ingress/consumer/consumer.py:662-685 | the distance is zero exactly inside and on the boundary |
| `Proximity.CheckProximity` | ingress/consumer/consumer.py:836-881 | near exactly when some zone has a point closer than 500 m, a breach predicted exactly when one is closer than 150 m, the risk is the highest score and the zone named the first that has it, which outside every zone is the nearest, and breached are the zones at distance zero |
| `Proximity.NearerScoresMore` | ingress/consumer/consumer.py:850 | outside, five hundred times the score is 500 less the distance, so of two zones the nearer scores more |
| `Proximity.InsideScoresAsClose` | ingress/consumer/consumer.py:850 | a zone that holds the position is outscored exactly by those closer than 25 m that do not |
| `Proximity.WhatIf` | backend/app/routes/zones.py:64-73 | inside are the drones the ray test puts in the ring, nearby the others with a boundary point closer than the warning distance |
| `Proximity.SinkAgreesWithSimulation` | ingress/consumer/consumer.py:844-851 | for one zone the sink's near flag holds exactly when the simulation lists the drone; they agree on inside off the boundary, and on it unless an even number of the ring's triangles cover the point |
| `Proximity.BoundaryDisagreement` | ingress/consumer/consumer.py:850 | such a point of the unit square |
| `JsonText.EscapedReads` | backend/app/routes/query.py:577-578 | a string as the encoder escapes it reads back as the same code units |
| `JsonText.VisibleStays` | backend/app/routes/query.py:577-578 | visible ASCII text without quotes and backslashes is written as it is |
| `JsonText.DumpsOneLine` | backend/app/routes/query.py:577-578 | whatever text a payload carries, it is written on one line |
| `JsonText.ParseUndoesDumps` | backend/app/routes/query.py:577-578 | parsing undoes writing, for every value of any depth whose numbers are written as numbers |
| `JsonText.TwoAreRefused` | backend/app/routes/query.py:577-578 | two payloads without a newline between them are no JSON text |
| `JsonText.SurvivesIff` | backend/app/routes/query.py:577-578 | a value survives writing and parsing if and only if every number in it is written as a number |
| `JsonText.NanIsRefused` | backend/app/routes/query.py:577-578 | what the encoder writes for NaN and Infinity is refused |
| `Ndjson.SplitJoins` | frontend/src/lib/api.ts:58 | splitting at newlines loses nothing and leaves none in a piece |
| `Ndjson.SplitIsUnique` | frontend/src/lib/api.ts:58 | no other cut into lines joins to the same text |
| `Ndjson.SplitAppend` | frontend/src/lib/api.ts:54-59 | text that arrives later changes only the last piece |
| `Ndjson.PostNdjson` | frontend/src/lib/api.ts:50-65 | over any chunking the calls are the non-blank pieces of the whole text, in order, and after each chunk those already ended |
| `Ndjson.ReaderUndoesPrinter` | frontend/src/lib/api.ts:50-65 | printed, cut anywhere and read: one call per payload, in order, with its text, which parses to that payload |
| `Ndjson.CallsKeepUp` | frontend/src/lib/api.ts:55-62 | however much has arrived, the calls made are the first payloads, one for each newline seen |
| `CdcTail.ConsecutiveIff` | backend/app/routes/streaming.py:244-252 | numbers run without a gap if and only if no message raised |
| `CdcTail.PollIsNewestUnseen` | backend/app/routes/streaming.py:347-351 | a poll of the buffer returns, newest first, the newest min(limit, size) of all unseen records |
| `CdcTail.PollIsWholeIff` | backend/app/routes/streaming.py:347-351 | it returns the whole unseen stretch if and only if no more than that arrived |
| `CdcTail.LossShows` | backend/app/routes/streaming.py:347-351 | the oldest record returned carries the next number if and only if nothing was passed over and the next message did not raise |
| `CdcTail.PollsAccount` | backend/app/routes/streaming.py:347-351 | over any polls what a client holds and what it missed add up to what arrived, and it holds exactly the log if and only if it missed nothing |
| `CdcTail.Tail.Ingest` | backend/app/routes/streaming.py:229-246 | the buffer is the last records of everything consumed, number and count the messages handled, and an error abandons the rest of the batch |
| `CdcTail.Tail.Records` | backend/app/routes/streaming.py:347-351 | a poll of the bounded buffer answers as a poll of the whole log would |
| `Comparison.RequestedEngines` | backend/app/routes/query.py:320-347 | no names means all engines; unknown names are refused and listed, no names left is refused; otherwise each named engine once, in the caller's order or the dashboard's |
| `Comparison.DropRepeats` | backend/app/routes/query.py:336-341 | each name once, in order of first appearance |
| `Comparison.RunSequence` | backend/app/routes/query.py:350-375 | the answers are the engines up to the first one found flagged |
| `Comparison.RunsAreOk` | backend/app/routes/query.py:469-512 | what every interleaving of begin, answer, cancel and end keeps of each run: who holds the lock, who is in flight, prefix of answers, what it reports |
| `Comparison.OneAtATime` | backend/app/routes/query.py:469-512 | two runs under way are one run |
| `Comparison.StoppedShortSaysSo` | backend/app/routes/query.py:540-564 | answers are a prefix of the engines, a run that reports having stopped short says cancelled, and it says so if and only if a cancel's set reached it |
| `Comparison.RunCompletes` | backend/app/routes/query.py:469-564 | where nobody holds the lock, a run that is left alone answers every engine in order, reports that it finished, and leaves the lock free, nothing in flight and the flag down |
| `Comparison.SecondIsRefused` | backend/app/routes/query.py:476-488 | a run asked for while another holds the lock is refused and changes nothing else |
| `Comparison.LeftRunEnds` | backend/app/routes/query.py:557-564 | a run whose client leaves keeps its answers, says nothing and gives the lock, the flag and its place in flight back |
| `Comparison.CancelStops` | backend/app/routes/query.py:596-615 | a cancel that reads a run in flight and sets the flag stops it before its next engine: it keeps its answers and says that it was cancelled |
| `Comparison.WatchIff` | backend/app/routes/query.py:487-512 | a run can see the flag if and only if it has cleared it and has since neither reported nor been left |
| `Comparison.SetReachesOther` | backend/app/routes/query.py:596-615 | a cancel's set reaches another run than it read if and only if that other cleared the flag after the read and has neither reported nor been left |
| `Comparison.AimedIff` | backend/app/routes/query.py:596-615 | over a whole run every cancel that reached a run was meant for it if and only if no cancel was set in that situation |
| `Comparison.StaleCancelStopsNextRun` | backend/app/routes/query.py:610-614 | from any state with the lock free and a cancel still to be set, a new run can be stopped before its first engine though nothing read it |
| `Comparison.StaleCancelHappens` | backend/app/routes/query.py:610-614 | such a state is reached |
| `Embedder.EmbedMatchesAt` | backend/app/routes/vector.py:377-397 | after a batch an asset whose write was stored matches if and only if that write was also answered; every other asset matches as before |
| `Embedder.EmbedMatchesIff` | backend/app/routes/vector.py:377-397 | a batch keeps what is remembered the digest of what is stored if and only if no write in it was stored and reported as failed |
| `Embedder.EmbedWrites` | backend/app/routes/vector.py:377-397 | after a batch exactly the assets whose writes were answered are remembered with their snippet, and exactly those whose writes were stored have it in the index |
| `Embedder.PassLeaves` | backend/app/routes/vector.py:360-403 | what is left after a pass is what was deferred and what failed |
| `Embedder.BlankText` | backend/app/routes/vector.py:365 | spaces and line breaks alone are not worth embedding, one visible character is |
| `Embedder.Converges` | backend/app/routes/vector.py:360-403 | once snippets hold still and writes succeed, n passes leave max(0, start - n * limit), whatever order the rows are read in |
| `Embedder.NothingLeftMeansIndexed` | backend/app/routes/vector.py:362-368 | where the memory matches or is about to be replaced, nothing left means that every snippet that is not blank matches the index up to its digest and is remembered; from a matching store the converse holds too |
| `Embedder.ConvergedIsIndexed` | backend/app/routes/vector.py:331-403 | from a store whose every entry matches or is about to be replaced, once passes times limit reach what was stale, every snippet that is not blank matches the index up to its digest |
| `EmbedderQueue.EmbedIsPass` | backend/app/routes/vector.py:362-397 | a pass leaves the changed rows that failed in front of those deferred, in order |
| `EmbedderQueue.ServedIff` | backend/app/routes/vector.py:369-371 | with snippets and outcomes fixed, a changed row whose write succeeds is embedded by some pass if and only if fewer rows before it keep failing than a batch holds |
| `Embedder.IndexAllMatchesIff` | backend/app/routes/vector.py:175-220 | an indexing by request keeps the memory the digest of what is stored if and only if every snippet it writes is already the one remembered |
| `Embedder.ErroredWriteHides` | backend/app/routes/vector.py:377-397 | after a write that was stored and reported as failed, a snippet that changes back is stale and never found so |
| `Embedder.OtherWriterHides` | backend/app/routes/vector.py:175-220 | after an indexing by request a snippet that changes back is stale and never found so |
| `Embedder.LiveEmbedder.Prime` | backend/app/routes/vector.py:331-346 | priming makes the memory match the index: the digest of every stored text that is not empty, and nothing else |
| `Embedder.LiveEmbedder.Pass` | backend/app/routes/vector.py:348-403 | a pass does exactly its batch, keeps the match if and only if no write was stored and reported as failed, counts as embedded the batch less its failures, and afterwards what is left is pending plus this pass's failures |
| `Snapshots.NameTellsStamp` | backend/app/db/spark_client.py:467-472 | the clock read back from a name is the one it was named with, whatever the table is called, from ten digits on |
| `Snapshots.StampIsMatch` | backend/app/db/spark_client.py:334-336 | wherever the pattern can be found at a name's end, it is the one read |
| `Snapshots.MatchIsStamp` | backend/app/db/spark_client.py:334-336 | what is read is a match of the pattern |
| `Snapshots.LifeCoversTwice` | backend/app/db/spark_client.py:316 | a snapshot lives at least twice the timeout, and longer than it in any case: a quarter of an hour, or twice the timeout rounded up to minutes |
| `Snapshots.EligibleWindow` | backend/app/db/spark_client.py:485-503 | a fresh snapshot stays eligible for timeout - 1 seconds at least, and exactly until its life less a timeout has passed since its clock |
| `Snapshots.SparkBulk.Reusable` | backend/app/db/spark_client.py:474-503 | the last snapshot is offered exactly when there is one, its clock can be read, more than a timeout of life is left and it is still listed |
| `Snapshots.SparkBulk.RegisterBulkView` | backend/app/db/spark_client.py:505-537 | the last snapshot is read again if and only if that was asked for, it is still listed, its clock can be read and its age leaves more than a timeout of its life; otherwise a fresh one is named by the clock and the counter; the one chosen expires more than a timeout after the choice, and reading again changes no snapshot's life |
| `Snapshots.SparkBulk.RegisterTwice` | backend/app/db/spark_client.py:505-537 | a table registered again with reuse, still listed, within a timeout less one second reads the same snapshot |
| `Snapshots.SparkBulk.Prepare` | backend/app/db/spark_client.py:400-437 | over all tables of a statement each choice outlives a timeout and is noted for its table, no snapshot's life changes, reused holds if and only if reuse was asked for and every table's last snapshot could be read again, and the age is the oldest |
| `Snapshots.FreshIsCovered` | backend/app/db/spark_client.py:305-316 | a fresh snapshot outlives a read that starts up to a timeout later |
| `Snapshots.ReuseIsCoveredIff` | backend/app/db/spark_client.py:326-330 | every eligible reuse outlives its read if and only if nothing is prepared between the choice and the read |
| `Pacing.LiveSettings.Apply` | ingress/producer/producer.py:589-596 | a missing field keeps its value; a rate or fleet below one, given or kept, becomes one |
| `Pacing.Producer.TakeTurn` | ingress/producer/producer.py:719-760 | one turn of the loop: paused, nothing changes; otherwise the whole events owed are sent and the fraction is carried |
| `Pacing.Compose` | ingress/producer/producer.py:740-760 | a turn's events: assets in rotation, stamps spread over the period |
| `Pacing.StampSpacing` | ingress/producer/producer.py:751-778 | neighbouring stamps of a turn are the period divided by the number of events apart |
| `Pacing.PaceIsExact` | ingress/producer/producer.py:699-733 | over any turns, rates and pauses, events sent are the floor of what accrued and the carry is the fraction, in [0, 1) |
| `Pacing.TurnsRotate` | ingress/producer/producer.py:739-741 | with one fleet size, the events of any stretch of turns continue one rotation |
| `Pacing.SharesAreEven` | ingress/producer/producer.py:739-741 | over any stretch with one fleet size each asset has its whole share or one more, any two differ by at most one, and no other index occurs |
| `Pacing.AssetsAreHeld` | ingress/producer/producer.py:728-741 | whatever the fleet does, every index is one the arrays hold |
| `Pacing.StampsIncreaseIff` | ingress/producer/producer.py:751-778 | whatever the clock does, every event is stamped later than the one before if and only if no turn that sends starts at or before the last stamp sent |
| `Pacing.SleepKeepsInStep` | ingress/producer/producer.py:776-778 | turns that start a period or more apart, as the sleep makes them on a clock never set back, meet that condition |
| `Alerts.EnumerationIsUnique` | ingress/consumer/consumer.py:350-369 | a set of alerts has one clustering order |
| `Alerts.WalkEnumerates` | backend/app/db/cassandra_client.py:321-342 | partitions of consecutive hours, newest first, are their alerts in order |
| `Alerts.GetAlerts` | backend/app/db/cassandra_client.py:321-342 | reading the partitions by the text of their hour, the walk returns the first `limit` of all alerts of the last max(1, hours) hours, newest first, then by asset, then the later id; none for a limit of zero or less |

## Left out

- What Accord, Cassandra, Kafka, Spark and the Sidecar do inside: transactions are atomic, upserts replace, offsets are exact, and a write or transaction that reports an error took effect or was lost.
- Writes issued before the settled check and never awaited (the rest of a failed batch, consumer.py:1097-1105): they may land in a settled window later, and no theorem covers them.
- Floating point: distances are squared and exact, the metres per degree of longitude are a positive parameter, and pacing is over reals.
- The alert threshold, severities and cooldown, and any claim that a nearer position scores higher: an inside position scores below some outside ones.
- Fleet physics, temperatures, headings and the drone tracker behind the history and latest rows.
- The order in which zones, holders and winners are listed: the model has sets.
- The total of short records and the texts of messages: only which partition lacks how many.
- Log retention and partitions added while a check runs.
- Raw rows of several partitions together: a replay is followed per partition, since ids differ between them.
- A response generator that is never started, which would hold the comparison lock; parallel comparisons; and what a cancel does to Presto, Spark and cqlite.
- The grammar inside a JSON number: numbers are carried as their text, and the parser takes any run of their characters.
- Reattaching after an error in the change tail, which may read records again under new numbers.
- Digest collisions: a match is up to the digest.
- Pacing.Producer.TakeTurn: takes the rate not to be negative and the fleet to be one or more, as every settings message leaves them; other values given by the environment hold until the first message.
- Alerts.GetAlerts: takes the hours walked to lie between the years 1000 and 9999, whose texts have four digits.
- SQL rewriting and validation, the console, presets and schema pages, latency figures, connection handling, the dashboard's pages and the deployment files.
- Pacing.PaceIsExact: does not model the rounding of a binary sum of rate times period.
- Snapshots.SparkBulk.RegisterBulkView: takes the clock to be past its tenth digit, as every clock since 2001 is, and Cassandra's clock to be this process's.
- Settlement.SettledIsFinal: takes record stamps not to decrease within a partition, an event's own time to be within the margin before its stamp, and later records and clocks to be past the window's end.
