/** Whether a window is settled: nothing left on any partition can be filed under it.

The backend asks Kafka three questions one after another: which offsets the sink has
committed, where the first record stamped past the window's end is, and where each
partition ends.  Records may arrive between the questions.  The sink reads on from what it
has committed, files an event under the time in its id, and under its own clock when the id
cannot be read.
 */
module Settlement {
  import opened Windows
  import opened Calendar
  import opened Options

  /** Added to a window's end before Kafka is asked, in seconds. */
  const SETTLED_MARGIN_S: int := 60

  const MARGIN: int := SETTLED_MARGIN_S * 1_000_000

  /** A record: Kafka's stamp in milliseconds, and the instant in its event id, if readable. */
  datatype Record = Record(stampMs: int, event: Option<int>)

  type Log = seq<Record>

  function TargetMs(windowEnd: int): int { (windowEnd + MARGIN) / 1000 }

  /** The first offset whose stamp is at or past a target: Kafka's offsets_for_times. */
  function FirstBeyond(log: Log, targetMs: int): Option<nat> {
    if log == [] then None
    else
      var n := |log| - 1;
      var before := FirstBeyond(log[..n], targetMs);
      if before.Some? then before
      else if log[n].stampMs >= targetMs then Some(n) else None
  }

  lemma {:induction false} FirstBeyondFacts(log: Log, targetMs: int)
    ensures FirstBeyond(log, targetMs).Some? ==>
              var o := FirstBeyond(log, targetMs).value;
              o < |log| && log[o].stampMs >= targetMs && forall i :: 0 <= i < o ==> log[i].stampMs < targetMs
    ensures FirstBeyond(log, targetMs).None? ==> forall i :: 0 <= i < |log| ==> log[i].stampMs < targetMs
  {
    if log != [] {
      FirstBeyondFacts(log[..|log| - 1], targetMs);
    }
  }

  // ----- the verdict

  /** What Kafka answered of every partition: the sink's commits, the first offset past the
      target if any, and where the partition ends. */
  datatype Offsets = Offsets(committed: map<nat, int>, beyond: map<nat, Option<nat>>, ends: map<nat, nat>)

  predicate HasCommit(p: nat, o: Offsets) { p in o.committed && o.committed[p] >= 0 }

  predicate HasBeyond(p: nat, o: Offsets) { p in o.beyond && o.beyond[p].Some? }

  /** There is a commit to judge by, and something to judge it against. */
  predicate Known(p: nat, o: Offsets) { HasCommit(p, o) && (HasBeyond(p, o) || p in o.ends) }

  /** The sink has committed at or past the first record beyond the target; where there is
      none, it has committed the whole partition. */
  predicate Passes(p: nat, o: Offsets) {
    && HasCommit(p, o)
    && (HasBeyond(p, o) ==> o.committed[p] >= o.beyond[p].value)
    && (!HasBeyond(p, o) ==> p in o.ends && o.committed[p] >= o.ends[p])
  }

  /** So many records are missing: with them the sink would be just where it has to be. */
  predicate LacksBy(p: nat, o: Offsets, missing: int) {
    && Known(p, o) && missing > 0
    && o.committed[p] + missing == if HasBeyond(p, o) then o.beyond[p].value else o.ends[p]
  }

  datatype Verdict =
    | Settled
    | NoPartitions
    | NoCommit(partition: nat)
    | NoEnd(partition: nat)
    | Short(short: map<nat, int>, worst: nat)
    | NoAnswer

  /** What Kafka says, or that it could not be asked. */
  datatype Kafka = Answers(partitions: seq<nat>, offsets: Offsets) | Raised

  /** The check.  Only the one verdict is a yes; a verdict of short lists exactly the partitions
      that lack records, and by how many. */
  method SinkConsumedPast(kafka: Kafka) returns (verdict: Verdict)
    ensures verdict.NoAnswer? <==> kafka.Raised?
    ensures verdict.Settled? <==>
            && kafka.Answers? && kafka.partitions != []
            && forall p :: p in kafka.partitions ==> Passes(p, kafka.offsets)
    ensures kafka.Answers? ==> Judges(kafka.partitions, kafka.offsets, verdict)
  {
    match kafka
    case Raised => verdict := NoAnswer;
    case Answers(partitions, offsets) =>
      verdict := CheckPartitions(partitions, offsets);
  }

  /** The first partition of which not enough is known. */
  ghost predicate FirstUnknown(partitions: seq<nat>, o: Offsets, i: nat) {
    i < |partitions| && !Known(partitions[i], o) && forall j :: 0 <= j < i ==> Known(partitions[j], o)
  }

  /** The first of the partitions that lack the most. */
  ghost predicate FirstWorst(partitions: seq<nat>, short: map<nat, int>, i: nat) {
    && i < |partitions| && partitions[i] in short
    && (forall p :: p in short ==> short[p] <= short[partitions[i]])
    && (forall j :: 0 <= j < i && partitions[j] in short ==> short[partitions[j]] < short[partitions[i]])
  }

  /** What a verdict says of the answers. */
  ghost predicate Judges(partitions: seq<nat>, o: Offsets, verdict: Verdict) {
    match verdict
    case Settled => partitions != [] && forall p :: p in partitions ==> Passes(p, o)
    case NoPartitions => partitions == []
    case NoCommit(p) => !HasCommit(p, o) && exists i: nat :: FirstUnknown(partitions, o, i) && partitions[i] == p
    case NoEnd(p) => HasCommit(p, o) && exists i: nat :: FirstUnknown(partitions, o, i) && partitions[i] == p
    case Short(short, worst) =>
      && (forall p :: p in partitions ==> Known(p, o))
      && Shortfall(partitions, o, short)
      && exists i: nat :: FirstWorst(partitions, short, i) && partitions[i] == worst
    case NoAnswer => false
  }

  /** Exactly the partitions that do not pass are listed, each with what it lacks. */
  ghost predicate Shortfall(partitions: seq<nat>, o: Offsets, short: map<nat, int>) {
    && (forall p :: p in short ==> p in partitions && LacksBy(p, o, short[p]))
    && (forall i :: 0 <= i < |partitions| && partitions[i] !in short ==> Passes(partitions[i], o))
  }

  lemma ShortfallGrows(partitions: seq<nat>, o: Offsets, short: map<nat, int>, p: nat, missing: int)
    requires Shortfall(partitions, o, short) && Known(p, o)
    requires missing > 0 ==> LacksBy(p, o, missing)
    requires missing <= 0 ==> Passes(p, o)
    ensures Shortfall(partitions + [p], o, if missing > 0 then short[p := missing] else short)
  {
  }

  lemma WorstGrows(partitions: seq<nat>, o: Offsets, short: map<nat, int>, worst: nat, p: nat, missing: int)
    requires Shortfall(partitions, o, short) && LacksBy(p, o, missing)
    requires short != map[] ==> FirstWorst(partitions, short, worst)
    ensures
      var next := if short == map[] || missing > short[partitions[worst]] then |partitions| else worst;
      FirstWorst(partitions + [p], short[p := missing], next)
  {
    assert p in short ==> short[p] == missing;
  }

  /** Partition by partition. */
  method CheckPartitions(partitions: seq<nat>, o: Offsets) returns (verdict: Verdict)
    ensures Judges(partitions, o, verdict)
    ensures verdict.Settled? <==> partitions != [] && forall p :: p in partitions ==> Passes(p, o)
  {
    if partitions == [] {
      return NoPartitions;
    }
    var short: map<nat, int>, worst := map[], 0;
    for i := 0 to |partitions|
      invariant forall j :: 0 <= j < i ==> Known(partitions[j], o)
      invariant Shortfall(partitions[..i], o, short)
      invariant short != map[] ==> worst < i && FirstWorst(partitions[..i], short, worst)
    {
      var p := partitions[i];
      assert p in partitions && partitions[..i + 1] == partitions[..i] + [p];
      if p !in o.committed || o.committed[p] < 0 {
        assert FirstUnknown(partitions, o, i);
        return NoCommit(p);
      }
      var needed;
      if p in o.beyond && o.beyond[p].Some? {
        needed := o.beyond[p].value;
      } else if p in o.ends {
        needed := o.ends[p];
      } else {
        assert FirstUnknown(partitions, o, i);
        return NoEnd(p);
      }
      ShortfallGrows(partitions[..i], o, short, p, needed - o.committed[p]);
      if o.committed[p] < needed {
        var missing := needed - o.committed[p];
        WorstGrows(partitions[..i], o, short, worst, p, missing);
        if short == map[] || missing > short[partitions[worst]] {
          worst := i;
        }
        short := short[p := missing];
      }
    }
    assert partitions[..|partitions|] == partitions;
    if short != map[] {
      assert !Passes(partitions[worst], o);
      return Short(short, partitions[worst]);
    }
    verdict := Settled;
  }

  // ----- what a yes means

  /** Stamps never go down within a partition. */
  ghost predicate Ordered(log: Log) {
    forall i, j :: 0 <= i < j < |log| ==> log[i].stampMs <= log[j].stampMs
  }

  /** An event's own time is no more than the margin before its record's stamp. */
  predicate NearStamp(r: Record) { r.event.Some? ==> r.event.value >= r.stampMs * 1000 - MARGIN }

  ghost predicate WithinMargin(log: Log) { forall i :: 0 <= i < |log| ==> NearStamp(log[i]) }

  /** One partition at the times of the three questions and afterwards. */
  datatype History = History(committed: int, atBeyond: Log, atEnds: Log, later: Log)

  ghost predicate Grows(h: History) { h.atBeyond <= h.atEnds <= h.later }

  /** No record past the target had arrived when Kafka was asked for one. */
  ghost predicate Quiet(h: History, windowEnd: int) {
    forall i :: 0 <= i < |h.atBeyond| ==> h.atBeyond[i].stampMs < TargetMs(windowEnd)
  }

  /** The sink has come to a record past the target. */
  ghost predicate ReachedTarget(h: History, windowEnd: int) {
    exists i :: 0 <= i < |h.atBeyond| && h.atBeyond[i].stampMs >= TargetMs(windowEnd) && i <= h.committed
  }

  /** The sink has come to a record past the target or, where there was none, to the end. */
  ghost predicate Passed(h: History, windowEnd: int) {
    Grows(h) && (ReachedTarget(h, windowEnd) || (Quiet(h, windowEnd) && h.committed >= |h.atEnds|))
  }

  /** The instant the sink files a delivered record under: the event's, or its own clock's. */
  function FiledAt(r: Record, clock: int): int {
    if r.event.Some? then r.event.value else clock
  }

  ghost predicate InWindow(t: int, start: int, length: int)
    requires length >= 1
  {
    BucketStart(t, length) == start
  }

  /** The target is the least that will do: with every event dated at most the margin before its
      stamp, exactly the stamps from the target on keep events out of the window. */
  lemma TargetIsLeast(windowEnd: int, stampMs: int)
    requires windowEnd % 1000 == 0
    ensures stampMs >= TargetMs(windowEnd) <==>
            forall r: Record :: NearStamp(r) && r.stampMs == stampMs && r.event.Some? ==> r.event.value >= windowEnd
  {
    var earliest := Record(stampMs, Some(stampMs * 1000 - MARGIN));
    assert NearStamp(earliest);
  }

  /** On a partition that already had a record past the target, every record still to be
      delivered is stamped, and so dated, past the window. */
  lemma BusyPartition(h: History, windowEnd: int, offset: nat)
    requires Passed(h, windowEnd) && Ordered(h.later) && WithinMargin(h.later) && windowEnd % 1000 == 0
    requires !Quiet(h, windowEnd) && h.committed <= offset < |h.later|
    ensures h.later[offset].event.Some? ==> h.later[offset].event.value >= windowEnd
  {
    var i :| 0 <= i < |h.atBeyond| && h.atBeyond[i].stampMs >= TargetMs(windowEnd) && i <= h.committed;
    assert h.later[i] == h.atBeyond[i];
    assert h.later[offset].stampMs >= TargetMs(windowEnd);
  }

  /** After a yes, exactly two kinds of delivery still land in the window: a record that came
      after the check, on a partition with nothing past the target, dated in the window; and
      a record without a readable id, handled while the sink's clock is in the window. */
  lemma SettledExactly(h: History, t: int, length: int, offset: nat, clock: int)
    requires length >= 1
    requires
      var windowEnd := BucketStart(t, length) + length * MICROS_PER_MINUTE;
      Passed(h, windowEnd) && Ordered(h.later) && WithinMargin(h.later)
    requires h.committed <= offset < |h.later|
    ensures
      var start := BucketStart(t, length);
      var windowEnd := start + length * MICROS_PER_MINUTE;
      var r := h.later[offset];
      InWindow(FiledAt(r, clock), start, length) <==>
        || (r.event.None? && InWindow(clock, start, length))
        || (r.event.Some? && Quiet(h, windowEnd) && offset >= |h.atEnds| && InWindow(r.event.value, start, length))
  {
    var windowEnd := BucketStart(t, length) + length * MICROS_PER_MINUTE;
    var r := h.later[offset];
    assert windowEnd == (FloorMinute(t / MICROS_PER_MINUTE, length) + length) * MICROS_PER_MINUTE;
    assert windowEnd % 1000 == 0;
    if r.event.Some? && !Quiet(h, windowEnd) {
      BusyPartition(h, windowEnd, offset);
      PastTheEndIsOutside(t, r.event.value, length);
    }
  }

  /** What is assumed of the producer and the clocks after the check. */
  ghost predicate NothingLate(h: History, windowEnd: int) {
    forall i :: |h.atEnds| <= i < |h.later| && h.later[i].event.Some? ==> h.later[i].event.value >= windowEnd
  }

  /** With later records dated past the window's end and the sink's clock past it too, no
      delivery on any partition, in any order and however often, is filed under the window. */
  lemma SettledIsFinal(
    partitions: map<nat, History>, t: int, length: int, deliveries: seq<(nat, nat, int)>, i: nat)
    requires length >= 1 && i < |deliveries|
    requires
      var windowEnd := BucketStart(t, length) + length * MICROS_PER_MINUTE;
      && (forall p :: p in partitions ==> Passed(partitions[p], windowEnd))
      && Orderly(partitions, windowEnd) && Deliverable(partitions, windowEnd, deliveries)
    ensures
      var (p, offset, clock) := deliveries[i];
      p in partitions && offset < |partitions[p].later| &&
      !InWindow(FiledAt(partitions[p].later[offset], clock), BucketStart(t, length), length)
  {
    var (p, offset, clock) := deliveries[i];
    assert deliveries[i] in deliveries;
    var h := partitions[p];
    var r := h.later[offset];
    SettledExactly(h, t, length, offset, clock);
    PastTheEndIsOutside(t, clock, length);
    if r.event.Some? && offset >= |h.atEnds| {
      PastTheEndIsOutside(t, r.event.value, length);
    }
  }

  /** Kafka's answers about a partition are those of its history. */
  ghost predicate Told(p: nat, h: History, windowEnd: int, o: Offsets) {
    && Grows(h)
    && (p in o.committed ==> o.committed[p] == h.committed)
    && (if p in o.beyond then o.beyond[p] else None) == FirstBeyond(h.atBeyond, TargetMs(windowEnd))
    && (p in o.ends ==> o.ends[p] == |h.atEnds|)
  }

  /** When the answers are Kafka's, a partition passes only if the sink has come far enough, and
      does if it has and Kafka knows its commit and its end, however many records follow. */
  lemma VerdictIsPassed(p: nat, h: History, windowEnd: int, o: Offsets)
    requires Told(p, h, windowEnd, o)
    ensures Passes(p, o) ==> Passed(h, windowEnd)
    ensures HasCommit(p, o) && p in o.ends && Passed(h, windowEnd) ==> Passes(p, o)
  {
    FirstBeyondFacts(h.atBeyond, TargetMs(windowEnd));
  }

  /** The topic's partitions, as the three answers and the future show them. */
  ghost predicate Answered(kafka: Kafka, topic: map<nat, History>, windowEnd: int) {
    kafka.Answers? ==>
      forall p :: p in topic ==>
        p in kafka.partitions && Told(p, topic[p], windowEnd, kafka.offsets)
  }

  /** Kafka left nothing unsaid: every partition it names is one of the topic's, with a commit
      and an end. */
  ghost predicate AllTold(kafka: Kafka, topic: map<nat, History>) {
    kafka.Answers? && kafka.partitions != [] &&
    forall p :: p in kafka.partitions ==> p in topic && HasCommit(p, kafka.offsets) && p in kafka.offsets.ends
  }

  /** What is assumed of the producer: stamps in order, events within the margin of them, and
      nothing sent later that is dated before the window's end. */
  ghost predicate Orderly(topic: map<nat, History>, windowEnd: int) {
    forall p :: p in topic ==>
      Ordered(topic[p].later) && WithinMargin(topic[p].later) && NothingLate(topic[p], windowEnd)
  }

  /** Deliveries the sink may still make, each with its clock past the window's end. */
  ghost predicate Deliverable(topic: map<nat, History>, windowEnd: int, deliveries: seq<(nat, nat, int)>) {
    forall d :: d in deliveries ==>
      d.0 in topic && topic[d.0].committed <= d.1 < |topic[d.0].later| && d.2 >= windowEnd
  }

  /** No delivery is filed under the window. */
  ghost predicate NoneFiled(topic: map<nat, History>, deliveries: seq<(nat, nat, int)>, t: int, length: int)
    requires length >= 1
  {
    forall d :: d in deliveries && d.0 in topic && d.1 < |topic[d.0].later| ==>
      !InWindow(FiledAt(topic[d.0].later[d.1], d.2), BucketStart(t, length), length)
  }

  lemma SettledFilesNone(kafka: Kafka, topic: map<nat, History>, t: int, length: int, deliveries: seq<(nat, nat, int)>)
    requires length >= 1 && kafka.Answers?
    requires Judges(kafka.partitions, kafka.offsets, Settled)
    requires
      var windowEnd := BucketStart(t, length) + length * MICROS_PER_MINUTE;
      Answered(kafka, topic, windowEnd) && Orderly(topic, windowEnd) && Deliverable(topic, windowEnd, deliveries)
    ensures NoneFiled(topic, deliveries, t, length)
  {
    var windowEnd := BucketStart(t, length) + length * MICROS_PER_MINUTE;
    forall p | p in topic ensures Passed(topic[p], windowEnd) {
      VerdictIsPassed(p, topic[p], windowEnd, kafka.offsets);
    }
    forall d | d in deliveries && d.0 in topic && d.1 < |topic[d.0].later|
      ensures !InWindow(FiledAt(topic[d.0].later[d.1], d.2), BucketStart(t, length), length)
    {
      var i :| 0 <= i < |deliveries| && deliveries[i] == d;
      SettledIsFinal(topic, t, length, deliveries, i);
    }
  }

  /** The check of one window, from Kafka's answers to what a yes promises: over the whole topic
      no delivery still to come, in any order and however often, is filed under the window. */
  method SettledWindow(kafka: Kafka, ghost topic: map<nat, History>, t: int, length: int) returns (verdict: Verdict)
    requires length >= 1
    requires Answered(kafka, topic, BucketStart(t, length) + length * MICROS_PER_MINUTE)
    ensures kafka.Answers? ==> Judges(kafka.partitions, kafka.offsets, verdict)
    ensures AllTold(kafka, topic) ==>
              var windowEnd := BucketStart(t, length) + length * MICROS_PER_MINUTE;
              (verdict.Settled? <==> forall p :: p in topic ==> Passed(topic[p], windowEnd))
    ensures verdict.Settled? ==>
              var windowEnd := BucketStart(t, length) + length * MICROS_PER_MINUTE;
              forall deliveries ::
                Orderly(topic, windowEnd) && Deliverable(topic, windowEnd, deliveries) ==>
                  NoneFiled(topic, deliveries, t, length)
  {
    verdict := SinkConsumedPast(kafka);
    ghost var windowEnd := BucketStart(t, length) + length * MICROS_PER_MINUTE;
    forall p | p in topic && kafka.Answers?
      ensures Passes(p, kafka.offsets) ==> Passed(topic[p], windowEnd)
      ensures HasCommit(p, kafka.offsets) && p in kafka.offsets.ends && Passed(topic[p], windowEnd) ==>
                Passes(p, kafka.offsets)
    {
      VerdictIsPassed(p, topic[p], windowEnd, kafka.offsets);
    }
    if verdict.Settled? {
      forall deliveries | Orderly(topic, windowEnd) && Deliverable(topic, windowEnd, deliveries)
        ensures NoneFiled(topic, deliveries, t, length)
      {
        SettledFilesNone(kafka, topic, t, length, deliveries);
      }
    }
  }

  /** Without the assumption on later records a yes does not last: an empty partition passes
      with nothing committed, and an event dated in the window arrives afterwards. */
  lemma LateRecordLandsInWindow()
    ensures
      var h := History(0, [], [], [Record(0, Some(0))]);
      var length := 15;
      && Passed(h, BucketStart(0, length) + length * MICROS_PER_MINUTE)
      && Ordered(h.later) && WithinMargin(h.later)
      && InWindow(FiledAt(h.later[0], 0), BucketStart(0, length), length)
  {
  }
}
