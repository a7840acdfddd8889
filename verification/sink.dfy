/** The sink's poll, write and commit loop.

The consumer's position and its committed offset are two things.  A batch whose writes are
not all acknowledged is left uncommitted, but the consumer does not go back for it: only a
restart, which resumes from the committed offset, reads it again.
 */
module SinkLoop {

  /** A record: its partition and its offset there. */
  type Place = (nat, nat)

  /** Per partition, the next offset to read and the committed one; the records whose raw and
      history rows were acknowledged; and the ingestion counter. */
  datatype State = State(position: seq<nat>, committed: seq<nat>, acked: set<Place>, counter: nat)

  /** Pointwise order on offsets. */
  ghost predicate AtOrBefore(a: seq<nat>, b: seq<nat>) {
    |a| == |b| && forall p :: 0 <= p < |a| ==> a[p] <= b[p]
  }

  /** The records from one set of offsets up to another. */
  ghost predicate Between(from: seq<nat>, to: seq<nat>, r: Place) {
    r.0 < |from| && r.0 < |to| && from[r.0] <= r.1 < to[r.0]
  }

  function Sum(s: seq<nat>): nat {
    if s == [] then 0 else Sum(s[..|s| - 1]) + s[|s| - 1]
  }

  lemma {:induction false} SumMonotone(a: seq<nat>, b: seq<nat>)
    requires AtOrBefore(a, b)
    ensures Sum(a) <= Sum(b)
  {
    if a != [] {
      SumMonotone(a[..|a| - 1], b[..|b| - 1]);
    }
  }

  /** How many records lie between two sets of offsets. */
  function Size(from: seq<nat>, to: seq<nat>): int { Sum(to) - Sum(from) }

  // ----- steps

  /** The records of a batch. */
  function Batch(from: seq<nat>, to: seq<nat>): (batch: set<Place>)
    ensures forall r :: r in batch <==> Between(from, to, r)
  {
    set p: nat, o: nat | p < |from| && p < |to| && from[p] <= o < to[p] :: (p, o)
  }

  /** What one turn of the loop can come to. */
  datatype Step =
    /** Every write acknowledged, offsets committed; the counter's own write may be lost. */
    | Committed(to: seq<nat>, counted: bool)
    /** Some write failed: nothing committed, some records' rows acknowledged. */
    | Failed(to: seq<nat>, acks: set<Place>)
    /** The process starts again from what it has committed. */
    | Restart

  /** A turn reads a batch of one record or more, and only its own records are acknowledged. */
  ghost predicate Allowed(s: State, step: Step) {
    match step
    case Committed(to, _) => AtOrBefore(s.position, to) && to != s.position
    case Failed(to, acks) => AtOrBefore(s.position, to) && to != s.position && acks <= Batch(s.position, to)
    case Restart => true
  }

  function Next(s: State, step: Step): State {
    match step
    case Committed(to, counted) =>
      var size := Size(s.position, to);
      State(to, to, s.acked + Batch(s.position, to), s.counter + if counted && size >= 0 then size else 0)
    case Failed(to, acks) => s.(position := to, acked := s.acked + acks)
    case Restart => s.(position := s.committed)
  }

  function Start(partitions: nat): State {
    State(seq(partitions, i => 0), seq(partitions, i => 0), {}, 0)
  }

  function Run(partitions: nat, steps: seq<Step>): State {
    if steps == [] then Start(partitions)
    else Next(Run(partitions, steps[..|steps| - 1]), steps[|steps| - 1])
  }

  /** Every step is allowed where it is taken. */
  ghost predicate Possible(partitions: nat, steps: seq<Step>) {
    steps != [] ==>
      var init := steps[..|steps| - 1];
      Possible(partitions, init) && Allowed(Run(partitions, init), steps[|steps| - 1])
  }

  // ----- what every run keeps

  ghost predicate Ordered(s: State) { AtOrBefore(s.committed, s.position) }

  lemma NextOrdered(s: State, step: Step)
    requires Ordered(s) && Allowed(s, step)
    ensures Ordered(Next(s, step)) && AtOrBefore(s.committed, Next(s, step).committed)
  {
  }

  lemma {:induction false} RunsAreOrdered(partitions: nat, steps: seq<Step>)
    requires Possible(partitions, steps)
    ensures Ordered(Run(partitions, steps))
  {
    if steps != [] {
      PossiblePrefix(partitions, steps, |steps| - 1);
      RunsAreOrdered(partitions, steps[..|steps| - 1]);
      NextOrdered(Run(partitions, steps[..|steps| - 1]), steps[|steps| - 1]);
    }
  }

  lemma {:induction false} PossiblePrefix(partitions: nat, steps: seq<Step>, n: nat)
    requires Possible(partitions, steps) && n <= |steps|
    ensures Possible(partitions, steps[..n])
    ensures n < |steps| ==> Allowed(Run(partitions, steps[..n]), steps[n])
    decreases |steps|
  {
    if n == |steps| {
      assert steps[..n] == steps;
    } else if n < |steps| - 1 {
      var init := steps[..|steps| - 1];
      PossiblePrefix(partitions, init, n);
      assert init[..n] == steps[..n];
    }
  }

  /** Nothing below an offset once committed is ever read again: whatever a turn reads lies at
      or past every offset committed earlier in the run. */
  lemma ReadsStayPastCommit(partitions: nat, steps: seq<Step>, i: nat, to: seq<nat>, r: Place)
    requires Possible(partitions, steps) && i <= |steps|
    requires Between(Run(partitions, steps).position, to, r)
    ensures
      var c := Run(partitions, steps[..i]).committed;
      r.0 < |c| && r.1 >= c[r.0]
  {
    CommitsGrow(partitions, steps, i);
    RunsAreOrdered(partitions, steps);
  }

  lemma {:induction false} CommitsGrow(partitions: nat, steps: seq<Step>, i: nat)
    requires Possible(partitions, steps) && i <= |steps|
    ensures AtOrBefore(Run(partitions, steps[..i]).committed, Run(partitions, steps).committed)
    decreases |steps| - i
  {
    if i < |steps| {
      CommitsGrow(partitions, steps, i + 1);
      PossiblePrefix(partitions, steps, i);
      RunsAreOrdered(partitions, steps[..i]);
      RunSnoc(partitions, steps, i);
      NextOrdered(Run(partitions, steps[..i]), steps[i]);
    } else {
      assert steps[..i] == steps;
    }
  }

  /** The ingestion counter never exceeds the records committed. */
  lemma {:induction false} CounterNeverAhead(partitions: nat, steps: seq<Step>)
    requires Possible(partitions, steps)
    ensures Run(partitions, steps).counter <= Sum(Run(partitions, steps).committed)
  {
    if steps != [] {
      var n := |steps| - 1;
      var s := Run(partitions, steps[..n]);
      PossiblePrefix(partitions, steps, n);
      CounterNeverAhead(partitions, steps[..n]);
      RunsAreOrdered(partitions, steps[..n]);
      SumMonotone(s.committed, s.position);
      if steps[n].Committed? {
        SumMonotone(s.position, steps[n].to);
      }
    }
  }

  /** The records of the turns that were committed and counted. */
  function CountedRecords(partitions: nat, steps: seq<Step>): nat {
    if steps == [] then 0
    else
      var n := |steps| - 1;
      CountedRecords(partitions, steps[..n])
      + match steps[n]
        case Committed(to, counted) =>
          if counted then |Batch(Run(partitions, steps[..n]).position, to)| else 0
        case _ => 0
  }

  /** The records of one partition in a batch. */
  function Stretch(p: nat, from: nat, to: nat): (records: set<Place>)
    requires from <= to
    ensures forall r :: r in records <==> r.0 == p && from <= r.1 < to
    decreases (to)
  {
    if from == to then {} else Stretch(p, from, to - 1) + {(p, to - 1)}
  }

  lemma {:induction false} StretchCount(p: nat, from: nat, to: nat)
    requires from <= to
    ensures |Stretch(p, from, to)| == to - from
    decreases (to)
  {
    if from < to {
      StretchCount(p, from, to - 1);
    }
  }

  lemma BatchSplits(from: seq<nat>, to: seq<nat>)
    requires AtOrBefore(from, to) && from != []
    ensures
      var p := |from| - 1;
      && Batch(from, to) == Batch(from[..p], to[..p]) + Stretch(p, from[p], to[p])
      && Batch(from[..p], to[..p]) !! Stretch(p, from[p], to[p])
  {
    var p := |from| - 1;
    forall r ensures Between(from, to, r) <==> Between(from[..p], to[..p], r) || r in Stretch(p, from[p], to[p]) {
    }
  }

  /** A batch has as many records as its offsets are apart. */
  lemma {:induction false} BatchSize(from: seq<nat>, to: seq<nat>)
    requires AtOrBefore(from, to)
    ensures |Batch(from, to)| == Size(from, to)
  {
    if from == [] {
      assert Batch(from, to) == {};
    } else {
      var p := |from| - 1;
      BatchSize(from[..p], to[..p]);
      StretchCount(p, from[p], to[p]);
      BatchSplits(from, to);
    }
  }

  /** The ingestion counter is what the committed and counted turns read. */
  lemma {:induction false} CounterCounts(partitions: nat, steps: seq<Step>)
    requires Possible(partitions, steps)
    ensures Run(partitions, steps).counter == CountedRecords(partitions, steps)
  {
    if steps != [] {
      var n := |steps| - 1;
      CounterCounts(partitions, steps[..n]);
      if steps[n].Committed? {
        BatchSize(Run(partitions, steps[..n]).position, steps[n].to);
      }
    }
  }

  /** The record's rows were acknowledged in this turn. */
  ghost predicate AcksAt(partitions: nat, steps: seq<Step>, r: Place, i: nat) {
    && i < |steps|
    && match steps[i]
       case Committed(to, _) => Between(Run(partitions, steps[..i]).position, to, r)
       case Failed(_, acks) => r in acks
       case Restart => false
  }

  /** A record has its rows exactly if some turn had them acknowledged. */
  lemma {:induction false} AckedIff(partitions: nat, steps: seq<Step>, r: Place)
    ensures r in Run(partitions, steps).acked <==> exists i: nat :: AcksAt(partitions, steps, r, i)
  {
    if steps != [] {
      var n := |steps| - 1;
      AckedIff(partitions, steps[..n], r);
      forall i: nat | i < n ensures AcksAt(partitions, steps[..n], r, i) <==> AcksAt(partitions, steps, r, i) {
        assert steps[..n][..i] == steps[..i];
      }
      LastAcks(partitions, steps, r);
    }
  }

  lemma LastAcks(partitions: nat, steps: seq<Step>, r: Place)
    requires steps != []
    ensures
      var n := |steps| - 1;
      r in Run(partitions, steps).acked <==>
      r in Run(partitions, steps[..n]).acked || AcksAt(partitions, steps, r, n)
  {
  }

  // ----- nothing committed without its rows

  /** Every record below the committed offsets has its rows. */
  ghost predicate RowsBelowCommit(s: State) {
    forall r: Place :: r.0 < |s.committed| && r.1 < s.committed[r.0] ==> r in s.acked
  }

  /** A batch failed and the process has not restarted since. */
  predicate FailurePending(steps: seq<Step>) {
    steps != [] &&
    match steps[|steps| - 1]
    case Restart => false
    case Failed(_, _) => true
    case Committed(_, _) => FailurePending(steps[..|steps| - 1])
  }

  /** No batch is committed while a failed one waits to be read again. */
  predicate ReadsFailuresAgain(steps: seq<Step>) {
    forall i :: 0 <= i < |steps| && steps[i].Committed? ==> !FailurePending(steps[..i])
  }

  ghost predicate AlwaysRows(partitions: nat, steps: seq<Step>) {
    forall i :: 0 <= i <= |steps| ==> RowsBelowCommit(Run(partitions, steps[..i]))
  }

  /** With no failure pending the consumer stands where it has committed. */
  lemma {:induction false} RowsWhenReadAgain(partitions: nat, steps: seq<Step>)
    requires Possible(partitions, steps) && ReadsFailuresAgain(steps)
    ensures RowsBelowCommit(Run(partitions, steps))
    ensures !FailurePending(steps) ==> Run(partitions, steps).position == Run(partitions, steps).committed
  {
    if steps != [] {
      var n := |steps| - 1;
      PossiblePrefix(partitions, steps, n);
      ReadsAgainPrefix(steps, n);
      RowsWhenReadAgain(partitions, steps[..n]);
      if steps[n].Committed? {
        CommitRows(Run(partitions, steps[..n]), steps[n]);
      }
    }
  }

  lemma CommitRows(s: State, step: Step)
    requires step.Committed? && Allowed(s, step) && s.position == s.committed && RowsBelowCommit(s)
    ensures RowsBelowCommit(Next(s, step))
  {
    forall r: Place | r.0 < |step.to| && r.1 < step.to[r.0]
      ensures r in Next(s, step).acked
    {
      if r.1 >= s.position[r.0] {
        assert Between(s.position, step.to, r);
      }
    }
  }

  lemma {:induction false} SumStrict(a: seq<nat>, b: seq<nat>)
    requires AtOrBefore(a, b)
    ensures Sum(a) <= Sum(b) && (Sum(a) == Sum(b) <==> a == b)
  {
    if a != [] {
      var n := |a| - 1;
      SumStrict(a[..n], b[..n]);
      SameEnds(a, b);
    }
  }

  lemma SameEnds(a: seq<nat>, b: seq<nat>)
    requires |a| == |b| > 0
    ensures
      var n := |a| - 1;
      a == b <==> a[..n] == b[..n] && a[n] == b[n]
  {
    var n := |a| - 1;
    assert a == a[..n] + [a[n]] && b == b[..n] + [b[n]];
  }

  /** Every commit was counted. */
  predicate AllCounted(steps: seq<Step>) {
    forall i :: 0 <= i < |steps| && steps[i].Committed? ==> steps[i].counted
  }

  /** While failures are read again, the position is ahead of the commit exactly if one is
      pending. */
  lemma {:induction false} PendingIsAhead(partitions: nat, steps: seq<Step>)
    requires Possible(partitions, steps) && ReadsFailuresAgain(steps)
    ensures FailurePending(steps) <==> Run(partitions, steps).position != Run(partitions, steps).committed
  {
    if steps != [] {
      var n := |steps| - 1;
      ReadsAgainPrefix(steps, n);
      PendingIsAhead(partitions, steps[..n]);
      RunsAreOrdered(partitions, steps[..n]);
      if steps[n].Failed? {
        var s := Run(partitions, steps[..n]);
        var p :| 0 <= p < |s.position| && s.position[p] != steps[n].to[p];
      }
    }
  }

  /** The counter is the number of committed records exactly when every commit was counted and
      none was made over a failed batch that was not read again. */
  lemma {:induction false} CounterExactIff(partitions: nat, steps: seq<Step>)
    requires Possible(partitions, steps)
    ensures Run(partitions, steps).counter == Sum(Run(partitions, steps).committed) <==>
            AllCounted(steps) && ReadsFailuresAgain(steps)
  {
    if steps == [] {
      SumZero(partitions);
    } else {
      var n := |steps| - 1;
      var s := Run(partitions, steps[..n]);
      CounterExactIff(partitions, steps[..n]);
      CounterNeverAhead(partitions, steps[..n]);
      RunsAreOrdered(partitions, steps[..n]);
      SumStrict(s.committed, s.position);
      if ReadsFailuresAgain(steps[..n]) {
        PendingIsAhead(partitions, steps[..n]);
      }
      if steps[n].Committed? {
        SumStrict(s.position, steps[n].to);
      }
      LastOfAll(steps);
    }
  }

  lemma {:induction false} SumZero(n: nat)
    ensures Sum(seq(n, i => 0)) == 0
  {
    if n > 0 {
      SumZero(n - 1);
      assert seq(n, i => 0)[..n - 1] == seq(n - 1, i => 0);
    }
  }

  /** What holds of all turns holds of all but the last and of the last. */
  lemma LastOfAll(steps: seq<Step>)
    requires steps != []
    ensures
      var n := |steps| - 1;
      && (AllCounted(steps) <==> AllCounted(steps[..n]) && (steps[n].Committed? ==> steps[n].counted))
      && (ReadsFailuresAgain(steps) <==>
          ReadsFailuresAgain(steps[..n]) && (steps[n].Committed? ==> !FailurePending(steps[..n])))
  {
    var n := |steps| - 1;
    assert forall i :: 0 <= i < n ==> steps[..n][..i] == steps[..i];
  }

  /** The same turns with other outcomes for the writes of failed batches. */
  ghost predicate SameTurns(a: seq<Step>, b: seq<Step>) {
    && |a| == |b|
    && forall i :: 0 <= i < |a| ==>
         match a[i]
         case Failed(to, _) => b[i].Failed? && b[i].to == to
         case _ => b[i] == a[i]
  }

  lemma {:induction false} SameTurnsPending(a: seq<Step>, b: seq<Step>)
    requires SameTurns(a, b)
    ensures FailurePending(a) == FailurePending(b)
  {
    if a != [] {
      assert SameTurns(a[..|a| - 1], b[..|b| - 1]);
      SameTurnsPending(a[..|a| - 1], b[..|b| - 1]);
    }
  }

  lemma SameTurnsReadAgain(a: seq<Step>, b: seq<Step>)
    requires SameTurns(a, b) && ReadsFailuresAgain(a)
    ensures ReadsFailuresAgain(b)
  {
    forall i | 0 <= i < |b| && b[i].Committed? ensures !FailurePending(b[..i]) {
      assert SameTurns(a[..i], b[..i]) && a[i].Committed?;
      SameTurnsPending(a[..i], b[..i]);
    }
  }

  /** Reading failed batches again is enough, whatever the writes came to. */
  lemma ReadingAgainSuffices(partitions: nat, steps: seq<Step>, other: seq<Step>)
    requires ReadsFailuresAgain(steps) && SameTurns(steps, other) && Possible(partitions, other)
    ensures AlwaysRows(partitions, other)
  {
    SameTurnsReadAgain(steps, other);
    forall i | 0 <= i <= |other| ensures RowsBelowCommit(Run(partitions, other[..i])) {
      PossiblePrefix(partitions, other, i);
      ReadsAgainPrefix(other, i);
      RowsWhenReadAgain(partitions, other[..i]);
    }
  }

  /** No failed batch had a row acknowledged. */
  predicate Worst(steps: seq<Step>) {
    forall i :: 0 <= i < |steps| && steps[i].Failed? ==> steps[i].acks == {}
  }

  /** Only committed records have rows. */
  ghost predicate RowsOnlyBelowCommit(s: State) {
    forall r: Place :: r in s.acked ==> r.0 < |s.committed| && r.1 < s.committed[r.0]
  }

  /** Some record was read and not committed. */
  ghost predicate Lagging(s: State) { exists r :: Between(s.committed, s.position, r) }

  lemma CommitKeepsRowsOnly(s: State, step: Step)
    requires RowsOnlyBelowCommit(s) && Ordered(s) && step.Committed? && Allowed(s, step)
    ensures RowsOnlyBelowCommit(Next(s, step))
  {
  }

  lemma FailureLags(s: State, step: Step)
    requires Ordered(s) && step.Failed? && Allowed(s, step)
    ensures Lagging(Next(s, step))
  {
    var p :| 0 <= p < |s.position| && s.position[p] != step.to[p];
    assert Between(s.committed, step.to, (p, s.position[p]));
  }

  /** Up to the first commit over a pending failure, only the committed records have rows, and
      a pending failure leaves the position past a record without. */
  lemma {:induction false} PendingIsUnread(partitions: nat, steps: seq<Step>)
    requires Possible(partitions, steps) && Worst(steps) && ReadsFailuresAgain(steps)
    ensures RowsOnlyBelowCommit(Run(partitions, steps))
    ensures FailurePending(steps) ==> Lagging(Run(partitions, steps))
  {
    if steps != [] {
      var n := |steps| - 1;
      var s, step := Run(partitions, steps[..n]), steps[n];
      PossiblePrefix(partitions, steps, n);
      ReadsAgainPrefix(steps, n);
      PendingIsUnread(partitions, steps[..n]);
      RunsAreOrdered(partitions, steps[..n]);
      match step
      case Committed(_, _) => CommitKeepsRowsOnly(s, step);
      case Failed(_, _) => FailureLags(s, step);
      case Restart =>
    }
  }

  lemma ReadsAgainPrefix(steps: seq<Step>, n: nat)
    requires ReadsFailuresAgain(steps) && n <= |steps|
    ensures ReadsFailuresAgain(steps[..n])
    ensures n < |steps| && steps[n].Committed? ==> !FailurePending(steps[..n])
  {
    assert forall i :: 0 <= i < n ==> steps[..n][..i] == steps[..i];
  }

  /** Committing past an unread record leaves it without rows for good. */
  lemma CommitSkips(s: State, step: Step, r: Place)
    requires step.Committed? && AtOrBefore(s.position, step.to)
    requires Between(s.committed, s.position, r) && r !in s.acked
    ensures !RowsBelowCommit(Next(s, step))
  {
    assert r !in Next(s, step).acked;
    assert r.0 < |step.to| && r.1 < step.to[r.0];
  }

  /** The first commit over a pending failure skips a record for good. */
  lemma SkippedForGood(partitions: nat, steps: seq<Step>, step: Step)
    requires Possible(partitions, steps) && Worst(steps) && ReadsFailuresAgain(steps)
    requires step.Committed? && FailurePending(steps) && Allowed(Run(partitions, steps), step)
    ensures !RowsBelowCommit(Next(Run(partitions, steps), step))
  {
    var s := Run(partitions, steps);
    PendingIsUnread(partitions, steps);
    var r :| Between(s.committed, s.position, r);
    CommitSkips(s, step, r);
  }

  /** The same turns, no failed batch with a row acknowledged. */
  function WorstOf(steps: seq<Step>): (worst: seq<Step>)
    ensures SameTurns(steps, worst) && Worst(worst)
  {
    seq(|steps|, i requires 0 <= i < |steps| => if steps[i].Failed? then Failed(steps[i].to, {}) else steps[i])
  }

  lemma WorstOfInit(steps: seq<Step>)
    requires steps != []
    ensures
      var n, worst := |steps| - 1, WorstOf(steps);
      worst[..n] == WorstOf(steps[..n])
  {
  }

  /** Where the consumer stands does not depend on what its failed writes came to. */
  lemma {:induction false} WorstOfPositions(partitions: nat, steps: seq<Step>)
    ensures
      var a, b := Run(partitions, steps), Run(partitions, WorstOf(steps));
      a.position == b.position && a.committed == b.committed
  {
    if steps != [] {
      WorstOfPositions(partitions, steps[..|steps| - 1]);
      WorstOfInit(steps);
    }
  }

  lemma {:induction false} WorstOfIsPossible(partitions: nat, steps: seq<Step>)
    requires Possible(partitions, steps)
    ensures Possible(partitions, WorstOf(steps))
  {
    if steps != [] {
      WorstOfIsPossible(partitions, steps[..|steps| - 1]);
      WorstOfPositions(partitions, steps[..|steps| - 1]);
      WorstOfInit(steps);
    }
  }

  /** The first commit over a pending failure. */
  lemma {:induction false} FirstSkip(steps: seq<Step>) returns (i: nat)
    requires !ReadsFailuresAgain(steps)
    ensures i < |steps| && steps[i].Committed? && FailurePending(steps[..i]) && ReadsFailuresAgain(steps[..i])
  {
    var n := |steps| - 1;
    assert forall k :: 0 <= k < n ==> steps[..n][..k] == steps[..k];
    if ReadsFailuresAgain(steps[..n]) {
      i := n;
    } else {
      i := FirstSkip(steps[..n]);
      assert steps[..n][..i] == steps[..i];
    }
  }

  /** If failed batches are not read again before the next commit, some outcome of the writes
      leaves a record below the committed offset without rows. */
  lemma SkippingLoses(partitions: nat, steps: seq<Step>)
    requires Possible(partitions, steps) && !ReadsFailuresAgain(steps)
    ensures !AlwaysRows(partitions, WorstOf(steps))
  {
    WorstOfIsPossible(partitions, steps);
    var i := FirstSkip(steps);
    SameTurnsPrefix(steps, WorstOf(steps), i);
    SkipAt(partitions, WorstOf(steps), i);
  }

  lemma SameTurnsPrefix(a: seq<Step>, b: seq<Step>, i: nat)
    requires SameTurns(a, b) && i < |a| && a[i].Committed?
    requires FailurePending(a[..i]) && ReadsFailuresAgain(a[..i])
    ensures b[i].Committed? && FailurePending(b[..i]) && ReadsFailuresAgain(b[..i])
  {
    assert SameTurns(a[..i], b[..i]);
    SameTurnsPending(a[..i], b[..i]);
    SameTurnsReadAgain(a[..i], b[..i]);
  }

  lemma SkipAt(partitions: nat, steps: seq<Step>, i: nat)
    requires Possible(partitions, steps) && Worst(steps)
    requires i < |steps| && steps[i].Committed?
    requires FailurePending(steps[..i]) && ReadsFailuresAgain(steps[..i])
    ensures !AlwaysRows(partitions, steps)
  {
    PossiblePrefix(partitions, steps, i);
    SkippedForGood(partitions, steps[..i], steps[i]);
    RunSnoc(partitions, steps, i);
    assert !RowsBelowCommit(Run(partitions, steps[..i + 1]));
  }

  lemma RunSnoc(partitions: nat, steps: seq<Step>, i: nat)
    requires i < |steps|
    ensures Run(partitions, steps[..i + 1]) == Next(Run(partitions, steps[..i]), steps[i])
  {
    assert steps[..i + 1][..i] == steps[..i];
  }

  /** Every record below the committed offsets has its rows, whatever the writes come to,
      exactly when no batch is committed over a failed one that was not read again. */
  lemma NothingLostIff(partitions: nat, steps: seq<Step>)
    requires Possible(partitions, steps)
    ensures ReadsFailuresAgain(steps) <==>
            (forall other :: SameTurns(steps, other) && Possible(partitions, other) ==>
               AlwaysRows(partitions, other))
  {
    if ReadsFailuresAgain(steps) {
      forall other | SameTurns(steps, other) && Possible(partitions, other)
        ensures AlwaysRows(partitions, other)
      {
        ReadingAgainSuffices(partitions, steps, other);
      }
    } else {
      WorstOfIsPossible(partitions, steps);
      SkippingLoses(partitions, steps);
    }
  }

  // ----- one turn of the loop

  datatype Table = Raw | History | Latest

  /** A write awaiting its acknowledgement. */
  datatype Write = Write(record: Place, table: Table)

  /** The three writes of each record from one offset of a partition to another. */
  function Writes(p: nat, from: nat, to: nat): (ws: seq<Write>)
    requires from <= to
    ensures |ws| == 3 * (to - from)
    decreases (to)
  {
    if from == to then []
    else
      var r := (p, to - 1);
      Writes(p, from, to - 1) + [Write(r, Raw), Write(r, History), Write(r, Latest)]
  }

  lemma {:induction false} WritesCover(p: nat, from: nat, to: nat, o: nat, t: Table)
    requires from <= o < to
    ensures Write((p, o), t) in Writes(p, from, to)
    decreases (to)
  {
    if o == to - 1 {
      var r := (p, o);
      assert Write(r, t) in [Write(r, Raw), Write(r, History), Write(r, Latest)];
    } else {
      WritesCover(p, from, to - 1, o, t);
    }
  }

  /** The records both of whose rows were acknowledged. */
  ghost function Landed(from: seq<nat>, to: seq<nat>, landed: Write -> bool): (acks: set<Place>)
    ensures forall r :: r in acks <==>
                        Between(from, to, r) && landed(Write(r, Raw)) && landed(Write(r, History))
  {
    set r | r in Batch(from, to) && landed(Write(r, Raw)) && landed(Write(r, History))
  }

  /** Whether every write of a batch is acknowledged. */
  ghost predicate AllLand(from: seq<nat>, to: seq<nat>, landed: Write -> bool) {
    forall r, t :: Between(from, to, r) ==> landed(Write(r, t))
  }

  /** The turn a batch comes to. */
  ghost function Outcome(from: seq<nat>, to: seq<nat>, landed: Write -> bool, counted: bool): Step {
    if AllLand(from, to, landed) then Committed(to, counted)
    else Failed(to, Landed(from, to, landed))
  }

  /** The writes of the first partitions of a batch. */
  ghost predicate Holds(pending: seq<Write>, from: seq<nat>, to: seq<nat>, n: nat)
    requires AtOrBefore(from, to) && n <= |from|
  {
    && (forall p, o, t :: 0 <= p < n && from[p] <= o < to[p] ==> Write((p, o), t) in pending)
    && (forall w :: w in pending ==> Between(from, to, w.record))
  }

  lemma HoldsNext(pending: seq<Write>, from: seq<nat>, to: seq<nat>, n: nat)
    requires AtOrBefore(from, to) && n < |from| && Holds(pending, from, to, n)
    ensures Holds(pending + Writes(n, from[n], to[n]), from, to, n + 1)
  {
    var more := Writes(n, from[n], to[n]);
    forall p, o, t | 0 <= p < n + 1 && from[p] <= o < to[p] ensures Write((p, o), t) in pending + more {
      if p == n {
        WritesCover(n, from[n], to[n], o, t);
      }
    }
    WritesStay(n, from[n], to[n]);
  }

  lemma {:induction false} WritesStay(p: nat, from: nat, to: nat)
    requires from <= to
    ensures forall w :: w in Writes(p, from, to) ==> (w.record.0 == p && from <= w.record.1 < to)
    decreases (to)
  {
    if from < to {
      WritesStay(p, from, to - 1);
    }
  }

  lemma SumTake(s: seq<nat>, n: nat)
    requires n < |s|
    ensures Sum(s[..n + 1]) == Sum(s[..n]) + s[n]
  {
    assert s[..n + 1][..n] == s[..n];
  }

  /** Issue the writes of a batch, partition by partition. */
  method Issue(from: seq<nat>, to: seq<nat>) returns (pending: seq<Write>, buffered: nat)
    requires AtOrBefore(from, to)
    ensures Holds(pending, from, to, |from|)
    ensures buffered == Size(from, to) && |pending| == 3 * buffered
  {
    pending, buffered := [], 0;
    var p := 0;
    while p < |from|
      invariant 0 <= p <= |from|
      invariant Holds(pending, from, to, p)
      invariant buffered == Sum(to[..p]) - Sum(from[..p]) && |pending| == 3 * buffered
    {
      var writes := IssuePartition(p, from[p], to[p]);
      HoldsNext(pending, from, to, p);
      SumTake(from, p);
      SumTake(to, p);
      pending, buffered := pending + writes, buffered + (to[p] - from[p]);
      p := p + 1;
    }
    assert from[..p] == from && to[..p] == to;
  }

  method IssuePartition(p: nat, from: nat, to: nat) returns (pending: seq<Write>)
    requires from <= to
    ensures pending == Writes(p, from, to)
  {
    pending := [];
    for o := from to to
      invariant pending == Writes(p, from, o)
    {
      var r := (p, o);
      pending := pending + [Write(r, Raw), Write(r, History), Write(r, Latest)];
    }
  }

  /** Wait for writes in order, up to the first that failed. */
  method Await(pending: seq<Write>, landed: Write -> bool) returns (ok: bool)
    ensures ok <==> forall k :: 0 <= k < |pending| ==> landed(pending[k])
  {
    for i := 0 to |pending|
      invariant forall k :: 0 <= k < i ==> landed(pending[k])
    {
      if !landed(pending[i]) {
        return false;
      }
    }
    return true;
  }

  class Sink {
    var position: seq<nat>
    var committed: seq<nat>
    var counter: nat
    ghost var acked: set<Place>

    ghost function Now(): State
      reads this
    {
      State(position, committed, acked, counter)
    }

    constructor (partitions: nat)
      ensures Now() == Start(partitions)
    {
      position, committed := seq(partitions, i => 0), seq(partitions, i => 0);
      counter, acked := 0, {};
    }

    /** One turn: issue every write of the batch, await them in order, and commit only if none
        failed.  `landed` says which writes succeed; `counted` whether the counter's does. */
    method Turn(to: seq<nat>, landed: Write -> bool, counted: bool) returns (ok: bool)
      requires AtOrBefore(position, to) && to != position
      modifies this
      ensures ok == AllLand(old(position), to, landed)
      ensures Allowed(old(Now()), Outcome(old(position), to, landed, counted))
      ensures Now() == Next(old(Now()), Outcome(old(position), to, landed, counted))
    {
      var from := position;
      var pending, buffered := Issue(from, to);
      position, acked := to, acked + Landed(from, to, landed);
      ok := Await(pending, landed);
      Awaited(pending, from, to, landed);
      if ok {
        committed := to;
        counter := counter + if counted then buffered else 0;
      }
    }

    method Restart()
      modifies this
      ensures Now() == Next(old(Now()), Step.Restart)
    {
      position := committed;
    }
  }

  lemma Awaited(pending: seq<Write>, from: seq<nat>, to: seq<nat>, landed: Write -> bool)
    requires AtOrBefore(from, to) && Holds(pending, from, to, |from|)
    ensures AllLand(from, to, landed) <==> forall k :: 0 <= k < |pending| ==> landed(pending[k])
  {
    if forall k :: 0 <= k < |pending| ==> landed(pending[k]) {
      forall r, t | Between(from, to, r) ensures landed(Write(r, t)) {
        assert Write((r.0, r.1), t) in pending;
      }
    } else {
      var k :| 0 <= k < |pending| && !landed(pending[k]);
      assert pending[k] in pending;
      assert pending[k] == Write(pending[k].record, pending[k].table);
    }
  }
}
