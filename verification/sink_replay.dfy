/** What the sink's runs leave in the raw table.

A run's turns read stretches of a partition's log; some of those writes are acknowledged, and
of the others any may have taken effect.
 */
module SinkReplay {
  import opened Collections
  import opened SinkLoop
  import opened Replays

  /** One delivery of a record, and whether its rows were acknowledged. */
  datatype Delivery = Delivery(offset: nat, acked: bool)

  /** What a turn delivers of a partition. */
  function Read(position: seq<nat>, step: Step, p: nat): seq<Delivery> {
    if step.Restart? || p >= |position| || p >= |step.to| || step.to[p] < position[p] then []
    else
      seq(step.to[p] - position[p], i requires 0 <= i < step.to[p] - position[p] =>
        Delivery(position[p] + i, step.Committed? || (p, position[p] + i) in step.acks))
  }

  /** Everything a run delivers of a partition, in order. */
  function Delivered(partitions: nat, steps: seq<Step>, p: nat): seq<Delivery> {
    if steps == [] then []
    else
      var init := steps[..|steps| - 1];
      Delivered(partitions, init, p) + Read(Run(partitions, init).position, steps[|steps| - 1], p)
  }

  function Offsets(ds: seq<Delivery>): seq<nat> { seq(|ds|, i requires 0 <= i < |ds| => ds[i].offset) }

  /** The record was delivered in a turn that had it acknowledged. */
  ghost predicate AckedIn(ds: seq<Delivery>, j: nat) { exists i :: 0 <= i < |ds| && ds[i] == Delivery(j, true) }

  lemma ReadAcks(s: State, step: Step, p: nat, j: nat)
    requires Allowed(s, step) && p < |s.position|
    ensures AckedIn(Read(s.position, step, p), j) <==>
            match step
            case Committed(to, _) => Between(s.position, to, (p, j))
            case Failed(_, acks) => (p, j) in acks
            case Restart => false
  {
    var read := Read(s.position, step, p);
    if !step.Restart? && Between(s.position, step.to, (p, j)) {
      assert read[j - s.position[p]].offset == j;
    }
  }

  lemma AckedInConcat(ds: seq<Delivery>, more: seq<Delivery>, j: nat)
    ensures AckedIn(ds + more, j) <==> AckedIn(ds, j) || AckedIn(more, j)
  {
    if AckedIn(ds, j) {
      var i :| 0 <= i < |ds| && ds[i] == Delivery(j, true);
      assert (ds + more)[i] == Delivery(j, true);
    }
    if AckedIn(more, j) {
      var i :| 0 <= i < |more| && more[i] == Delivery(j, true);
      assert (ds + more)[|ds| + i] == Delivery(j, true);
    }
  }

  /** The deliveries marked as acknowledged are exactly those of the records whose rows the run
      had acknowledged. */
  lemma {:induction false} DeliveredAcks(partitions: nat, steps: seq<Step>, p: nat, j: nat)
    requires Possible(partitions, steps) && p < partitions
    ensures AckedIn(Delivered(partitions, steps, p), j) <==> (p, j) in Run(partitions, steps).acked
  {
    if steps != [] {
      var init, step := steps[..|steps| - 1], steps[|steps| - 1];
      DeliveredAcks(partitions, init, p, j);
      RunPartitions(partitions, init);
      ReadAcks(Run(partitions, init), step, p, j);
      AckedInConcat(Delivered(partitions, init, p), Read(Run(partitions, init).position, step, p), j);
    }
  }

  // ----- the deliveries of a run are a redelivery

  /** The next offset to read is at most one past the last one read. */
  ghost predicate Follows(ds: seq<Delivery>, next: nat) {
    if ds == [] then next == 0 else next <= ds[|ds| - 1].offset + 1
  }

  lemma RedeliveryGrows(ds: seq<Delivery>, more: seq<Delivery>, from: nat)
    requires Redelivery(Offsets(ds)) && Follows(ds, from)
    requires forall i :: 0 <= i < |more| ==> more[i].offset == from + i
    ensures Redelivery(Offsets(ds + more))
    ensures Follows(ds + more, from + |more|)
  {
    var a, whole := Offsets(ds), Offsets(ds + more);
    assert forall i :: 0 <= i < |ds| ==> whole[i] == a[i];
    assert forall i :: |ds| <= i < |whole| ==> whole[i] == more[i - |ds|].offset == from + (i - |ds|);
    forall i | 0 <= i < |whole| - 1 ensures whole[i + 1] <= whole[i] + 1 {
      if i + 1 < |ds| {
        assert a[i + 1] <= a[i] + 1;
      }
    }
  }

  lemma {:induction false} RunPartitions(partitions: nat, steps: seq<Step>)
    requires Possible(partitions, steps)
    ensures |Run(partitions, steps).position| == |Run(partitions, steps).committed| == partitions
  {
    if steps != [] {
      RunPartitions(partitions, steps[..|steps| - 1]);
    }
  }

  /** Whatever fails and however often it restarts, a run delivers each partition from its first
      record on, one at a time, falling back only to records it has reached. */
  lemma {:induction false} RunsRedeliver(partitions: nat, steps: seq<Step>, p: nat)
    requires Possible(partitions, steps) && p < partitions
    ensures Redelivery(Offsets(Delivered(partitions, steps, p)))
    ensures p < |Run(partitions, steps).position|
    ensures Follows(Delivered(partitions, steps, p), Run(partitions, steps).position[p])
  {
    RunPartitions(partitions, steps);
    if steps != [] {
      var init, step := steps[..|steps| - 1], steps[|steps| - 1];
      var s, ds := Run(partitions, init), Delivered(partitions, init, p);
      RunsRedeliver(partitions, init, p);
      RunPartitions(partitions, init);
      RunsAreOrdered(partitions, init);
      RedeliveryGrows(ds, Read(s.position, step, p), s.position[p]);
      assert step.Restart? ==> ds + Read(s.position, step, p) == ds;
    }
  }

  // ----- below the commit every record has had its last delivery

  /** The record was delivered and acknowledged, and after that only later ones were. */
  ghost predicate DoneAt(ds: seq<Delivery>, j: nat, i: nat) {
    i < |ds| && ds[i] == Delivery(j, true) && forall k :: i < k < |ds| ==> ds[k].offset > j
  }

  ghost predicate Done(ds: seq<Delivery>, j: nat) { exists i: nat :: DoneAt(ds, j, i) }

  ghost predicate DoneBelow(ds: seq<Delivery>, c: nat) { forall j: nat :: j < c ==> Done(ds, j) }

  lemma DoneStays(ds: seq<Delivery>, more: seq<Delivery>, c: nat)
    requires DoneBelow(ds, c) && forall i :: 0 <= i < |more| ==> more[i].offset >= c
    ensures DoneBelow(ds + more, c)
  {
    forall j: nat | j < c ensures Done(ds + more, j) {
      assert Done(ds, j);
      var i: nat :| DoneAt(ds, j, i);
      assert DoneAt(ds + more, j, i);
    }
  }

  lemma DoneGrows(ds: seq<Delivery>, more: seq<Delivery>, c: nat)
    requires DoneBelow(ds, c)
    requires forall i :: 0 <= i < |more| ==> more[i] == Delivery(c + i, true)
    ensures DoneBelow(ds + more, c + |more|)
  {
    DoneStays(ds, more, c);
    forall j: nat | j < c + |more| ensures Done(ds + more, j) {
      if j >= c {
        assert DoneAt(ds + more, j, |ds| + (j - c));
      }
    }
  }

  /** If failed batches are read again before any later commit, every record below the committed
      offset was last delivered in the turn that committed it. */
  lemma {:induction false} CommittedAreDone(partitions: nat, steps: seq<Step>, p: nat)
    requires Possible(partitions, steps) && ReadsFailuresAgain(steps) && p < partitions
    ensures p < |Run(partitions, steps).committed|
    ensures DoneBelow(Delivered(partitions, steps, p), Run(partitions, steps).committed[p])
  {
    RunPartitions(partitions, steps);
    if steps != [] {
      var n := |steps| - 1;
      var init, step := steps[..n], steps[n];
      var s, ds := Run(partitions, init), Delivered(partitions, init, p);
      RunPartitions(partitions, init);
      ReadsAgainPrefix(steps, n);
      CommittedAreDone(partitions, init, p);
      RunsAreOrdered(partitions, init);
      match step
      case Committed(_, _) =>
        RowsWhenReadAgain(partitions, init);
        DoneGrows(ds, Read(s.position, step, p), s.committed[p]);
      case Failed(_, _) =>
        DoneStays(ds, Read(s.position, step, p), s.committed[p]);
      case Restart =>
        assert ds + Read(s.position, step, p) == ds;
    }
  }

  // ----- the rows below the commit

  /** A write took effect if it was acknowledged, and may have if it was not. */
  function Lands(ds: seq<Delivery>, unheard: nat -> bool): nat -> bool {
    (i: nat) => i >= |ds| || ds[i].acked || unheard(i)
  }

  /** No record at or past the offset carries the id. */
  ghost predicate OnlyBelow(log: seq<Event>, c: nat, id: int) {
    forall k :: c <= k < |log| ==> !(log[k].Readable? && log[k].id == id)
  }

  lemma DoneRow(log: seq<Event>, ds: seq<Delivery>, unheard: nat -> bool, c: nat, id: int, j: nat)
    requires Within(log, Offsets(ds)) && DoneBelow(ds, c) && c <= |log| && OnlyBelow(log, c, id)
    requires j < c && log[j].Readable? && log[j].id == id
    requires forall k :: j < k < c ==> !(log[k].Readable? && log[k].id == id)
    ensures
      var table := RawTable(log, Offsets(ds), Lands(ds, unheard));
      Own(id) in table && table[Own(id)] == log[j].row
  {
    var offsets, lands := Offsets(ds), Lands(ds, unheard);
    assert Done(ds, j);
    var i: nat :| DoneAt(ds, j, i);
    assert offsets[i] == j && WritesKey(log, offsets, lands, Own(id), i);
    forall k: nat | k > i ensures !WritesKey(log, offsets, lands, Own(id), k) {
      if k < |ds| {
        assert offsets[k] == ds[k].offset > j;
      }
    }
    LastWins(log, offsets, lands, Own(id), i);
  }

  /** However many turns failed and whatever became of their writes, if failed batches are read
      again before any later commit, the raw rows below the committed offset are those of one
      pass over the log so far. */
  lemma CommittedRowsAreOnePass(
      partitions: nat, steps: seq<Step>, p: nat, log: seq<Event>, unheard: nat -> bool, id: int)
    requires Possible(partitions, steps) && ReadsFailuresAgain(steps) && p < partitions
    requires Within(log, Offsets(Delivered(partitions, steps, p)))
    requires p < |Run(partitions, steps).committed| && Run(partitions, steps).committed[p] <= |log|
    requires OnlyBelow(log, Run(partitions, steps).committed[p], id)
    ensures
      var ds, c := Delivered(partitions, steps, p), Run(partitions, steps).committed[p];
      var table, once := RawTable(log, Offsets(ds), Lands(ds, unheard)), OnePass(log[..c]);
      && (Own(id) in table <==> Own(id) in once)
      && (Own(id) in table ==> table[Own(id)] == once[Own(id)])
  {
    var ds, c := Delivered(partitions, steps, p), Run(partitions, steps).committed[p];
    CommittedAreDone(partitions, steps, p);
    RowsBelow(log, ds, unheard, c, id);
  }

  lemma RowsBelow(log: seq<Event>, ds: seq<Delivery>, unheard: nat -> bool, c: nat, id: int)
    requires Within(log, Offsets(ds)) && DoneBelow(ds, c) && c <= |log| && OnlyBelow(log, c, id)
    ensures
      var table, once := RawTable(log, Offsets(ds), Lands(ds, unheard)), OnePass(log[..c]);
      && (Own(id) in table <==> Own(id) in once)
      && (Own(id) in table ==> table[Own(id)] == once[Own(id)])
  {
    var offsets, lands, front, once := Offsets(ds), Lands(ds, unheard), log[..c], Once(c);
    if Own(id) in RawTable(log, offsets, lands) {
      var at := LastAmong(log, offsets, lands, Own(id));
      assert offsets[at] < c && once[offsets[at]] == offsets[at];
      assert WritesKey(front, once, Always, Own(id), offsets[at]);
      WrittenIn(front, once, Always, Own(id), offsets[at]);
    }
    if Own(id) in OnePass(front) {
      var j := LastAmong(front, once, Always, Own(id));
      LastWins(front, once, Always, Own(id), j);
      forall k | j < k < c ensures !(log[k].Readable? && log[k].id == id) {
        assert once[k] == k && !WritesKey(front, once, Always, Own(id), k);
      }
      DoneRow(log, ds, unheard, c, id, j);
    }
  }

  // ----- what comes after a commit

  /** A turn reads from the position on, which is never before the commit. */
  lemma ReadsPast(s: State, step: Step, p: nat, c: nat)
    requires Ordered(s) && p < |s.committed| && c <= s.committed[p]
    ensures forall d :: d in Read(s.position, step, p) ==> d.offset >= c
  {
  }

  /** What a run delivers of a partition from step `i` on. */
  function Since(partitions: nat, steps: seq<Step>, i: nat, p: nat): seq<Delivery>
    decreases |steps|
  {
    if |steps| <= i then []
    else
      var init := steps[..|steps| - 1];
      Since(partitions, init, i, p) + Read(Run(partitions, init).position, steps[|steps| - 1], p)
  }

  lemma {:induction false} DeliveredSince(partitions: nat, steps: seq<Step>, i: nat, p: nat)
    requires i <= |steps|
    ensures Delivered(partitions, steps, p) == Delivered(partitions, steps[..i], p) + Since(partitions, steps, i, p)
    decreases |steps|
  {
    if i == |steps| {
      assert steps[..i] == steps;
    } else {
      var n := |steps| - 1;
      var init := steps[..n];
      DeliveredSince(partitions, init, i, p);
      assert init[..i] == steps[..i];
      Associative(Delivered(partitions, steps[..i], p), Since(partitions, init, i, p),
                  Read(Run(partitions, init).position, steps[n], p));
    }
  }

  /** By the end of a run at least as much is committed as at any moment before. */
  lemma CommittedSince(partitions: nat, steps: seq<Step>, i: nat, p: nat)
    requires Possible(partitions, steps) && i <= |steps| && p < partitions
    ensures p < |Run(partitions, steps[..i]).committed| && p < |Run(partitions, steps).committed|
    ensures Run(partitions, steps[..i]).committed[p] <= Run(partitions, steps).committed[p]
  {
    PossiblePrefix(partitions, steps, i);
    RunPartitions(partitions, steps[..i]);
    CommitsGrow(partitions, steps, i);
  }

  /** Whatever a run delivers after some moment lies at or past what was committed then. */
  lemma {:induction false} SinceIsPastCommit(partitions: nat, steps: seq<Step>, i: nat, p: nat)
    requires Possible(partitions, steps) && i <= |steps| && p < partitions
    ensures p < |Run(partitions, steps[..i]).committed|
    ensures forall d :: d in Since(partitions, steps, i, p) ==> d.offset >= Run(partitions, steps[..i]).committed[p]
    decreases |steps|
  {
    CommittedSince(partitions, steps, i, p);
    if i < |steps| {
      var init := steps[..|steps| - 1];
      assert init[..i] == steps[..i];
      SinceIsPastCommit(partitions, init, i, p);
      CommittedSince(partitions, init, i, p);
      RunsAreOrdered(partitions, init);
      ReadsPast(Run(partitions, init), steps[|steps| - 1], p, Run(partitions, steps[..i]).committed[p]);
    }
  }
}
