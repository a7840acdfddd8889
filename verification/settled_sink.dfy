/** The settled verdict over the sink's own runs.

The verdict reads the offsets the sink has committed at some moment; afterwards the sink goes
on from there, with failures and restarts.
 */
module SettledSink {
  import opened Calendar
  import opened Settlement
  import opened SinkLoop
  import opened SinkReplay
  import opened Windows

  /** The committed offsets in the topic's histories are the sink's at that moment. */
  ghost predicate TakenFrom(topic: map<nat, History>, s: State) {
    forall p :: p in topic ==> p < |s.committed| && topic[p].committed == s.committed[p]
  }

  /** Deliveries of one partition, each with the sink's clock as it handles the record. */
  function Clocked(p: nat, ds: seq<Delivery>, clock: nat -> int): seq<(nat, nat, int)> {
    seq(|ds|, i requires 0 <= i < |ds| => (p, ds[i].offset, clock(i)))
  }

  /** If the check says settled on what the sink had committed at step `i`, nothing the sink
      delivers of any partition after that, over any further turns, failures and restarts, is
      filed under the window. */
  lemma SettledForTheSink(
      partitions: nat, steps: seq<Step>, i: nat, p: nat, clock: nat -> int,
      kafka: Kafka, topic: map<nat, History>, t: int, length: int)
    requires Possible(partitions, steps) && i <= |steps| && p < partitions && p in topic
    requires length >= 1 && kafka.Answers? && TakenFrom(topic, Run(partitions, steps[..i]))
    requires Judges(kafka.partitions, kafka.offsets, Settled)
    requires
      var windowEnd := BucketStart(t, length) + length * MICROS_PER_MINUTE;
      && Answered(kafka, topic, windowEnd) && Orderly(topic, windowEnd)
      && forall k :: clock(k) >= windowEnd
    requires forall d :: d in Since(partitions, steps, i, p) ==> d.offset < |topic[p].later|
    ensures
      var later := Since(partitions, steps, i, p);
      forall k :: 0 <= k < |later| ==>
        !InWindow(FiledAt(topic[p].later[later[k].offset], clock(k)), BucketStart(t, length), length)
  {
    var more := Since(partitions, steps, i, p);
    SinceIsPastCommit(partitions, steps, i, p);
    var deliveries := Clocked(p, more, clock);
    var windowEnd := BucketStart(t, length) + length * MICROS_PER_MINUTE;
    forall d | d in deliveries
      ensures d.0 in topic && topic[d.0].committed <= d.1 < |topic[d.0].later| && d.2 >= windowEnd
    {
      var k :| 0 <= k < |deliveries| && deliveries[k] == d;
      assert more[k] in more;
    }
    SettledFilesNone(kafka, topic, t, length, deliveries);
    forall k | 0 <= k < |more|
      ensures !InWindow(FiledAt(topic[p].later[more[k].offset], clock(k)), BucketStart(t, length), length)
    {
      assert deliveries[k] in deliveries && more[k] in more;
    }
  }
}
