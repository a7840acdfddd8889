/** The sink's raw table under redelivery.

The key of an event's row comes from the event's own id, so writing it again changes nothing.
An event whose id cannot be read is given a new one each time it is handled.
 */
module Replays {

  /** A record: its own id if that can be read, and what is written for it. */
  datatype Event = Readable(id: int, row: int) | Unreadable(row: int)

  /** Where a row goes: under the event's own id, or under one made up at that delivery. */
  datatype Key = Own(id: int) | MadeUp(delivery: nat)

  predicate Within(log: seq<Event>, deliveries: seq<nat>) {
    forall i :: 0 <= i < |deliveries| ==> deliveries[i] < |log|
  }

  function KeyOf(e: Event, delivery: nat): Key {
    if e.Readable? then Own(e.id) else MadeUp(delivery)
  }

  /** The raw table after a sequence of deliveries, each an offset of the partition's log;
      `lands` says of each delivery whether its write took effect. */
  function RawTable(log: seq<Event>, deliveries: seq<nat>, lands: nat -> bool): map<Key, int>
    requires Within(log, deliveries)
  {
    if deliveries == [] then map[]
    else
      var n := |deliveries| - 1;
      var before, e := RawTable(log, deliveries[..n], lands), log[deliveries[n]];
      if lands(n) then before[KeyOf(e, n) := e.row] else before
  }

  /** Deliveries start at the beginning and move on one record at a time, except that they may
      at any point fall back to any record already reached. */
  ghost predicate Redelivery(deliveries: seq<nat>) {
    && (deliveries != [] ==> deliveries[0] == 0)
    && forall i :: 0 <= i < |deliveries| - 1 ==> deliveries[i + 1] <= deliveries[i] + 1
  }

  /** On the way from one record to a later one, everything between is delivered. */
  lemma {:induction false} NothingIsJumped(deliveries: seq<nat>, lo: nat, hi: nat, j: nat) returns (at: nat)
    requires Redelivery(deliveries) && lo <= hi < |deliveries|
    requires deliveries[lo] <= j <= deliveries[hi]
    ensures lo <= at <= hi && deliveries[at] == j
    decreases hi
  {
    if deliveries[hi] == j {
      at := hi;
    } else {
      at := NothingIsJumped(deliveries, lo, hi - 1, j);
    }
  }

  /** The delivery writes under this key. */
  ghost predicate WritesKey(log: seq<Event>, deliveries: seq<nat>, lands: nat -> bool, key: Key, i: nat)
    requires Within(log, deliveries)
  {
    i < |deliveries| && lands(i) && KeyOf(log[deliveries[i]], i) == key
  }

  /** The last write under a key decides its row. */
  lemma {:induction false} LastWins(log: seq<Event>, deliveries: seq<nat>, lands: nat -> bool, key: Key, at: nat)
    requires Within(log, deliveries) && WritesKey(log, deliveries, lands, key, at)
    requires forall i: nat :: i > at ==> !WritesKey(log, deliveries, lands, key, i)
    ensures
      var table := RawTable(log, deliveries, lands);
      key in table && table[key] == log[deliveries[at]].row
    decreases |deliveries|
  {
    var n := |deliveries| - 1;
    if at < n {
      assert !WritesKey(log, deliveries, lands, key, n);
      forall i: nat | i > at ensures !WritesKey(log, deliveries[..n], lands, key, i) {
        assert !WritesKey(log, deliveries, lands, key, i);
      }
      LastWins(log, deliveries[..n], lands, key, at);
    }
  }

  /** A key in the table was written, and there was a last time. */
  lemma {:induction false} LastAmong(log: seq<Event>, deliveries: seq<nat>, lands: nat -> bool, key: Key)
    returns (at: nat)
    requires Within(log, deliveries) && key in RawTable(log, deliveries, lands)
    ensures WritesKey(log, deliveries, lands, key, at)
    ensures forall i: nat :: i > at ==> !WritesKey(log, deliveries, lands, key, i)
    decreases |deliveries|
  {
    var n := |deliveries| - 1;
    if WritesKey(log, deliveries, lands, key, n) {
      at := n;
    } else {
      at := LastAmong(log, deliveries[..n], lands, key);
      forall i: nat | i > at ensures !WritesKey(log, deliveries, lands, key, i) {
        assert !WritesKey(log, deliveries[..n], lands, key, i);
      }
    }
  }

  lemma {:induction false} WrittenIn(log: seq<Event>, deliveries: seq<nat>, lands: nat -> bool, key: Key, at: nat)
    requires Within(log, deliveries) && WritesKey(log, deliveries, lands, key, at)
    ensures key in RawTable(log, deliveries, lands)
    decreases |deliveries|
  {
    if at < |deliveries| - 1 {
      WrittenIn(log, deliveries[..|deliveries| - 1], lands, key, at);
    }
  }

  function Once(n: nat): seq<nat> { seq(n, i => i) }

  function Always(i: nat): bool { true }

  /** What one pass over the log leaves. */
  function OnePass(log: seq<Event>): map<Key, int> { RawTable(log, Once(|log|), Always) }

  /** The deliveries have come to the end of the log, and each record's last one took effect. */
  ghost predicate ReadsAll(log: seq<Event>, deliveries: seq<nat>, lands: nat -> bool) {
    && Within(log, deliveries) && Redelivery(deliveries)
    && deliveries != [] && deliveries[|deliveries| - 1] == |log| - 1
    && forall i: nat :: IsFinal(deliveries, i) ==> lands(i)
  }

  /** The record is not delivered again after this. */
  ghost predicate IsFinal(deliveries: seq<nat>, i: nat) {
    i < |deliveries| && forall k :: i < k < |deliveries| ==> deliveries[k] != deliveries[i]
  }

  lemma {:induction false} FinalDelivery(deliveries: seq<nat>, at: nat) returns (final: nat)
    requires at < |deliveries|
    ensures IsFinal(deliveries, final) && final >= at && deliveries[final] == deliveries[at]
    decreases |deliveries| - at
  {
    if k :| at < k < |deliveries| && deliveries[k] == deliveries[at] {
      final := FinalDelivery(deliveries, k);
    } else {
      final := at;
    }
  }

  /** The last record under an id, delivered for the last time, has the last word on it. */
  lemma LastRecordWins(log: seq<Event>, deliveries: seq<nat>, lands: nat -> bool, id: int, j: nat)
    requires ReadsAll(log, deliveries, lands) && j < |log| && log[j].Readable? && log[j].id == id
    requires forall k :: j < k < |log| ==> !(log[k].Readable? && log[k].id == id)
    ensures
      var table := RawTable(log, deliveries, lands);
      Own(id) in table && table[Own(id)] == log[j].row
  {
    var m := |deliveries| - 1;
    var at := NothingIsJumped(deliveries, 0, m, j);
    var final := FinalDelivery(deliveries, at);
    forall i: nat | i > final ensures !WritesKey(log, deliveries, lands, Own(id), i) {
      if WritesKey(log, deliveries, lands, Own(id), i) {
        // Falling back below j would mean passing j again on the way to the end.
        var again := NothingIsJumped(deliveries, i, m, j);
      }
    }
    LastWins(log, deliveries, lands, Own(id), final);
  }

  /** Whatever was redelivered on the way, and whichever of its writes took effect, once the
      whole log has been read the rows under events' own ids are what one pass leaves. */
  lemma OwnRowsAreOnePass(log: seq<Event>, deliveries: seq<nat>, lands: nat -> bool, id: int)
    requires ReadsAll(log, deliveries, lands)
    ensures
      var table, once := RawTable(log, deliveries, lands), OnePass(log);
      && (Own(id) in table <==> Own(id) in once)
      && (Own(id) in table ==> table[Own(id)] == once[Own(id)])
  {
    var once := Once(|log|);
    if Own(id) in RawTable(log, deliveries, lands) {
      var last := LastAmong(log, deliveries, lands, Own(id));
      assert WritesKey(log, once, Always, Own(id), deliveries[last]);
      WrittenIn(log, once, Always, Own(id), deliveries[last]);
    }
    if Own(id) in OnePass(log) {
      var j := LastAmong(log, once, Always, Own(id));
      LastWins(log, once, Always, Own(id), j);
      forall k | j < k < |log| ensures !(log[k].Readable? && log[k].id == id) {
        assert !WritesKey(log, once, Always, Own(id), k);
      }
      LastRecordWins(log, deliveries, lands, id, j);
    }
  }

  /** An event whose id cannot be read leaves one row for every time it was delivered and its
      write took effect. */
  lemma UnreadableRepeats(log: seq<Event>, deliveries: seq<nat>, lands: nat -> bool, i: nat)
    requires Within(log, deliveries)
    ensures
      var table := RawTable(log, deliveries, lands);
      && (MadeUp(i) in table <==> i < |deliveries| && lands(i) && log[deliveries[i]].Unreadable?)
      && (MadeUp(i) in table ==> table[MadeUp(i)] == log[deliveries[i]].row)
  {
    if i < |deliveries| && lands(i) && log[deliveries[i]].Unreadable? {
      LastWins(log, deliveries, lands, MadeUp(i), i);
    }
    if MadeUp(i) in RawTable(log, deliveries, lands) {
      var at := LastAmong(log, deliveries, lands, MadeUp(i));
    }
  }

  // ----- counting rows

  ghost predicate OneToOne<S(!new), T>(domain: set<S>, f: S -> T) {
    forall a, b :: a in domain && b in domain && f(a) == f(b) ==> a == b
  }

  function Image<S, T>(domain: set<S>, f: S -> T): set<T> { set a | a in domain :: f(a) }

  /** An image is as large as its domain exactly when nothing falls together. */
  lemma {:induction false} ImageCount<S(!new), T>(domain: set<S>, f: S -> T)
    ensures |Image(domain, f)| <= |domain|
    ensures |Image(domain, f)| == |domain| <==> OneToOne(domain, f)
  {
    if domain != {} {
      var x :| x in domain;
      var rest := domain - {x};
      ImageCount(rest, f);
      if f(x) in Image(rest, f) {
        assert Image(domain, f) == Image(rest, f);
        var a :| a in rest && f(a) == f(x);
        assert !OneToOne(domain, f);
      } else {
        assert Image(domain, f) == Image(rest, f) + {f(x)};
        assert forall a :: a in rest ==> f(a) in Image(rest, f);
        assert OneToOne(domain, f) <==> OneToOne(rest, f);
      }
    }
  }

  /** The deliveries of events whose id cannot be read that took effect. */
  function Unread(log: seq<Event>, deliveries: seq<nat>, lands: nat -> bool): set<nat>
    requires Within(log, deliveries)
  {
    set i: nat | i < |deliveries| && lands(i) && log[deliveries[i]].Unreadable?
  }

  function OwnKeys(table: map<Key, int>): set<Key> { set k | k in table && k.Own? }

  function MadeUpKeys(table: map<Key, int>): set<Key> { set k | k in table && k.MadeUp? }

  lemma MadeUpAreUnread(log: seq<Event>, deliveries: seq<nat>, lands: nat -> bool, f: nat -> Key)
    requires Within(log, deliveries) && forall i :: f(i) == MadeUp(i)
    ensures MadeUpKeys(RawTable(log, deliveries, lands)) == Image(Unread(log, deliveries, lands), f)
  {
    var made, image := MadeUpKeys(RawTable(log, deliveries, lands)), Image(Unread(log, deliveries, lands), f);
    forall k ensures k in made <==> k in image {
      if k.MadeUp? {
        UnreadableRepeats(log, deliveries, lands, k.delivery);
        assert f(k.delivery) == k;
      }
    }
  }

  lemma KeysSplit(table: map<Key, int>)
    ensures |table| == |OwnKeys(table)| + |MadeUpKeys(table)|
  {
    assert table.Keys == OwnKeys(table) + MadeUpKeys(table);
    assert |table| == |table.Keys|;
  }

  /** Rows are those under their own ids and one for each delivery without that took effect. */
  lemma RowCount(log: seq<Event>, deliveries: seq<nat>, lands: nat -> bool)
    requires Within(log, deliveries)
    ensures
      var table := RawTable(log, deliveries, lands);
      |table| == |OwnKeys(table)| + |Unread(log, deliveries, lands)|
  {
    var f := (i: nat) => MadeUp(i);
    KeysSplit(RawTable(log, deliveries, lands));
    MadeUpAreUnread(log, deliveries, lands, f);
    ImageCount(Unread(log, deliveries, lands), f);
    assert OneToOne(Unread(log, deliveries, lands), f);
  }

  function RecordAt(deliveries: seq<nat>): nat -> nat {
    (i: nat) => if i < |deliveries| then deliveries[i] else 0
  }

  /** Read to the end, the deliveries of unreadable events reach each of them. */
  lemma UnreadReached(log: seq<Event>, deliveries: seq<nat>, lands: nat -> bool)
    requires ReadsAll(log, deliveries, lands)
    ensures Image(Unread(log, deliveries, lands), RecordAt(deliveries)) == Unread(log, Once(|log|), Always)
  {
    var once, f := Once(|log|), RecordAt(deliveries);
    var image := Image(Unread(log, deliveries, lands), f);
    forall j | j in Unread(log, once, Always) ensures j in image {
      assert once[j] == j;
      var at := NothingIsJumped(deliveries, 0, |deliveries| - 1, j);
      var final := FinalDelivery(deliveries, at);
      assert final in Unread(log, deliveries, lands) && f(final) == j;
    }
    forall j | j in image ensures j in Unread(log, once, Always) {
      assert once[j] == j;
    }
  }

  lemma SameOwnKeys(log: seq<Event>, deliveries: seq<nat>, lands: nat -> bool)
    requires ReadsAll(log, deliveries, lands)
    ensures OwnKeys(RawTable(log, deliveries, lands)) == OwnKeys(OnePass(log))
  {
    forall k ensures k in OwnKeys(RawTable(log, deliveries, lands)) <==> k in OwnKeys(OnePass(log)) {
      if k.Own? {
        OwnRowsAreOnePass(log, deliveries, lands, k.id);
      }
    }
  }

  /** No unreadable event was written twice. */
  ghost predicate UnreadableOnce(log: seq<Event>, deliveries: seq<nat>, lands: nat -> bool)
    requires Within(log, deliveries)
  {
    forall i, k :: 0 <= i < k < |deliveries| && deliveries[i] == deliveries[k] && lands(i) && lands(k) ==>
      log[deliveries[i]].Readable?
  }

  lemma OnceIsOneToOne(log: seq<Event>, deliveries: seq<nat>, lands: nat -> bool)
    requires Within(log, deliveries)
    ensures OneToOne(Unread(log, deliveries, lands), RecordAt(deliveries)) <==> UnreadableOnce(log, deliveries, lands)
  {
    var unread, f := Unread(log, deliveries, lands), RecordAt(deliveries);
    if OneToOne(unread, f) {
      forall i, k | 0 <= i < k < |deliveries| && deliveries[i] == deliveries[k] && lands(i) && lands(k)
        ensures log[deliveries[i]].Readable?
      {
        var first: nat, second: nat := i, k;
        assert first in unread <==> second in unread;
        assert f(first) == f(second);
      }
    }
    if UnreadableOnce(log, deliveries, lands) {
      forall a, b | a in unread && b in unread && f(a) == f(b) ensures a == b {
        assert deliveries[a] == deliveries[b];
      }
    }
  }

  /** Once the whole log has been read, a replay leaves as many rows as one pass does exactly
      when no unreadable event was written twice, and otherwise more. */
  lemma DuplicatesIff(log: seq<Event>, deliveries: seq<nat>, lands: nat -> bool)
    requires ReadsAll(log, deliveries, lands)
    ensures |RawTable(log, deliveries, lands)| >= |OnePass(log)|
    ensures |RawTable(log, deliveries, lands)| == |OnePass(log)| <==> UnreadableOnce(log, deliveries, lands)
  {
    RowCount(log, deliveries, lands);
    RowCount(log, Once(|log|), Always);
    SameOwnKeys(log, deliveries, lands);
    UnreadReached(log, deliveries, lands);
    ImageCount(Unread(log, deliveries, lands), RecordAt(deliveries));
    OnceIsOneToOne(log, deliveries, lands);
  }

  /** With every id readable, any replay leaves the very table of one pass. */
  lemma ReplayIsOnePass(log: seq<Event>, deliveries: seq<nat>, lands: nat -> bool)
    requires ReadsAll(log, deliveries, lands)
    requires forall i :: 0 <= i < |log| ==> log[i].Readable?
    ensures RawTable(log, deliveries, lands) == OnePass(log)
  {
    var a, b := RawTable(log, deliveries, lands), OnePass(log);
    forall key ensures (key in a <==> key in b) && (key in a ==> a[key] == b[key]) {
      match key
      case Own(id) => OwnRowsAreOnePass(log, deliveries, lands, id);
      case MadeUp(i) =>
        UnreadableRepeats(log, deliveries, lands, i);
        UnreadableRepeats(log, Once(|log|), Always, i);
    }
  }
}
