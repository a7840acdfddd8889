/** Which rows the live embedder reaches when some writes keep failing.

The snippets hold still, each asset's writes always succeed or always fail, and the rows are
read in the same order every time.
 */
module EmbedderQueue {
  import opened Collections
  import opened Embedder
  import opened Endings

  /** The rows of a batch that are left to try again, in order. */
  function Failing(batch: seq<Row>, ok: int -> bool): seq<Row> {
    if batch == [] then []
    else
      var n := |batch| - 1;
      if ok(batch[n].id) then Failing(batch[..n], ok) else Failing(batch[..n], ok) + [batch[n]]
  }

  /** The changed rows after one pass: those that failed stay in front of those deferred. */
  function Pass(queue: seq<Row>, limit: nat, ok: int -> bool): seq<Row> {
    var b := Least(limit, |queue|);
    Failing(queue[..b], ok) + queue[b..]
  }

  function Passing(limit: nat, ok: int -> bool): seq<Row> -> seq<Row> { queue => Pass(queue, limit, ok) }

  /** The queue after so many passes. */
  function Passed(queue: seq<Row>, limit: nat, ok: int -> bool, n: nat): seq<Row> {
    Iterate(Passing(limit, ok), queue, n)
  }

  // ----- the queue

  lemma {:induction false} FailingCount(batch: seq<Row>, ok: int -> bool)
    ensures |Failing(batch, ok)| == Failures(batch, ok) == Failures(Failing(batch, ok), ok) <= |batch|
  {
    if batch != [] {
      var n := |batch| - 1;
      FailingCount(batch[..n], ok);
      var before := Failing(batch[..n], ok);
      assert (before + [batch[n]])[..|before|] == before;
    }
  }

  lemma {:induction false} FailuresConcat(a: seq<Row>, b: seq<Row>, ok: int -> bool)
    ensures Failures(a + b, ok) == Failures(a, ok) + Failures(b, ok)
  {
    if b == [] {
      assert a + b == a;
    } else {
      var n := |b| - 1;
      FailuresConcat(a, b[..n], ok);
      assert (a + b)[..|a + b| - 1] == a + b[..n];
    }
  }

  lemma {:induction false} FailingFrom(batch: seq<Row>, ok: int -> bool)
    ensures forall r :: r in Failing(batch, ok) ==> r in batch && !ok(r.id)
  {
    if batch != [] {
      FailingFrom(batch[..|batch| - 1], ok);
    }
  }

  lemma {:induction false} FailingDistinct(a: seq<Row>, b: seq<Row>, ok: int -> bool)
    requires Distinct(a + b)
    ensures Distinct(Failing(a, ok) + b)
  {
    if a == [] {
      assert a + b == b && Failing(a, ok) + b == b;
    } else {
      var n := |a| - 1;
      var x := [a[n]];
      assert a[..n] + (x + b) == a + b;
      FailingDistinct(a[..n], x + b, ok);
      var kept := Failing(a[..n], ok);
      if ok(a[n].id) {
        DropMiddle(kept, a[n], b);
      } else {
        assert kept + (x + b) == kept + x + b;
      }
    }
  }

  lemma DropMiddle(a: seq<Row>, x: Row, b: seq<Row>)
    requires Distinct(a + ([x] + b))
    ensures Distinct(a + b)
  {
    var whole := a + ([x] + b);
    forall i, j | 0 <= i < j < |a + b| ensures (a + b)[i].id != (a + b)[j].id {
      var i' := if i < |a| then i else i + 1;
      var j' := if j < |a| then j else j + 1;
      assert (a + b)[i] == whole[i'] && (a + b)[j] == whole[j'];
    }
  }

  lemma PassDistinct(queue: seq<Row>, limit: nat, ok: int -> bool)
    requires Distinct(queue)
    ensures Distinct(Pass(queue, limit, ok))
  {
    var b := Least(limit, |queue|);
    assert queue == queue[..b] + queue[b..];
    FailingDistinct(queue[..b], queue[b..], ok);
  }

  /** A row in the batch whose write succeeds leaves the queue. */
  lemma Leaves(queue: seq<Row>, p: nat, limit: nat, ok: int -> bool)
    requires Distinct(queue) && p < |queue| && p < limit && ok(queue[p].id)
    ensures queue[p] !in Pass(queue, limit, ok)
  {
    var b := Least(limit, |queue|);
    FailingFrom(queue[..b], ok);
    forall i | b <= i < |queue| ensures queue[i] != queue[p] {
    }
  }

  /** A row behind the batch moves up by the successes in it, with as many failing rows before
      it as ever. */
  lemma MovesUp(queue: seq<Row>, p: nat, limit: nat, ok: int -> bool)
    requires limit <= p < |queue|
    ensures
      var next, q := Pass(queue, limit, ok), p - limit + Failures(queue[..limit], ok);
      && q < |next| && next[q] == queue[p]
      && Failures(next[..q], ok) == Failures(queue[..p], ok)
      && Failures(queue[..limit], ok) <= Failures(queue[..p], ok)
  {
    var front, middle := queue[..limit], queue[limit..p];
    FailingCount(front, ok);
    assert queue[..p] == front + middle;
    FailuresConcat(front, middle, ok);
    FailuresConcat(Failing(front, ok), middle, ok);
    Behind(Failing(front, ok), queue[limit..], p - limit);
    assert queue[limit..][..p - limit] == middle;
  }

  lemma Behind(front: seq<Row>, back: seq<Row>, i: nat)
    requires i < |back|
    ensures (front + back)[|front| + i] == back[i] && (front + back)[..|front| + i] == front + back[..i]
  {
  }

  /** With fewer failing rows before it than a batch holds, a row's turn comes. */
  lemma {:induction false} Served(queue: seq<Row>, p: nat, limit: nat, ok: int -> bool) returns (n: nat)
    requires Distinct(queue) && p < |queue| && ok(queue[p].id) && Failures(queue[..p], ok) < limit
    ensures queue[p] !in Passed(queue, limit, ok, n)
    decreases p
  {
    var next := Pass(queue, limit, ok);
    if p < limit {
      Leaves(queue, p, limit, ok);
      assert Passed(next, limit, ok, 0) == next;
      n := 1;
    } else {
      MovesUp(queue, p, limit, ok);
      PassDistinct(queue, limit, ok);
      var m := Served(next, p - limit + Failures(queue[..limit], ok), limit, ok);
      n := m + 1;
    }
  }

  lemma BehindTheBatch(queue: seq<Row>, p: nat, limit: nat, ok: int -> bool)
    requires p < |queue| && Failures(queue[..p], ok) >= limit
    ensures limit <= p
  {
    FailingCount(queue[..p], ok);
  }

  lemma StaysBehind(queue: seq<Row>, p: nat, limit: nat, ok: int -> bool) returns (next: seq<Row>, q: nat)
    requires limit <= p < |queue|
    ensures next == Pass(queue, limit, ok) && q < |next| && next[q] == queue[p]
    ensures Failures(next[..q], ok) == Failures(queue[..p], ok)
  {
    MovesUp(queue, p, limit, ok);
    next, q := Pass(queue, limit, ok), p - limit + Failures(queue[..limit], ok);
  }

  /** With a batch's worth of failing rows before it, it never does. */
  lemma {:induction false} Starves(queue: seq<Row>, p: nat, limit: nat, ok: int -> bool, n: nat)
    requires p < |queue| && Failures(queue[..p], ok) >= limit
    ensures queue[p] in Passed(queue, limit, ok, n)
    decreases n
  {
    if n > 0 {
      BehindTheBatch(queue, p, limit, ok);
      var next, q := StaysBehind(queue, p, limit, ok);
      Starves(next, q, limit, ok, n - 1);
    }
  }

  // ----- the embedder's passes are the queue's

  /** The rows of no asset that is gone. */
  function Without(rows: seq<Row>, gone: set<int>): seq<Row> {
    if rows == [] then []
    else
      var n := |rows| - 1;
      if rows[n].id in gone then Without(rows[..n], gone) else Without(rows[..n], gone) + [rows[n]]
  }

  lemma {:induction false} WithoutConcat(a: seq<Row>, b: seq<Row>, gone: set<int>)
    ensures Without(a + b, gone) == Without(a, gone) + Without(b, gone)
  {
    if b == [] {
      assert a + b == a;
    } else {
      var n := |b| - 1;
      WithoutConcat(a, b[..n], gone);
      assert (a + b)[..|a + b| - 1] == a + b[..n];
    }
  }

  lemma {:induction false} WithoutNone(rows: seq<Row>, gone: set<int>)
    requires forall i :: 0 <= i < |rows| ==> rows[i].id !in gone
    ensures Without(rows, gone) == rows
  {
    if rows != [] {
      WithoutNone(rows[..|rows| - 1], gone);
    }
  }

  lemma {:induction false} WithoutIsFailing(rows: seq<Row>, gone: set<int>, ok: int -> bool)
    requires forall i :: 0 <= i < |rows| ==> (rows[i].id in gone <==> ok(rows[i].id))
    ensures Without(rows, gone) == Failing(rows, ok)
  {
    if rows != [] {
      WithoutIsFailing(rows[..|rows| - 1], gone, ok);
    }
  }

  /** Taking what landed out of the queue is one pass of it. */
  lemma LandedLeave(front: seq<Row>, back: seq<Row>, ok: int -> bool)
    requires Distinct(front + back)
    ensures Without(front + back, Landed(front, ok)) == Failing(front, ok) + back
  {
    FrontGoes(front, ok);
    BackStays(front, back, ok);
    WithoutConcat(front, back, Landed(front, ok));
  }

  lemma FrontGoes(front: seq<Row>, ok: int -> bool)
    ensures Without(front, Landed(front, ok)) == Failing(front, ok)
  {
    forall i | 0 <= i < |front| ensures front[i].id in Landed(front, ok) <==> ok(front[i].id) {
      LandedMember(front, ok, front[i].id);
    }
    WithoutIsFailing(front, Landed(front, ok), ok);
  }

  lemma BackStays(front: seq<Row>, back: seq<Row>, ok: int -> bool)
    requires Distinct(front + back)
    ensures Without(back, Landed(front, ok)) == back
  {
    forall i | 0 <= i < |back| ensures back[i].id !in Landed(front, ok) {
      LandedMember(front, ok, back[i].id);
      assert back[i] == (front + back)[|front| + i];
      assert forall k :: 0 <= k < |front| ==> front[k] == (front + back)[k];
    }
    WithoutNone(back, Landed(front, ok));
  }

  lemma {:induction false} ChangedWithout(
      rows: seq<Row>, seen: map<int, Digest>, after: map<int, Digest>, gone: set<int>, key: string -> Digest)
    requires forall i :: 0 <= i < |rows| ==>
               (Differs(after, rows[i].id, rows[i].text, key) <==>
                Differs(seen, rows[i].id, rows[i].text, key) && rows[i].id !in gone)
    ensures Changed(rows, after, key) == Without(Changed(rows, seen, key), gone)
  {
    if rows != [] {
      var n := |rows| - 1;
      ChangedWithout(rows[..n], seen, after, gone, key);
      var before := Changed(rows[..n], seen, key);
      assert (before + [rows[n]])[..|before|] == before;
    }
  }

  lemma DiffersAfter(
      st: Store, batch: seq<Row>, latest: map<int, string>, key: string -> Digest, end: int -> Ending, r: Row)
    requires Carries(batch, latest) && r.id in latest && latest[r.id] == r.text
    ensures Differs(Embed(st, batch, key, end).seen, r.id, r.text, key) <==>
            Differs(st.seen, r.id, r.text, key) && r.id !in Landed(batch, Answers(end))
  {
    EmbedWrites(st, batch, latest, key, end, r.id);
  }

  /** One pass of the embedder is one pass of the queue of changed rows. */
  lemma EmbedIsPass(
      st: Store, rows: seq<Row>, latest: map<int, string>, key: string -> Digest, limit: nat, end: int -> Ending)
    requires Lists(rows, latest)
    ensures Changed(rows, Once(st, rows, key, limit, end).seen, key) ==
            Pass(Changed(rows, st.seen, key), limit, Answers(end))
  {
    var queue, batch := Changed(rows, st.seen, key), Batch(rows, st.seen, key, limit);
    var after, gone := Embed(st, batch, key, end), Landed(batch, Answers(end));
    BatchIsChanged(rows, latest, st.seen, key, limit);
    forall i | 0 <= i < |rows|
      ensures Differs(after.seen, rows[i].id, rows[i].text, key) <==>
              Differs(st.seen, rows[i].id, rows[i].text, key) && rows[i].id !in gone
    {
      DiffersAfter(st, batch, latest, key, end, rows[i]);
    }
    ChangedWithout(rows, st.seen, after.seen, gone, key);
    ChangedDistinct(rows, st.seen, key);
    var b := Least(limit, |queue|);
    assert queue == queue[..b] + queue[b..];
    LandedLeave(queue[..b], queue[b..], Answers(end));
  }

  /** The store after one pass, and after so many, all alike. */
  function Once(st: Store, rows: seq<Row>, key: string -> Digest, limit: nat, end: int -> Ending): Store {
    Embed(st, Batch(rows, st.seen, key, limit), key, end)
  }

  function Repeating(rows: seq<Row>, key: string -> Digest, limit: nat, end: int -> Ending): Store -> Store {
    st => Once(st, rows, key, limit, end)
  }

  function Repeated(st: Store, rows: seq<Row>, key: string -> Digest, limit: nat, end: int -> Ending, n: nat): Store {
    Iterate(Repeating(rows, key, limit, end), st, n)
  }

  lemma RepeatedIsPassed(
      st: Store, rows: seq<Row>, latest: map<int, string>, key: string -> Digest, limit: nat,
      end: int -> Ending, n: nat)
    requires Lists(rows, latest)
    ensures Changed(rows, Repeated(st, rows, key, limit, end, n).seen, key) ==
            Passed(Changed(rows, st.seen, key), limit, Answers(end), n)
  {
    var queue := (s: Store) => Changed(rows, s.seen, key);
    var step, pass := Repeating(rows, key, limit, end), Passing(limit, Answers(end));
    forall s ensures queue(step(s)) == pass(queue(s)) {
      EmbedIsPass(s, rows, latest, key, limit, end);
    }
    Simulates(step, pass, queue, st, n);
  }

  /** After so many passes the row no longer differs from what is remembered. */
  ghost predicate DoneBy(
      st: Store, rows: seq<Row>, key: string -> Digest, limit: nat, end: int -> Ending, r: Row, n: nat) {
    !Differs(Repeated(st, rows, key, limit, end, n).seen, r.id, r.text, key)
  }

  lemma DoneIsLeft(
      st: Store, rows: seq<Row>, latest: map<int, string>, key: string -> Digest, limit: nat, end: int -> Ending,
      r: Row, n: nat)
    requires Lists(rows, latest) && r in rows
    ensures DoneBy(st, rows, key, limit, end, r, n) <==>
            r !in Passed(Changed(rows, st.seen, key), limit, Answers(end), n)
  {
    RepeatedIsPassed(st, rows, latest, key, limit, end, n);
    ChangedAreRows(rows, Repeated(st, rows, key, limit, end, n).seen, key, r);
  }

  /** Whatever a pass defers, a later one takes: true of a row whose own write succeeds exactly
      when fewer rows before it keep failing than a batch holds. */
  lemma ServedIff(
      st: Store, rows: seq<Row>, latest: map<int, string>, key: string -> Digest, limit: nat,
      end: int -> Ending, p: nat)
    requires Lists(rows, latest)
    requires p < |Changed(rows, st.seen, key)| && end(Changed(rows, st.seen, key)[p].id) == Answered
    ensures
      var queue := Changed(rows, st.seen, key);
      (exists n: nat :: DoneBy(st, rows, key, limit, end, queue[p], n)) <==>
      Failures(queue[..p], Answers(end)) < limit
  {
    var queue, ok := Changed(rows, st.seen, key), Answers(end);
    var r := queue[p];
    ChangedAreRows(rows, st.seen, key, r);
    ChangedDistinct(rows, st.seen, key);
    if Failures(queue[..p], ok) < limit {
      var n := Served(queue, p, limit, ok);
      DoneIsLeft(st, rows, latest, key, limit, end, r, n);
      assert DoneBy(st, rows, key, limit, end, r, n);
    } else {
      forall n: nat ensures !DoneBy(st, rows, key, limit, end, r, n) {
        Starves(queue, p, limit, ok, n);
        DoneIsLeft(st, rows, latest, key, limit, end, r, n);
      }
    }
  }
}
