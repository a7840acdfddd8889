/** The live embedder: keeps the embeddings index following each asset's latest snippet.

It remembers a digest of the snippet last embedded for each asset, embeds those whose digest
differs, a limited number each pass, and remembers a snippet only once its write was answered.
 */
module Embedder {
  import opened Collections
  import opened Endings

  type Digest = int

  /** An asset's latest snippet; none is the empty text. */
  datatype Row = Row(id: int, text: string)

  /** What the embedder remembers, and the index it writes. */
  datatype Store = Store(seen: map<int, Digest>, index: map<int, string>)

  predicate Space(c: char) {
    var n := c as int;
    || 9 <= n <= 13 || 28 <= n <= 32 || n == 0x85 || n == 0xa0 || n == 0x1680 || 0x2000 <= n <= 0x200a
    || n == 0x2028 || n == 0x2029 || n == 0x202f || n == 0x205f || n == 0x3000
  }

  predicate Blank(s: string) { forall i :: 0 <= i < |s| ==> Space(s[i]) }

  /** Spaces and line breaks alone are blank; one visible character is not. */
  lemma BlankText(s: string)
    ensures (forall i :: 0 <= i < |s| ==> s[i] == ' ' || s[i] == '\t' || s[i] == '\n' || s[i] == '\r') ==> Blank(s)
    ensures (exists i :: 0 <= i < |s| && '!' <= s[i] <= '~') ==> !Blank(s)
  {
  }

  /** The snippet is worth embedding and is not the one remembered. */
  predicate Differs(seen: map<int, Digest>, id: int, text: string, key: string -> Digest) {
    !Blank(text) && !(id in seen && seen[id] == key(text))
  }

  function Changed(rows: seq<Row>, seen: map<int, Digest>, key: string -> Digest): seq<Row> {
    if rows == [] then []
    else
      var n := |rows| - 1;
      if Differs(seen, rows[n].id, rows[n].text, key) then Changed(rows[..n], seen, key) + [rows[n]]
      else Changed(rows[..n], seen, key)
  }

  /** The store after a batch.  An answered write is stored and remembered; one that errors is
      not remembered, stored or not. */
  function Embed(st: Store, batch: seq<Row>, key: string -> Digest, end: int -> Ending): Store {
    if batch == [] then st
    else
      var n := |batch| - 1;
      var before, r := Embed(st, batch[..n], key, end), batch[n];
      match end(r.id)
      case Answered => Store(before.seen[r.id := key(r.text)], before.index[r.id := r.text])
      case ErroredApplied => before.(index := before.index[r.id := r.text])
      case ErroredLost => before
  }

  /** Whose writes were answered, and whose were stored. */
  function Answers(end: int -> Ending): int -> bool { id => end(id) == Answered }

  function Stores(end: int -> Ending): int -> bool { id => end(id) != ErroredLost }

  /** The other writer, on request: every snippet that is not blank, nothing remembered.  `ok`
      says whose writes are stored. */
  function IndexAll(st: Store, rows: seq<Row>, ok: int -> bool): Store {
    if rows == [] then st
    else
      var n := |rows| - 1;
      var before, r := IndexAll(st, rows[..n], ok), rows[n];
      if !Blank(r.text) && ok(r.id) then before.(index := before.index[r.id := r.text]) else before
  }

  function Failures(batch: seq<Row>, ok: int -> bool): nat {
    if batch == [] then 0
    else Failures(batch[..|batch| - 1], ok) + if ok(batch[|batch| - 1].id) then 0 else 1
  }

  /** How many of `length` items a slice up to `limit` takes; a negative limit counts from the
      end. */
  function SliceEnd(length: nat, limit: int): (n: nat)
    ensures n <= length
    ensures limit >= 0 ==> n <= limit && (n == limit || n == length)
    ensures limit < 0 ==> length - n <= -limit && (length - n == -limit || n == 0)
  {
    if limit >= length then length
    else if limit >= 0 then limit
    else if length + limit >= 0 then length + limit
    else 0
  }

  function Batch(rows: seq<Row>, seen: map<int, Digest>, key: string -> Digest, limit: int): seq<Row> {
    var changed := Changed(rows, seen, key);
    changed[..SliceEnd(|changed|, limit)]
  }

  // ----- what is remembered is what is stored

  /** What is remembered of an asset is the digest of what is stored for it. */
  ghost predicate MatchesAt(st: Store, key: string -> Digest, id: int) {
    && (id in st.seen ==> id in st.index && st.seen[id] == key(st.index[id]))
    && (id in st.index && st.index[id] != "" ==> id in st.seen)
  }

  ghost predicate Matches(st: Store, key: string -> Digest) { forall id :: MatchesAt(st, key, id) }

  // ----- how much is left

  ghost predicate Distinct(rows: seq<Row>) {
    forall i, j :: 0 <= i < j < |rows| ==> rows[i].id != rows[j].id
  }

  /** The rows, in whatever order they are read, of the latest snippets. */
  ghost predicate Lists(rows: seq<Row>, latest: map<int, string>) {
    && Distinct(rows)
    && (forall i :: 0 <= i < |rows| ==> rows[i].id in latest && latest[rows[i].id] == rows[i].text)
    && (forall id :: id in latest ==> exists i :: 0 <= i < |rows| && rows[i].id == id)
  }

  function Stale(latest: map<int, string>, seen: map<int, Digest>, key: string -> Digest): set<int> {
    set id | id in latest && Differs(seen, id, latest[id], key)
  }

  /** The assets of a batch whose writes succeeded. */
  function Landed(batch: seq<Row>, ok: int -> bool): set<int> {
    if batch == [] then {}
    else
      var before, id := Landed(batch[..|batch| - 1], ok), batch[|batch| - 1].id;
      if ok(id) then before + {id} else before
  }

  ghost predicate Has(rows: seq<Row>, id: int) { exists i :: 0 <= i < |rows| && rows[i].id == id }

  lemma {:induction false} LandedMember(batch: seq<Row>, ok: int -> bool, id: int)
    ensures id in Landed(batch, ok) <==> ok(id) && Has(batch, id)
  {
    if batch != [] {
      var n := |batch| - 1;
      LandedMember(batch[..n], ok, id);
      assert batch[n].id == id ==> Has(batch, id);
      if Has(batch[..n], id) {
        var i :| 0 <= i < n && batch[..n][i].id == id;
        assert batch[i].id == id;
      }
      if Has(batch, id) && batch[n].id != id {
        var i :| 0 <= i < |batch| && batch[i].id == id;
        assert batch[..n][i].id == id;
      }
    }
  }

  lemma {:induction false} LandedCount(batch: seq<Row>, ok: int -> bool)
    requires Distinct(batch)
    ensures |Landed(batch, ok)| + Failures(batch, ok) == |batch|
  {
    if batch != [] {
      var n := |batch| - 1;
      LandedCount(batch[..n], ok);
      LandedMember(batch[..n], ok, batch[n].id);
    }
  }

  /** The changed rows are exactly the rows that differ. */
  lemma {:induction false} ChangedAreRows(rows: seq<Row>, seen: map<int, Digest>, key: string -> Digest, r: Row)
    ensures r in Changed(rows, seen, key) <==> r in rows && Differs(seen, r.id, r.text, key)
  {
    if rows != [] {
      var n := |rows| - 1;
      ChangedAreRows(rows[..n], seen, key, r);
      assert rows == rows[..n] + [rows[n]];
    }
  }

  lemma {:induction false} ChangedDistinct(rows: seq<Row>, seen: map<int, Digest>, key: string -> Digest)
    requires Distinct(rows)
    ensures Distinct(Changed(rows, seen, key))
  {
    if rows != [] {
      var n := |rows| - 1;
      ChangedDistinct(rows[..n], seen, key);
      var before := Changed(rows[..n], seen, key);
      forall i | 0 <= i < |before| ensures before[i].id != rows[n].id {
        ChangedAreRows(rows[..n], seen, key, before[i]);
      }
    }
  }

  function Always(id: int): bool { true }

  function AlwaysAnswered(id: int): Ending { Answered }

  lemma {:induction false} NoFailures(batch: seq<Row>, ok: int -> bool)
    requires forall id :: ok(id)
    ensures Failures(batch, ok) == 0
  {
    if batch != [] {
      NoFailures(batch[..|batch| - 1], ok);
    }
  }

  /** The changed rows list each stale asset once, with its latest snippet. */
  lemma ChangedIsStale(rows: seq<Row>, latest: map<int, string>, seen: map<int, Digest>, key: string -> Digest)
    requires Lists(rows, latest)
    ensures forall id :: Has(Changed(rows, seen, key), id) <==> id in Stale(latest, seen, key)
    ensures forall r :: r in Changed(rows, seen, key) ==> r.id in latest && latest[r.id] == r.text
  {
    var changed := Changed(rows, seen, key);
    forall r | r in changed
      ensures r.id in latest && latest[r.id] == r.text && Differs(seen, r.id, r.text, key)
    {
      ChangedAreRows(rows, seen, key, r);
    }
    forall id | Has(changed, id) ensures id in Stale(latest, seen, key) {
      var i :| 0 <= i < |changed| && changed[i].id == id;
      assert changed[i] in changed;
    }
    forall id | id in Stale(latest, seen, key) ensures Has(changed, id) {
      var i :| 0 <= i < |rows| && rows[i].id == id;
      ChangedAreRows(rows, seen, key, rows[i]);
      var k :| 0 <= k < |changed| && changed[k] == rows[i];
    }
  }

  lemma ChangedCount(rows: seq<Row>, latest: map<int, string>, seen: map<int, Digest>, key: string -> Digest)
    requires Lists(rows, latest)
    ensures |Changed(rows, seen, key)| == |Stale(latest, seen, key)|
  {
    var changed := Changed(rows, seen, key);
    ChangedIsStale(rows, latest, seen, key);
    ChangedDistinct(rows, seen, key);
    LandedCount(changed, Always);
    NoFailures(changed, Always);
    forall id ensures id in Landed(changed, Always) <==> id in Stale(latest, seen, key) {
      LandedMember(changed, Always, id);
    }
    assert Landed(changed, Always) == Stale(latest, seen, key);
  }

  /** The rows carry the latest snippets. */
  ghost predicate Carries(rows: seq<Row>, latest: map<int, string>) {
    forall i :: 0 <= i < |rows| ==> rows[i].id in latest && latest[rows[i].id] == rows[i].text
  }

  /** After a batch, exactly the assets whose writes were answered are remembered with their
      snippet, and exactly those whose writes were stored have it in the index. */
  lemma {:induction false} EmbedWrites(
      st: Store, batch: seq<Row>, latest: map<int, string>, key: string -> Digest, end: int -> Ending, id: int)
    requires Carries(batch, latest)
    ensures
      var after := Embed(st, batch, key, end);
      && (if id in Landed(batch, Answers(end))
          then id in latest && id in after.seen && after.seen[id] == key(latest[id])
          else (id in after.seen <==> id in st.seen) && (id in st.seen ==> after.seen[id] == st.seen[id]))
      && (if id in Landed(batch, Stores(end))
          then id in latest && id in after.index && after.index[id] == latest[id]
          else (id in after.index <==> id in st.index) && (id in st.index ==> after.index[id] == st.index[id]))
  {
    if batch != [] {
      EmbedWrites(st, batch[..|batch| - 1], latest, key, end, id);
    }
  }

  /** The rows differ from what is remembered. */
  ghost predicate AllDiffer(rows: seq<Row>, seen: map<int, Digest>, key: string -> Digest) {
    forall i :: 0 <= i < |rows| ==> Differs(seen, rows[i].id, rows[i].text, key)
  }

  /** After a batch, an asset in it matches exactly if its write was answered, unless the write
      was lost; every other asset matches as before. */
  lemma EmbedMatchesAt(
      st: Store, batch: seq<Row>, latest: map<int, string>, key: string -> Digest, end: int -> Ending, id: int)
    requires Carries(batch, latest) && AllDiffer(batch, st.seen, key)
    ensures MatchesAt(Embed(st, batch, key, end), key, id) <==>
            if Has(batch, id) && end(id) != ErroredLost then end(id) == Answered else MatchesAt(st, key, id)
  {
    EmbedWrites(st, batch, latest, key, end, id);
    LandedMember(batch, Answers(end), id);
    LandedMember(batch, Stores(end), id);
    if Has(batch, id) {
      var i :| 0 <= i < |batch| && batch[i].id == id;
      assert Differs(st.seen, id, latest[id], key) && latest[id] != "";
    }
  }

  /** No write of the batch was stored and reported as failed. */
  predicate NoneErredStored(batch: seq<Row>, end: int -> Ending) {
    forall i :: 0 <= i < |batch| ==> end(batch[i].id) != ErroredApplied
  }

  /** A batch keeps what is remembered the digest of what is stored exactly when no write in it
      was stored and reported as failed. */
  lemma EmbedMatchesIff(
      st: Store, batch: seq<Row>, latest: map<int, string>, key: string -> Digest, end: int -> Ending)
    requires Matches(st, key) && Carries(batch, latest) && AllDiffer(batch, st.seen, key)
    ensures Matches(Embed(st, batch, key, end), key) <==> NoneErredStored(batch, end)
  {
    var after := Embed(st, batch, key, end);
    forall id
      ensures MatchesAt(after, key, id) <==> !(Has(batch, id) && end(id) == ErroredApplied)
    {
      EmbedMatchesAt(st, batch, latest, key, end, id);
    }
    forall i | 0 <= i < |batch| ensures Has(batch, batch[i].id) {
    }
  }

  /** A batch takes from what is left exactly what was answered. */
  lemma EmbedTakes(st: Store, batch: seq<Row>, latest: map<int, string>, key: string -> Digest, end: int -> Ending)
    requires Carries(batch, latest)
    ensures Stale(latest, Embed(st, batch, key, end).seen, key) ==
            Stale(latest, st.seen, key) - Landed(batch, Answers(end))
  {
    forall id ensures id in Stale(latest, Embed(st, batch, key, end).seen, key) <==>
                      id in Stale(latest, st.seen, key) - Landed(batch, Answers(end))
    {
      EmbedWrites(st, batch, latest, key, end, id);
    }
  }

  /** A batch of the changed rows carries the latest snippets, and they differ. */
  lemma BatchIsChanged(
      rows: seq<Row>, latest: map<int, string>, seen: map<int, Digest>, key: string -> Digest, limit: int)
    requires Lists(rows, latest)
    ensures Carries(Batch(rows, seen, key, limit), latest) && AllDiffer(Batch(rows, seen, key, limit), seen, key)
    ensures Distinct(Batch(rows, seen, key, limit))
  {
    var batch := Batch(rows, seen, key, limit);
    ChangedIsStale(rows, latest, seen, key);
    ChangedDistinct(rows, seen, key);
    forall i | 0 <= i < |batch|
      ensures batch[i].id in latest && latest[batch[i].id] == batch[i].text
      ensures Differs(seen, batch[i].id, batch[i].text, key)
    {
      assert batch[i] in Changed(rows, seen, key);
      ChangedAreRows(rows, seen, key, batch[i]);
    }
  }

  /** One pass over snippets that hold still: what is left afterwards is what was deferred and
      what failed. */
  lemma PassLeaves(
      st: Store, rows: seq<Row>, latest: map<int, string>, key: string -> Digest, limit: int, end: int -> Ending)
    requires Lists(rows, latest)
    ensures
      var changed, batch := Changed(rows, st.seen, key), Batch(rows, st.seen, key, limit);
      && |changed| == |Stale(latest, st.seen, key)|
      && |Stale(latest, Embed(st, batch, key, end).seen, key)| == |changed| - |batch| + Failures(batch, Answers(end))
  {
    var batch, stale := Batch(rows, st.seen, key, limit), Stale(latest, st.seen, key);
    var landed := Landed(batch, Answers(end));
    ChangedCount(rows, latest, st.seen, key);
    BatchIsChanged(rows, latest, st.seen, key, limit);
    LandedCount(batch, Answers(end));
    EmbedTakes(st, batch, latest, key, end);
    forall id | id in landed ensures id in stale {
      LandedMember(batch, Answers(end), id);
      var i :| 0 <= i < |batch| && batch[i].id == id;
      assert Differs(st.seen, batch[i].id, batch[i].text, key);
    }
    SubsetCount(stale, landed);
  }

  lemma PassMatches(
      st: Store, rows: seq<Row>, latest: map<int, string>, key: string -> Digest, limit: int, end: int -> Ending)
    requires Lists(rows, latest)
    ensures
      var batch := Batch(rows, st.seen, key, limit);
      Matches(st, key) ==> (Matches(Embed(st, batch, key, end), key) <==> NoneErredStored(batch, end))
  {
    BatchIsChanged(rows, latest, st.seen, key, limit);
    if Matches(st, key) {
      EmbedMatchesIff(st, Batch(rows, st.seen, key, limit), latest, key, end);
    }
  }

  /** What a pass comes to, whatever the latest snippets it reads. */
  lemma PassComesTo(st: Store, rows: seq<Row>, key: string -> Digest, limit: int, end: int -> Ending)
    ensures
      var changed, batch := Changed(rows, st.seen, key), Batch(rows, st.seen, key, limit);
      var after := Embed(st, batch, key, end);
      forall latest :: Lists(rows, latest) ==>
        && |Stale(latest, after.seen, key)| == |changed| - |batch| + Failures(batch, Answers(end))
        && (Matches(st, key) ==> (Matches(after, key) <==> NoneErredStored(batch, end)))
  {
    forall latest | Lists(rows, latest)
      ensures
        var changed, batch := Changed(rows, st.seen, key), Batch(rows, st.seen, key, limit);
        var after := Embed(st, batch, key, end);
        && |Stale(latest, after.seen, key)| == |changed| - |batch| + Failures(batch, Answers(end))
        && (Matches(st, key) ==> (Matches(after, key) <==> NoneErredStored(batch, end)))
    {
      PassLeaves(st, rows, latest, key, limit, end);
      PassMatches(st, rows, latest, key, limit, end);
    }
  }

  // ----- convergence

  /** Passes in which every write succeeds, each reading the same snippets in its own order. */
  function Passes(st: Store, readings: seq<seq<Row>>, key: string -> Digest, limit: int): Store {
    if readings == [] then st
    else
      var n := |readings| - 1;
      var before := Passes(st, readings[..n], key, limit);
      Embed(before, Batch(readings[n], before.seen, key, limit), key, AlwaysAnswered)
  }

  lemma FullPass(st: Store, rows: seq<Row>, latest: map<int, string>, key: string -> Digest, limit: nat)
    requires Lists(rows, latest)
    ensures
      var left := |Stale(latest, st.seen, key)|;
      |Stale(latest, Embed(st, Batch(rows, st.seen, key, limit), key, AlwaysAnswered).seen, key)| ==
      if left <= limit then 0 else left - limit
  {
    PassLeaves(st, rows, latest, key, limit, AlwaysAnswered);
    assert forall id :: AlwaysAnswered(id) == Answered;
    NoFailures(Batch(rows, st.seen, key, limit), Answers(AlwaysAnswered));
  }

  ghost predicate AllList(readings: seq<seq<Row>>, latest: map<int, string>) {
    forall i :: 0 <= i < |readings| ==> Lists(readings[i], latest)
  }

  /** What is left of a number after taking so much, so many times. */
  function Left(start: nat, times: nat, limit: nat): nat {
    if start <= times * limit then 0 else start - times * limit
  }

  lemma LeftNext(start: nat, times: nat, limit: nat)
    ensures
      var left := Left(start, times, limit);
      Left(start, times + 1, limit) == if left <= limit then 0 else left - limit
  {
    assert (times + 1) * limit == times * limit + limit;
  }

  /** Once snippets hold still and writes succeed, each pass takes a full batch off what is left
      until nothing is. */
  lemma {:induction false} Converges(
      st: Store, readings: seq<seq<Row>>, latest: map<int, string>, key: string -> Digest, limit: nat)
    requires AllList(readings, latest)
    ensures |Stale(latest, Passes(st, readings, key, limit).seen, key)| ==
            Left(|Stale(latest, st.seen, key)|, |readings|, limit)
  {
    if readings != [] {
      var n := |readings| - 1;
      assert AllList(readings[..n], latest) && Lists(readings[n], latest);
      Converges(st, readings[..n], latest, key, limit);
      FullPass(Passes(st, readings[..n], key, limit), readings[n], latest, key, limit);
      LeftNext(|Stale(latest, st.seen, key)|, n, limit);
    }
  }

  /** What is remembered of every asset either matches or is about to be replaced. */
  ghost predicate Trusted(st: Store, latest: map<int, string>, key: string -> Digest) {
    forall id :: id in latest ==> MatchesAt(st, key, id) || id in Stale(latest, st.seen, key)
  }

  lemma PassKeepsTrust(st: Store, rows: seq<Row>, latest: map<int, string>, key: string -> Digest, limit: int)
    requires Lists(rows, latest) && Trusted(st, latest, key)
    ensures Trusted(Embed(st, Batch(rows, st.seen, key, limit), key, AlwaysAnswered), latest, key)
  {
    var batch := Batch(rows, st.seen, key, limit);
    BatchIsChanged(rows, latest, st.seen, key, limit);
    EmbedTakes(st, batch, latest, key, AlwaysAnswered);
    forall id | id in latest
      ensures
        var after := Embed(st, batch, key, AlwaysAnswered);
        MatchesAt(after, key, id) || id in Stale(latest, after.seen, key)
    {
      EmbedMatchesAt(st, batch, latest, key, AlwaysAnswered, id);
      LandedMember(batch, Answers(AlwaysAnswered), id);
    }
  }

  lemma {:induction false} PassesKeepTrust(
      st: Store, readings: seq<seq<Row>>, latest: map<int, string>, key: string -> Digest, limit: int)
    requires AllList(readings, latest) && Trusted(st, latest, key)
    ensures Trusted(Passes(st, readings, key, limit), latest, key)
  {
    if readings != [] {
      var n := |readings| - 1;
      assert AllList(readings[..n], latest) && Lists(readings[n], latest);
      PassesKeepTrust(st, readings[..n], latest, key, limit);
      PassKeepsTrust(Passes(st, readings[..n], key, limit), readings[n], latest, key, limit);
    }
  }

  /** The snippet is in the index up to its digest, and remembered. */
  ghost predicate Indexed(st: Store, id: int, text: string, key: string -> Digest) {
    id in st.index && key(st.index[id]) == key(text) && id in st.seen
  }

  /** With nothing left, every snippet worth embedding is in the index up to its digest. */
  lemma NothingLeftMeansIndexed(st: Store, latest: map<int, string>, key: string -> Digest)
    requires Trusted(st, latest, key)
    ensures |Stale(latest, st.seen, key)| == 0 ==>
              forall id :: id in latest && !Blank(latest[id]) ==> Indexed(st, id, latest[id], key)
    ensures Matches(st, key) && (forall id :: id in latest && !Blank(latest[id]) ==> Indexed(st, id, latest[id], key))
            ==> |Stale(latest, st.seen, key)| == 0
  {
    var stale := Stale(latest, st.seen, key);
    if stale == {} {
      forall id | id in latest && !Blank(latest[id]) ensures Indexed(st, id, latest[id], key) {
        assert id !in stale;
        assert MatchesAt(st, key, id);
      }
    } else {
      var id :| id in stale;
      assert Matches(st, key) ==> MatchesAt(st, key, id);
    }
  }

  /** If what is remembered matches or is about to be replaced, then once the passes can have
      taken everything that was stale, every snippet worth embedding is in the index up to its
      digest. */
  lemma ConvergedIsIndexed(
      st: Store, readings: seq<seq<Row>>, latest: map<int, string>, key: string -> Digest, limit: nat)
    requires Trusted(st, latest, key) && AllList(readings, latest)
    requires |readings| * limit >= |Stale(latest, st.seen, key)|
    ensures
      var after := Passes(st, readings, key, limit);
      forall id :: id in latest && !Blank(latest[id]) ==> Indexed(after, id, latest[id], key)
  {
    Converges(st, readings, latest, key, limit);
    PassesKeepTrust(st, readings, latest, key, limit);
    NothingLeftMeansIndexed(Passes(st, readings, key, limit), latest, key);
  }

  /** A write stored but reported as failed can hide: if the snippet then changes back to the one
      remembered, the embedder sees nothing to do and the index keeps the other. */
  lemma ErroredWriteHides(st: Store, id: int, was: string, now: string, key: string -> Digest)
    requires Matches(st, key) && id in st.index && st.index[id] == was
    requires !Blank(was) && !Blank(now) && key(was) != key(now)
    ensures
      var after := Embed(st, [Row(id, now)], key, _ => ErroredApplied);
      && Changed([Row(id, now)], st.seen, key) == [Row(id, now)]
      && id in after.index && after.index[id] == now
      && Changed([Row(id, was)], after.seen, key) == []
  {
    var rows, back, end := [Row(id, now)], [Row(id, was)], (_: int) => ErroredApplied;
    assert MatchesAt(st, key, id);
    assert rows[..0] == [] && back[..0] == [] && Embed(st, rows[..0], key, end) == st;
    assert Embed(st, rows, key, end) == st.(index := st.index[id := now]);
    assert Changed(rows[..0], st.seen, key) == [] && Changed(back[..0], st.seen, key) == [];
  }

  // ----- the other writer

  /** The request writes this row. */
  predicate Written(r: Row, ok: int -> bool) { !Blank(r.text) && ok(r.id) }

  /** After an indexing by request, each asset has its snippet if one of its rows was written,
      and what it had otherwise. */
  lemma {:induction false} IndexAllWrites(
      st: Store, rows: seq<Row>, latest: map<int, string>, ok: int -> bool, id: int)
    requires Carries(rows, latest)
    ensures
      var after := IndexAll(st, rows, ok);
      && after.seen == st.seen
      && (if exists i :: 0 <= i < |rows| && rows[i].id == id && Written(rows[i], ok) then
            id in latest && id in after.index && after.index[id] == latest[id]
          else (id in after.index <==> id in st.index) && (id in st.index ==> after.index[id] == st.index[id]))
  {
    if rows != [] {
      var n := |rows| - 1;
      IndexAllWrites(st, rows[..n], latest, ok, id);
      if i :| 0 <= i < n && rows[i].id == id && Written(rows[i], ok) {
        assert rows[..n][i] == rows[i];
      }
    }
  }

  /** An indexing by request keeps the match exactly when every snippet it writes is already the
      one remembered. */
  lemma IndexAllMatchesIff(st: Store, rows: seq<Row>, latest: map<int, string>, key: string -> Digest, ok: int -> bool)
    requires Matches(st, key) && Carries(rows, latest)
    ensures Matches(IndexAll(st, rows, ok), key) <==>
            forall i :: 0 <= i < |rows| && Written(rows[i], ok) ==>
              rows[i].id in st.seen && st.seen[rows[i].id] == key(rows[i].text)
  {
    var after := IndexAll(st, rows, ok);
    forall i | 0 <= i < |rows| && Written(rows[i], ok)
      ensures rows[i].text != "" && rows[i].id in after.index && after.index[rows[i].id] == rows[i].text
    {
      IndexAllWrites(st, rows, latest, ok, rows[i].id);
      assert |rows[i].text| > 0;
    }
    IndexAllWrites(st, rows, latest, ok, 0);
    assert Matches(after, key) ==>
      forall i :: 0 <= i < |rows| && Written(rows[i], ok) ==> MatchesAt(after, key, rows[i].id);
    if forall i :: 0 <= i < |rows| && Written(rows[i], ok) ==>
         rows[i].id in st.seen && st.seen[rows[i].id] == key(rows[i].text)
    {
      forall id ensures MatchesAt(after, key, id) {
        IndexAllWrites(st, rows, latest, ok, id);
        assert MatchesAt(st, key, id);
      }
    }
  }

  /** Another writer breaks the match: index a new snippet by request while the old one is the
      one remembered, let the snippet change back, and the embedder sees nothing to do. */
  lemma OtherWriterHides(st: Store, id: int, was: string, now: string, key: string -> Digest)
    requires Matches(st, key) && id in st.index && st.index[id] == was
    requires !Blank(was) && !Blank(now) && key(was) != key(now)
    ensures
      var after := IndexAll(st, [Row(id, now)], Always);
      && !Matches(after, key)
      && id in after.index && after.index[id] == now
      && Changed([Row(id, was)], after.seen, key) == []
  {
    var rows := [Row(id, now)];
    assert rows[..0] == [] && IndexAll(st, rows[..0], Always) == st;
    var after := IndexAll(st, rows, Always);
    assert after == st.(index := st.index[id := now]);
    assert was != "" && MatchesAt(st, key, id);
    assert !MatchesAt(after, key, id);
    assert [Row(id, was)][..0] == [];
    assert Changed([Row(id, was)][..0], after.seen, key) == [];
  }

  // ----- the embedder

  /** The memory holds the digest of every stored text that is not empty, and nothing else. */
  ghost predicate Learns(seen: map<int, Digest>, index: map<int, string>, key: string -> Digest) {
    && (forall id :: id in seen <==> id in index && index[id] != "")
    && (forall id :: id in seen ==> seen[id] == key(index[id]))
  }

  class LiveEmbedder {
    const key: string -> Digest
    const limit: int
    var seen: map<int, Digest>
    var primed: bool
    var pending: nat
    var embedded: nat
    var failed: nat
    var lastEmbedded: nat
    var passes: nat
    /** The table it writes. */
    var index: map<int, string>

    ghost function Now(): Store
      reads this
    {
      Store(seen, index)
    }

    /** Before priming it remembers nothing. */
    ghost predicate Valid()
      reads this
    {
      !primed ==> seen == map[]
    }

    constructor (key: string -> Digest, limit: int, index: map<int, string>)
      ensures Valid() && !primed && this.key == key && this.limit == limit && this.index == index
      ensures pending == embedded == failed == lastEmbedded == passes == 0
    {
      this.key, this.limit, this.index := key, limit, index;
      seen, primed := map[], false;
      pending, embedded, failed, lastEmbedded, passes := 0, 0, 0, 0, 0;
    }

    /** Learn what is already in the index, its rows read in any order. */
    method Prime(stored: seq<Row>)
      requires Valid() && !primed && Lists(stored, index)
      modifies this
      ensures primed && Matches(Now(), key) && index == old(index)
      ensures Learns(seen, index, key)
      ensures pending == old(pending) && embedded == old(embedded) && failed == old(failed)
      ensures passes == old(passes)
    {
      for i := 0 to |stored|
        invariant index == old(index) && pending == old(pending) && embedded == old(embedded)
        invariant failed == old(failed) && passes == old(passes)
        invariant forall id :: id in seen ==> id in index && index[id] != "" && seen[id] == key(index[id])
        invariant forall k :: 0 <= k < i && stored[k].text != "" ==> stored[k].id in seen
      {
        if stored[i].text != "" {
          seen := seen[stored[i].id := key(stored[i].text)];
        }
      }
      primed := true;
    }

    method FindChanged(rows: seq<Row>) returns (changed: seq<Row>)
      ensures changed == Changed(rows, seen, key)
    {
      changed := [];
      for i := 0 to |rows|
        invariant changed == Changed(rows[..i], seen, key)
      {
        assert rows[..i + 1][..i] == rows[..i];
        if Differs(seen, rows[i].id, rows[i].text, key) {
          changed := changed + [rows[i]];
        }
      }
      assert rows[..|rows|] == rows;
    }

    /** Embed a batch; `end` says how each embedding and write ends. */
    method EmbedAll(batch: seq<Row>, end: int -> Ending) returns (done: nat)
      modifies this
      ensures primed == old(primed) && Now() == Embed(old(Now()), batch, key, end)
      ensures failed == old(failed) + Failures(batch, Answers(end))
      ensures done + Failures(batch, Answers(end)) == |batch|
      ensures pending == old(pending) && embedded == old(embedded) && passes == old(passes)
    {
      ghost var st := Now();
      done := 0;
      for i := 0 to |batch|
        invariant Now() == Embed(st, batch[..i], key, end) && primed == old(primed)
        invariant failed == old(failed) + Failures(batch[..i], Answers(end))
        invariant done + Failures(batch[..i], Answers(end)) == i
        invariant pending == old(pending) && embedded == old(embedded) && passes == old(passes)
      {
        assert batch[..i + 1][..i] == batch[..i];
        var r := batch[i];
        if end(r.id) != ErroredLost {
          index := index[r.id := r.text];
        }
        if end(r.id) == Answered {
          seen := seen[r.id := key(r.text)];
          done := done + 1;
        } else {
          failed := failed + 1;
        }
      }
      assert batch[..|batch|] == batch;
    }

    /** One pass over the latest snippets, and over the index first if it was never read. */
    method Pass(rows: seq<Row>, stored: seq<Row>, end: int -> Ending) returns (ghost batch: seq<Row>)
      requires Valid() && Lists(stored, index)
      modifies this
      ensures primed
      ensures old(primed) ==> batch == Batch(rows, old(seen), key, limit) && Now() == Embed(old(Now()), batch, key, end)
      ensures !old(primed) ==>
                exists learnt :: Learns(learnt, old(index), key) && batch == Batch(rows, learnt, key, limit)
                                 && Now() == Embed(Store(learnt, old(index)), batch, key, end)
      ensures forall latest :: Lists(rows, latest) ==>
                |Stale(latest, seen, key)| == pending + (failed - old(failed))
      ensures (old(primed) ==> Matches(old(Now()), key)) && (exists latest :: Lists(rows, latest)) ==>
                (Matches(Now(), key) <==> NoneErredStored(batch, end))
      ensures lastEmbedded == |batch| - Failures(batch, Answers(end)) && embedded == old(embedded) + lastEmbedded
      ensures failed == old(failed) + Failures(batch, Answers(end)) && passes == old(passes) + 1
    {
      if !primed {
        Prime(stored);
      }
      ghost var st := Now();
      var changed := FindChanged(rows);
      var taken := changed[..SliceEnd(|changed|, limit)];
      batch := taken;
      pending := |changed| - |taken|;
      var done := EmbedAll(taken, end);
      embedded, lastEmbedded, passes := embedded + done, done, passes + 1;
      PassComesTo(st, rows, key, limit, end);
    }
  }
}
